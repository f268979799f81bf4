/**
 The resumable event stream client: line splitter, frame assembler and cursor, over any number of
 connections that may break anywhere. The text format is a subset of section 9.2.6 of the HTML
 Living Standard ("Interpreting an event stream").
 */
module EventStream {
  import opened Prelude

  /** The data of a frame, as the JSON parser sees it: an object may name its own event type. */
  datatype Data<P> = NotJson | NotObject | Object(event: Option<string>, payload: P)

  /** The platform's string functions: `trim`, `Number` on non-negative integers, `JSON.parse`
      and the printing of a sequence number. */
  datatype Platform<!P> = Platform(
    trim: string -> string, number: string -> Option<nat>, json: string -> Data<P>, show: nat -> string)

  datatype Frame<P> = Frame(id: nat, event: string, payload: P)

  /** The frame being assembled. */
  datatype Draft = Draft(name: Option<string>, id: Option<nat>, data: seq<string>)

  const EMPTY: Draft := Draft(None, None, [])
  const HEARTBEAT: string := "heartbeat"

  /** What outlives a connection: the resume cursor, the frames handed to `onEvent` and the
      number of errors reported. */
  datatype Client<P> = Client(cursor: nat, delivered: seq<Frame<P>>, errors: nat)

  /** A connection: the unfinished line, the frame being assembled, and the client. */
  datatype State<P> = State(buffer: string, draft: Draft, client: Client<P>)

  // ------------------------------------------------------------------ lines and dispatch

  function Join(lines: seq<string>): string {
    if lines == [] then "" else if |lines| == 1 then lines[0] else lines[0] + "\n" + Join(lines[1..])
  }

  function Complain<P>(client: Client<P>): Client<P> {
    client.(errors := client.errors + 1)
  }

  function Dispatch<P>(p: Platform<P>, d: Draft, client: Client<P>): Client<P> {
    if d.data == [] then client
    else match p.json(Join(d.data))
      case NotJson => Complain(client)
      case NotObject => Complain(client)
      case Object(declared, payload) =>
        var tagged := if declared.Some? then declared else d.name;
        if tagged.None? then Complain(client)
        else if declared.Some? && d.name.Some? && d.name != declared then Complain(client)
        else if tagged.value == HEARTBEAT then
          if d.id.Some? && d.id.value > client.cursor then client.(cursor := d.id.value) else client
        else if d.id.None? then Complain(client)
        else if d.id.value <= client.cursor then client
        else client.(cursor := d.id.value, delivered := client.delivered + [Frame(d.id.value, tagged.value, payload)])
  }

  function DropOneSpace(s: string): string {
    if s != "" && s[0] == ' ' then s[1..] else s
  }

  /** A line that is not blank adds a field to the frame, or nothing. */
  function Collect<P>(p: Platform<P>, d: Draft, line: string): Draft {
    if ":" <= line then d
    else if "event:" <= line then d.(name := Some(p.trim(line[6..])))
    else if "id:" <= line then
      var id := p.number(p.trim(line[3..]));
      if id.Some? then d.(id := id) else d
    else if "data:" <= line then d.(data := d.data + [DropOneSpace(line[5..])])
    else d
  }

  function WithoutCr(raw: string): string {
    if raw != "" && Last(raw) == '\r' then Front(raw) else raw
  }

  function EndLine<P>(p: Platform<P>, s: State<P>): State<P> {
    var line := WithoutCr(s.buffer);
    if line == "" then State("", EMPTY, Dispatch(p, s.draft, s.client))
    else State("", Collect(p, s.draft, line), s.client)
  }

  /** The stream read one character at a time: the reference for the buffered loop below. */
  function Step<P>(p: Platform<P>, s: State<P>, ch: char): State<P> {
    if ch == '\n' then EndLine(p, s) else s.(buffer := s.buffer + [ch])
  }

  function Run<P>(p: Platform<P>, s: State<P>, text: string): State<P>
    decreases |text|
  {
    if text == "" then s else Run(p, Step(p, s, text[0]), text[1..])
  }

  lemma {:induction false} RunSplit<P>(p: Platform<P>, s: State<P>, a: string, b: string)
    ensures Run(p, s, a + b) == Run(p, Run(p, s, a), b)
    decreases |a|
  {
    if a == "" {
      assert a + b == b;
    } else {
      assert (a + b)[1..] == a[1..] + b;
      RunSplit(p, Step(p, s, a[0]), a[1..], b);
    }
  }

  lemma {:induction false} RunWithinLine<P>(p: Platform<P>, s: State<P>, text: string)
    requires '\n' !in text
    ensures Run(p, s, text) == s.(buffer := s.buffer + text)
    decreases |text|
  {
    if text != "" {
      assert text[0] in text;
      RunWithinLine(p, Step(p, s, text[0]), text[1..]);
      assert s.buffer + [text[0]] + text[1..] == s.buffer + text;
    } else {
      assert s.buffer + text == s.buffer;
    }
  }

  lemma RunLine<P>(p: Platform<P>, s: State<P>, line: string, rest: string)
    requires '\n' !in line && s.buffer == ""
    ensures Run(p, s, line + "\n" + rest) == Run(p, EndLine(p, s.(buffer := line)), rest)
  {
    var text := line + "\n" + rest;
    assert text == line + ("\n" + rest) && ("\n" + rest)[1..] == rest;
    RunSplit(p, s, line, "\n" + rest);
    RunWithinLine(p, s, line);
    assert "" + line == line;
  }

  // ------------------------------------------------------------- reads and the frame cap

  /** Reads are processed until the stream ends or an unfinished line exceeds the cap. */
  function Receive<P>(p: Platform<P>, cap: nat, s: State<P>, chunks: seq<string>): Pair<State<P>, bool>
    decreases |chunks|
  {
    if chunks == [] then Pair(s, false)
    else
      var next := Run(p, s, chunks[0]);
      if |next.buffer| > cap then Pair(next, true) else Receive(p, cap, next, chunks[1..])
  }

  function Concat(chunks: seq<string>): string {
    if chunks == [] then "" else chunks[0] + Concat(chunks[1..])
  }

  function Connected<P>(client: Client<P>): State<P> {
    State("", EMPTY, client)
  }

  /** However the text is chopped, a connection has processed some prefix of it character by
      character, and all of it unless the cap was exceeded at exactly that point. */
  lemma {:induction false} ReceivesAPrefix<P>(p: Platform<P>, cap: nat, s: State<P>,
      chunks: seq<string>) returns (n: nat)
    ensures n <= |Concat(chunks)|
    ensures var r := Receive(p, cap, s, chunks);
            && r.first == Run(p, s, Concat(chunks)[..n])
            && (r.second ==> |r.first.buffer| > cap) && (!r.second ==> n == |Concat(chunks)|)
    decreases |chunks|
  {
    assert Run(p, s, "") == s by { RunEmpty(p, s); }
    hide Run;
    if chunks == [] {
      n := 0;
    } else {
      var next := Run(p, s, chunks[0]);
      if |next.buffer| > cap {
        n := |chunks[0]|;
        assert Concat(chunks)[..n] == chunks[0];
      } else {
        var m := ReceivesAPrefix(p, cap, next, chunks[1..]);
        n := |chunks[0]| + m;
        assert Concat(chunks)[..n] == chunks[0] + Concat(chunks[1..])[..m];
        RunSplit(p, s, chunks[0], Concat(chunks[1..])[..m]);
      }
    }
  }

  /** No line of the text, finished or not, exceeds the cap; the first one continues a line of
      which `buffered` characters have arrived. */
  ghost predicate LinesFit(cap: nat, buffered: nat, text: string) {
    forall i, j :: 0 <= i <= j <= |text| && '\n' !in text[i..j] ==> (if i == 0 then buffered else 0) + j - i <= cap
  }

  ghost predicate BuffersFit<P>(p: Platform<P>, cap: nat, s: State<P>, text: string) {
    forall n :: 0 <= n <= |text| ==> |Run(p, s, text[..n]).buffer| <= cap
  }

  /** The buffer holds what follows the last newline. */
  lemma {:induction false} BufferedSince<P>(p: Platform<P>, s: State<P>, text: string, n: nat) returns (i: nat)
    requires n <= |text|
    ensures i <= n && '\n' !in text[i..n]
    ensures |Run(p, s, text[..n]).buffer| == (if i == 0 then |s.buffer| else 0) + n - i
  {
    hide Run;
    if n == 0 {
      i := 0;
      assert text[..0] == "" && Run(p, s, "") == s by { RunEmpty(p, s); }
    } else {
      i := BufferedSince(p, s, text, n - 1);
      BufferGrows(p, s, text, n);
      if text[n - 1] == '\n' { i := n; } else { assert text[i..n] == text[i..n - 1] + [text[n - 1]]; }
    }
  }

  lemma RunEmpty<P>(p: Platform<P>, s: State<P>)
    ensures Run(p, s, "") == s
  {
  }

  lemma BufferGrows<P>(p: Platform<P>, s: State<P>, text: string, n: nat)
    requires 0 < n <= |text|
    ensures |Run(p, s, text[..n]).buffer|
         == if text[n - 1] == '\n' then 0 else |Run(p, s, text[..n - 1]).buffer| + 1
  {
    hide *;
    assert text[..n] == text[..n - 1] + [text[n - 1]];
    RunSplit(p, s, text[..n - 1], [text[n - 1]]);
    RunOne(p, Run(p, s, text[..n - 1]), text[n - 1]);
  }

  lemma RunOne<P>(p: Platform<P>, s: State<P>, ch: char)
    ensures Run(p, s, [ch]) == Step(p, s, ch)
    ensures |Step(p, s, ch).buffer| == if ch == '\n' then 0 else |s.buffer| + 1
  {
    assert [ch][1..] == "";
    assert Run(p, Step(p, s, ch), "") == Step(p, s, ch);
  }

  lemma LongestBuffer<P>(p: Platform<P>, s: State<P>, text: string, i: nat, j: nat)
    requires i <= j <= |text| && '\n' !in text[i..j]
    ensures |Run(p, s, text[..j]).buffer| >= (if i == 0 then |s.buffer| else 0) + j - i
  {
    assert text[..j] == text[..i] + text[i..j];
    RunSplit(p, s, text[..i], text[i..j]);
    RunWithinLine(p, Run(p, s, text[..i]), text[i..j]);
    assert i == 0 ==> Run(p, s, text[..i]) == s;
  }

  lemma BuffersFitExactly<P>(p: Platform<P>, cap: nat, s: State<P>, text: string)
    ensures BuffersFit(p, cap, s, text) <==> LinesFit(cap, |s.buffer|, text)
  {
    hide Run;
    if BuffersFit(p, cap, s, text) {
      forall i, j | 0 <= i <= j <= |text| && '\n' !in text[i..j]
        ensures (if i == 0 then |s.buffer| else 0) + j - i <= cap
      {
        LongestBuffer(p, s, text, i, j);
      }
    }
    if LinesFit(cap, |s.buffer|, text) {
      forall n | 0 <= n <= |text| ensures |Run(p, s, text[..n]).buffer| <= cap {
        var i := BufferedSince(p, s, text, n);
      }
    }
  }

  /** The cap is harmless for every chopping exactly when every line fits it; the whole text is
      then processed, whatever the chopping. */
  lemma CapIsHarmlessExactly<P>(p: Platform<P>, cap: nat, s: State<P>, text: string)
    ensures LinesFit(cap, |s.buffer|, text)
       <==> forall chunks :: Concat(chunks) == text ==> Receive(p, cap, s, chunks) == Pair(Run(p, s, text), false)
  {
    BuffersFitExactly(p, cap, s, text);
    if BuffersFit(p, cap, s, text) {
      forall chunks | Concat(chunks) == text ensures Receive(p, cap, s, chunks) == Pair(Run(p, s, text), false) {
        var n := ReceivesAPrefix(p, cap, s, chunks);
        assert text[..|text|] == text;
      }
    } else {
      var n :| 0 <= n <= |text| && |Run(p, s, text[..n]).buffer| > cap;
      var chunks := [text[..n], text[n..]];
      var none: seq<string> := [];
      assert chunks[1..] == [text[n..]] && [text[n..]][1..] == none;
      assert Concat(none) == "" && Concat([text[n..]]) == text[n..] + "";
      assert Concat(chunks) == text;
      assert Receive(p, cap, s, chunks).second;
    }
  }

  // ------------------------------------------------------------ deliveries within one read

  function Newlines(text: string): nat {
    if text == "" then 0 else (if text[0] == '\n' then 1 else 0) + Newlines(text[1..])
  }

  /** How much of an event has been assembled: an id, and data. */
  function Assembled(d: Draft): nat {
    (if d.id.Some? then 1 else 0) + (if d.data != [] then 1 else 0)
  }

  lemma EndLineDelivers<P>(p: Platform<P>, s: State<P>)
    ensures 3 * |EndLine(p, s).client.delivered| + Assembled(EndLine(p, s).draft)
         <= 3 * |s.client.delivered| + Assembled(s.draft) + 1
  {
  }

  lemma {:induction false} DeliveriesAssembled<P>(p: Platform<P>, s: State<P>, text: string)
    ensures 3 * |Run(p, s, text).client.delivered| + Assembled(Run(p, s, text).draft)
         <= 3 * |s.client.delivered| + Assembled(s.draft) + Newlines(text)
    decreases |text|
  {
    if text != "" {
      EndLineDelivers(p, s);
      hide EndLine, Assembled;
      DeliveriesAssembled(p, Step(p, s, text[0]), text[1..]);
    }
  }

  /** A stop called while an event is delivered takes effect with the next read. Until then at most
      a third as many events are delivered as newlines are left in what was read. */
  lemma LateDeliveries<P>(p: Platform<P>, client: Client<P>, rest: string)
    ensures 3 * (|Run(p, Connected(client), rest).client.delivered| - |client.delivered|) <= Newlines(rest)
  {
    DeliveriesAssembled(p, Connected(client), rest);
    hide Run;
  }

  // ------------------------------------------------------------------- arbitrary streams

  /** Delivered ids are strictly increasing and lie between the initial and current cursor. */
  ghost predicate InOrder<P>(start: nat, client: Client<P>) {
    && start <= client.cursor
    && (forall i :: 0 <= i < |client.delivered| ==> start < client.delivered[i].id <= client.cursor)
    && (forall i, j :: 0 <= i < j < |client.delivered| ==> client.delivered[i].id < client.delivered[j].id)
  }

  /** Later deliveries come after everything delivered before, from beyond the cursor of then. */
  ghost predicate Extends<P>(before: Client<P>, after: Client<P>) {
    && before.cursor <= after.cursor && before.delivered <= after.delivered
    && (forall i :: |before.delivered| <= i < |after.delivered| ==> before.cursor < after.delivered[i].id)
  }

  lemma DispatchInOrder<P>(p: Platform<P>, d: Draft, client: Client<P>, start: nat)
    requires InOrder(start, client)
    ensures InOrder(start, Dispatch(p, d, client)) && Extends(client, Dispatch(p, d, client))
  {
  }

  lemma {:induction false} RunInOrder<P>(p: Platform<P>, s: State<P>, text: string, start: nat)
    requires InOrder(start, s.client)
    ensures InOrder(start, Run(p, s, text).client) && Extends(s.client, Run(p, s, text).client)
    decreases |text|
  {
    if text != "" {
      DispatchInOrder(p, s.draft, s.client, start);
      hide Dispatch, Collect, WithoutCr, InOrder;
      RunInOrder(p, Step(p, s, text[0]), text[1..], start);
    }
  }

  /** One turn of the reconnect loop: the request fails, or a response is read in some chunks and
      then ends, or is broken off by a read that throws. */
  datatype Attempt = Refused | Served(chunks: seq<string>, broken: bool)

  function Connect<P>(p: Platform<P>, cap: nat, client: Client<P>, attempt: Attempt): Pair<Client<P>, bool> {
    match attempt
    case Refused => Pair(Complain(client), true)
    case Served(chunks, broken) =>
      var r := Receive(p, cap, Connected(client), chunks);
      if r.second || broken then Pair(Complain(r.first.client), true) else Pair(r.first.client, false)
  }

  function ConnectAll<P>(p: Platform<P>, cap: nat, client: Client<P>, attempts: seq<Attempt>): Client<P>
    decreases |attempts|
  {
    if attempts == [] then client else ConnectAll(p, cap, Connect(p, cap, client, attempts[0]).first, attempts[1..])
  }

  lemma ConnectInOrder<P>(p: Platform<P>, cap: nat, client: Client<P>, attempt: Attempt, start: nat)
    requires InOrder(start, client)
    ensures InOrder(start, Connect(p, cap, client, attempt).first)
    ensures Extends(client, Connect(p, cap, client, attempt).first)
  {
    if attempt.Served? {
      var n := ReceivesAPrefix(p, cap, Connected(client), attempt.chunks);
      RunInOrder(p, Connected(client), Concat(attempt.chunks)[..n], start);
    }
  }

  /** For arbitrary bytes on any number of connections the delivered ids are strictly increasing,
      and nothing delivered is ever withdrawn. */
  lemma {:induction false} DeliveredStrictlyIncreasing<P>(p: Platform<P>, cap: nat, client: Client<P>,
      attempts: seq<Attempt>, start: nat)
    requires InOrder(start, client)
    ensures InOrder(start, ConnectAll(p, cap, client, attempts))
    ensures Extends(client, ConnectAll(p, cap, client, attempts))
    decreases |attempts|
  {
    if attempts != [] {
      ConnectInOrder(p, cap, client, attempts[0], start);
      hide Connect, InOrder;
      DeliveredStrictlyIncreasing(p, cap, Connect(p, cap, client, attempts[0]).first, attempts[1..], start);
    }
  }

  // ------------------------------------------------------------------- what a server says

  datatype Entry<P> = Entry(id: nat, name: string, text: string, payload: P)

  /** A server sends journal entries by index, heartbeats with or without an id, and comments. */
  datatype Item = Event(k: nat) | Heartbeat(id: Option<nat>) | Comment(text: string)

  predicate OneLine(s: string) {
    '\n' !in s && (s == "" || Last(s) != '\r')
  }

  /** The platform reads back what the server prints. */
  ghost predicate Readable<P>(p: Platform<P>) {
    && (forall n: nat :: OneLine(p.show(n)) && p.number(p.trim(" " + p.show(n))) == Some(n))
    && p.trim(" " + HEARTBEAT) == HEARTBEAT
    && p.json("{}").Object? && p.json("{}").event == None
  }

  function Ones(n: nat): string {
    seq(n, _ => '1')
  }

  /** Such a platform exists, here with numbers printed in unary. */
  lemma ReadableExists() returns (p: Platform<int>)
    ensures Readable(p)
  {
    p := Platform(s => if s != "" && s[0] == ' ' then s[1..] else s, s => Some(|s|), _ => Object(None, 0), Ones);
    forall n: nat ensures OneLine(p.show(n)) && p.number(p.trim(" " + p.show(n))) == Some(n) {
      assert (" " + Ones(n))[1..] == Ones(n);
    }
    assert (" " + HEARTBEAT)[1..] == HEARTBEAT;
  }

  ghost predicate ReadableEntry<P>(p: Platform<P>, e: Entry<P>) {
    && OneLine(e.name) && OneLine(e.text) && e.name != HEARTBEAT
    && p.trim(" " + e.name) == e.name
    && p.json(e.text).Object? && p.json(e.text).payload == e.payload
    && (p.json(e.text).event == None || p.json(e.text).event == Some(e.name))
  }

  ghost predicate Journal<P>(p: Platform<P>, j: seq<Entry<P>>) {
    && (forall i :: 0 <= i < |j| ==> ReadableEntry(p, j[i]))
    && (forall i, k :: 0 <= i < k < |j| ==> j[i].id < j[k].id)
  }

  predicate Sayable<P>(j: seq<Entry<P>>, item: Item) {
    (item.Event? ==> item.k < |j|) && (item.Comment? ==> OneLine(item.text))
  }

  function Lines<P>(p: Platform<P>, j: seq<Entry<P>>, item: Item): seq<string>
    requires Sayable(j, item)
  {
    match item
    case Event(k) => ["event: " + j[k].name, "id: " + p.show(j[k].id), "data: " + j[k].text]
    case Heartbeat(None) => ["event: " + HEARTBEAT, "data: " + "{}"]
    case Heartbeat(Some(h)) => ["event: " + HEARTBEAT, "id: " + p.show(h), "data: " + "{}"]
    case Comment(text) => [":" + text]
  }

  function BlockText(lines: seq<string>): string {
    if lines == [] then "\n" else lines[0] + "\n" + BlockText(lines[1..])
  }

  function Said<P>(p: Platform<P>, j: seq<Entry<P>>, items: seq<Item>): string
    requires forall i :: 0 <= i < |items| ==> Sayable(j, items[i])
  {
    if items == [] then "" else BlockText(Lines(p, j, items[0])) + Said(p, j, items[1..])
  }

  /** What one item does to the client. */
  function Apply<P>(j: seq<Entry<P>>, item: Item, client: Client<P>): Client<P>
    requires Sayable(j, item)
  {
    match item
    case Event(k) =>
      if j[k].id <= client.cursor then client
      else Client(j[k].id, client.delivered + [Frame(j[k].id, j[k].name, j[k].payload)], client.errors)
    case Heartbeat(None) => client
    case Heartbeat(Some(h)) => if h > client.cursor then client.(cursor := h) else client
    case Comment(_) => client
  }

  function ApplyAll<P>(j: seq<Entry<P>>, items: seq<Item>, client: Client<P>): Client<P>
    requires forall i :: 0 <= i < |items| ==> Sayable(j, items[i])
    decreases |items|
  {
    if items == [] then client else ApplyAll(j, items[1..], Apply(j, items[0], client))
  }

  // ------------------------------------------------- a block is dispatched whole or not at all

  ghost predicate Field(line: string) {
    line != "" && '\n' !in line && Last(line) != '\r'
  }

  function CollectAll<P>(p: Platform<P>, d: Draft, lines: seq<string>): Draft
    decreases |lines|
  {
    if lines == [] then d else CollectAll(p, Collect(p, d, lines[0]), lines[1..])
  }

  lemma EndField<P>(p: Platform<P>, s: State<P>)
    requires Field(s.buffer)
    ensures EndLine(p, s) == State("", Collect(p, s.draft, s.buffer), s.client)
  {
  }

  lemma {:induction false} BlockCut<P>(p: Platform<P>, lines: seq<string>, d: Draft, client: Client<P>, n: nat)
    requires (forall i :: 0 <= i < |lines| ==> Field(lines[i])) && n <= |BlockText(lines)|
    ensures var s := Run(p, State("", d, client), BlockText(lines)[..n]);
            if n == |BlockText(lines)| then s == Connected(Dispatch(p, CollectAll(p, d, lines), client))
            else s.client == client
    decreases |lines|
  {
    var s := State("", d, client);
    hide Dispatch, Collect;
    if lines == [] {
      assert "\n"[..1] == "\n" && "\n"[1..] == "";
    } else {
      var line, rest := lines[0], BlockText(lines[1..]);
      if n <= |line| {
        assert BlockText(lines)[..n] == line[..n];
        RunWithinLine(p, s, line[..n]);
      } else {
        var m := n - |line| - 1;
        assert BlockText(lines)[..n] == line + "\n" + rest[..m];
        RunLine(p, s, line, rest[..m]);
        EndField(p, s.(buffer := line));
        BlockCut(p, lines[1..], Collect(p, d, line), client, m);
      }
    }
  }

  lemma PrefixedField(prefix: string, s: string)
    requires '\n' !in prefix && prefix != "" && Last(prefix) != '\r' && OneLine(s)
    ensures Field(prefix + s)
  {
    if s != "" { assert Last(prefix + s) == Last(s); } else { assert prefix + s == prefix; }
  }

  lemma CollectName<P>(p: Platform<P>, d: Draft, s: string)
    ensures Collect(p, d, "event: " + s) == d.(name := Some(p.trim(" " + s)))
  {
    assert ("event: " + s)[6..] == " " + s;
    assert "event:" <= "event: " + s && ("event: " + s)[0] == 'e';
  }

  lemma CollectId<P>(p: Platform<P>, d: Draft, n: nat)
    requires Readable(p)
    ensures Collect(p, d, "id: " + p.show(n)) == d.(id := Some(n))
  {
    assert ("id: " + p.show(n))[3..] == " " + p.show(n);
    assert "id:" <= "id: " + p.show(n) && ("id: " + p.show(n))[0] == 'i';
  }

  lemma CollectData<P>(p: Platform<P>, d: Draft, s: string)
    ensures Collect(p, d, "data: " + s) == d.(data := d.data + [s])
  {
    assert ("data: " + s)[5..] == " " + s && (" " + s)[1..] == s;
    assert "data:" <= "data: " + s && ("data: " + s)[0] == 'd';
  }

  lemma CollectThree<P>(p: Platform<P>, name: string, n: nat, text: string)
    requires Readable(p) && p.trim(" " + name) == name
    ensures CollectAll(p, EMPTY, ["event: " + name, "id: " + p.show(n), "data: " + text]) == Draft(Some(name), Some(n), [text])
  {
    var l0, l1, l2 := "event: " + name, "id: " + p.show(n), "data: " + text;
    CollectName(p, EMPTY, name);
    CollectId(p, Draft(Some(name), None, []), n);
    CollectData(p, Draft(Some(name), Some(n), []), text);
    hide Collect;
    assert [l0, l1, l2][1..] == [l1, l2] && [l1, l2][1..] == [l2];
    CollectOne(p, Draft(Some(name), Some(n), []), l2);
  }

  lemma CollectTwo<P>(p: Platform<P>, name: string, text: string)
    requires p.trim(" " + name) == name
    ensures CollectAll(p, EMPTY, ["event: " + name, "data: " + text]) == Draft(Some(name), None, [text])
  {
    var l0, l1 := "event: " + name, "data: " + text;
    CollectName(p, EMPTY, name);
    CollectData(p, Draft(Some(name), None, []), text);
    hide Collect;
    assert [l0, l1][1..] == [l1];
    CollectOne(p, Draft(Some(name), None, []), l1);
  }

  lemma CollectOne<P>(p: Platform<P>, d: Draft, line: string)
    ensures CollectAll(p, d, [line]) == Collect(p, d, line)
  {
    hide Collect;
    var none: seq<string> := [];
    assert [line][1..] == none;
    assert CollectAll(p, Collect(p, d, line), none) == Collect(p, d, line);
  }

  /** An item that arrives whole does to the client exactly what it says, and a part of it
      does nothing. */
  lemma ItemCut<P>(p: Platform<P>, j: seq<Entry<P>>, item: Item, client: Client<P>, n: nat)
    requires Readable(p) && Journal(p, j)
    requires Sayable(j, item)
    requires n <= |BlockText(Lines(p, j, item))|
    ensures var s := Run(p, Connected(client), BlockText(Lines(p, j, item))[..n]);
            if n == |BlockText(Lines(p, j, item))| then s == Connected(Apply(j, item, client)) else s.client == client
  {
    var lines := Lines(p, j, item);
    ItemFields(p, j, item);
    ItemMeans(p, j, item, client);
    hide *;
    BlockCut(p, lines, EMPTY, client, n);
  }

  lemma ItemFields<P>(p: Platform<P>, j: seq<Entry<P>>, item: Item)
    requires Readable(p) && Journal(p, j)
    requires Sayable(j, item)
    ensures forall i :: 0 <= i < |Lines(p, j, item)| ==> Field(Lines(p, j, item)[i])
  {
    hide Field;
    match item
    case Event(k) =>
      PrefixedField("event: ", j[k].name);
      PrefixedField("id: ", p.show(j[k].id));
      PrefixedField("data: ", j[k].text);
    case Heartbeat(id) =>
      PrefixedField("event: ", HEARTBEAT);
      PrefixedField("data: ", "{}");
      match id {
        case None =>
        case Some(h) => PrefixedField("id: ", p.show(h));
      }
    case Comment(text) =>
      PrefixedField(":", text);
  }

  lemma ItemMeans<P>(p: Platform<P>, j: seq<Entry<P>>, item: Item, client: Client<P>)
    requires Readable(p) && Journal(p, j)
    requires Sayable(j, item)
    ensures Dispatch(p, CollectAll(p, EMPTY, Lines(p, j, item)), client) == Apply(j, item, client)
  {
    match item
    case Event(k) =>
      CollectThree(p, j[k].name, j[k].id, j[k].text);
    case Heartbeat(None) =>
      CollectTwo(p, HEARTBEAT, "{}");
      assert Join(["{}"]) == "{}";
    case Heartbeat(Some(h)) =>
      CollectThree(p, HEARTBEAT, h, "{}");
      assert Join(["{}"]) == "{}";
    case Comment(text) =>
      CollectOne(p, EMPTY, ":" + text);
  }

  // ------------------------------------------------------------- exactly once, in order

  /** The server replays the journal from index `q` on, in order and without gaps. A heartbeat
      id stays below the next journal id to be sent. */
  ghost predicate Serves<P>(j: seq<Entry<P>>, q: nat, items: seq<Item>)
    ensures Serves(j, q, items) ==> forall i :: 0 <= i < |items| ==> Sayable(j, items[i])
    decreases |items|
  {
    if items == [] then true
    else
      Sayable(j, items[0]) && Serves(j, NextToSend(q, items[0]), items[1..]) &&
      match items[0]
      case Event(k) => k == q
      case Heartbeat(Some(h)) => q < |j| ==> h < j[q].id
      case _ => true
  }

  function NextToSend(q: nat, item: Item): nat {
    if item.Event? then q + 1 else q
  }

  function SentUpTo(q: nat, items: seq<Item>): nat
    decreases |items|
  {
    if items == [] then q else SentUpTo(NextToSend(q, items[0]), items[1..])
  }

  /** The number of journal entries at or behind a cursor. */
  function Behind<P>(j: seq<Entry<P>>, cursor: nat): (n: nat)
    ensures n <= |j|
  {
    if j == [] then 0 else if Last(j).id <= cursor then |j| else Behind(Front(j), cursor)
  }

  ghost predicate Increasing<P>(j: seq<Entry<P>>) {
    forall i, k :: 0 <= i < k < |j| ==> j[i].id < j[k].id
  }

  lemma {:induction false} BehindSplits<P>(j: seq<Entry<P>>, cursor: nat)
    requires Increasing(j)
    ensures forall i :: 0 <= i < |j| ==> (j[i].id <= cursor <==> i < Behind(j, cursor))
    decreases |j|
  {
    if j != [] && Last(j).id > cursor {
      BehindSplits(Front(j), cursor);
    }
  }

  function Frames<P>(entries: seq<Entry<P>>): seq<Frame<P>> {
    if entries == [] then [] else Frames(Front(entries)) + [Frame(Last(entries).id, Last(entries).name, Last(entries).payload)]
  }

  /** Exactly the journal between the initial and the current cursor, once each and in order. */
  ghost predicate ExactlyOnce<P>(j: seq<Entry<P>>, start: nat, client: Client<P>) {
    && Behind(j, start) <= Behind(j, client.cursor)
    && client.delivered == Frames(j[Behind(j, start)..Behind(j, client.cursor)])
  }

  lemma {:induction false} NextIs<P>(j: seq<Entry<P>>, cursor: nat, q: nat)
    requires Increasing(j) && q <= |j| && (q > 0 ==> j[q - 1].id <= cursor) && (q < |j| ==> cursor < j[q].id)
    ensures Behind(j, cursor) == q
  {
    BehindSplits(j, cursor);
  }

  lemma {:induction false} ApplyEventExactly<P>(j: seq<Entry<P>>, q: nat, client: Client<P>, start: nat)
    requires Increasing(j) && ExactlyOnce(j, start, client) && q <= Behind(j, client.cursor) && q < |j|
    ensures ExactlyOnce(j, start, Apply(j, Event(q), client))
    ensures q + 1 <= Behind(j, Apply(j, Event(q), client).cursor)
  {
    BehindSplits(j, client.cursor);
    if j[q].id > client.cursor {
      assert Behind(j, client.cursor) == q;
      NextIs(j, j[q].id, q + 1);
      var from, sent := Behind(j, start), j[Behind(j, start)..q + 1];
      assert sent == j[from..q] + [j[q]];
      assert Front(sent) == j[from..q];
    }
  }

  lemma {:induction false} ApplyHeartbeatExactly<P>(j: seq<Entry<P>>, q: nat, h: nat, client: Client<P>, start: nat)
    requires Increasing(j) && ExactlyOnce(j, start, client) && q <= Behind(j, client.cursor) && (q < |j| ==> h < j[q].id)
    ensures ExactlyOnce(j, start, Apply(j, Heartbeat(Some(h)), client))
    ensures q <= Behind(j, Apply(j, Heartbeat(Some(h)), client).cursor)
  {
    BehindSplits(j, client.cursor);
    if h > client.cursor { NextIs(j, h, Behind(j, client.cursor)); }
  }

  lemma {:induction false} ApplyExactly<P>(j: seq<Entry<P>>, q: nat, items: seq<Item>, client: Client<P>, start: nat)
    requires Increasing(j) && items != [] && Serves(j, q, items) && ExactlyOnce(j, start, client) && q <= Behind(j, client.cursor)
    ensures ExactlyOnce(j, start, Apply(j, items[0], client))
    ensures NextToSend(q, items[0]) <= Behind(j, Apply(j, items[0], client).cursor)
  {
    hide ExactlyOnce, Behind, Increasing;
    match items[0]
    case Event(_) => ApplyEventExactly(j, q, client, start);
    case Heartbeat(Some(h)) => ApplyHeartbeatExactly(j, q, h, client, start);
    case _ =>
  }

  lemma {:induction false} ApplyAllExactly<P>(j: seq<Entry<P>>, q: nat, items: seq<Item>, client: Client<P>, start: nat)
    requires Increasing(j) && Serves(j, q, items) && ExactlyOnce(j, start, client) && q <= Behind(j, client.cursor)
    ensures ExactlyOnce(j, start, ApplyAll(j, items, client))
    ensures SentUpTo(q, items) <= Behind(j, ApplyAll(j, items, client).cursor)
    decreases |items|
  {
    if items != [] {
      ApplyExactly(j, q, items, client, start);
      hide ExactlyOnce, Apply, Increasing;
      ApplyAllExactly(j, NextToSend(q, items[0]), items[1..], Apply(j, items[0], client), start);
    }
  }

  lemma {:induction false} ServesPrefix<P>(j: seq<Entry<P>>, q: nat, items: seq<Item>, m: nat)
    requires Serves(j, q, items) && m <= |items|
    ensures Serves(j, q, items[..m])
    decreases |items|
  {
    if m > 0 {
      assert items[..m][1..] == items[1..][..m - 1];
      ServesPrefix(j, NextToSend(q, items[0]), items[1..], m - 1);
    }
  }

  /** Wherever the connection breaks, the client has acted on a whole number of items. */
  lemma {:induction false} SaidCut<P>(p: Platform<P>, j: seq<Entry<P>>, items: seq<Item>, client: Client<P>,
      n: nat) returns (m: nat)
    requires Readable(p) && Journal(p, j) && (forall i :: 0 <= i < |items| ==> Sayable(j, items[i]))
    requires n <= |Said(p, j, items)|
    ensures m <= |items| && (n == |Said(p, j, items)| ==> m == |items|)
    ensures Run(p, Connected(client), Said(p, j, items)[..n]).client == ApplyAll(j, items[..m], client)
    decreases |items|
  {
    m := 0;
    hide Run, Readable, Journal, Lines, Apply, BlockText, Connected;
    if items == [] {
      assert Run(p, Connected(client), "").client == client by { RunNothing(p, client); }
    } else {
      assert Sayable(j, items[0]);
      var block, rest := BlockText(Lines(p, j, items[0])), Said(p, j, items[1..]);
      if n < |block| {
        assert Said(p, j, items)[..n] == block[..n];
        ItemCut(p, j, items[0], client, n);
      } else {
        var next := Apply(j, items[0], client);
        assert Said(p, j, items)[..n] == block + rest[..n - |block|] && block[..|block|] == block;
        ItemCut(p, j, items[0], client, |block|);
        RunSplit(p, Connected(client), block, rest[..n - |block|]);
        var k := SaidCut(p, j, items[1..], next, n - |block|);
        m := k + 1;
        assert items[..m][1..] == items[1..][..k];
      }
    }
  }

  lemma RunNothing<P>(p: Platform<P>, client: Client<P>)
    ensures Run(p, Connected(client), "").client == client
  {
  }

  /** A request is refused, or some part of what an honest server says after the requested
      cursor arrives. */
  ghost predicate Honest<P>(p: Platform<P>, j: seq<Entry<P>>, cursor: nat, attempt: Attempt) {
    attempt.Served? ==> exists q: nat, items, n: nat :: HeardFrom(p, j, cursor, attempt.chunks, q, items, n)
  }

  ghost predicate HeardFrom<P>(p: Platform<P>, j: seq<Entry<P>>, cursor: nat, chunks: seq<string>, q: nat,
      items: seq<Item>, n: nat) {
    && q <= Behind(j, cursor) && Serves(j, q, items)
    && n <= |Said(p, j, items)| && Concat(chunks) == Said(p, j, items)[..n]
  }

  ghost predicate AllHonest<P>(p: Platform<P>, j: seq<Entry<P>>, cap: nat, client: Client<P>, attempts: seq<Attempt>)
    decreases |attempts|
  {
    attempts == [] ||
    (Honest(p, j, client.cursor, attempts[0]) && AllHonest(p, j, cap, Connect(p, cap, client, attempts[0]).first, attempts[1..]))
  }

  lemma ErrorsDoNotMatter<P>(j: seq<Entry<P>>, start: nat, client: Client<P>)
    ensures ExactlyOnce(j, start, client) ==> ExactlyOnce(j, start, Complain(client))
  {
  }

  lemma HeardExactly<P>(p: Platform<P>, j: seq<Entry<P>>, cap: nat, client: Client<P>, chunks: seq<string>,
                        broken: bool, start: nat, q: nat, items: seq<Item>, n: nat)
    requires Readable(p) && Journal(p, j) && ExactlyOnce(j, start, client) && HeardFrom(p, j, client.cursor, chunks, q, items, n)
    ensures var r := Connect(p, cap, client, Served(chunks, broken));
            && ExactlyOnce(j, start, r.first)
            && (!Receive(p, cap, Connected(client), chunks).second && n == |Said(p, j, items)| ==>
                  SentUpTo(q, items) <= Behind(j, r.first.cursor))
  {
    var text := Said(p, j, items);
    assert Increasing(j);
    hide Readable, Journal, ExactlyOnce, Increasing, ReadableEntry;
    var k := ReceivesAPrefix(p, cap, Connected(client), chunks);
    assert Concat(chunks)[..k] == text[..k];
    hide Run, Receive, Said;
    var m := SaidCut(p, j, items, client, k);
    ServesPrefix(j, q, items, m);
    ApplyAllExactly(j, q, items[..m], client, start);
    assert items[..|items|] == items;
    ErrorsDoNotMatter(j, start, ApplyAll(j, items[..m], client));
  }

  /** Across any number of disconnects at any point the delivered events are exactly the journal
      between the initial and the current cursor, once each and in order. */
  lemma {:induction false} ResumeDeliversExactlyOnce<P>(p: Platform<P>, j: seq<Entry<P>>, cap: nat, client: Client<P>,
                                                        attempts: seq<Attempt>, start: nat)
    requires Readable(p) && Journal(p, j) && ExactlyOnce(j, start, client) && AllHonest(p, j, cap, client, attempts)
    ensures ExactlyOnce(j, start, ConnectAll(p, cap, client, attempts))
    decreases |attempts|
  {
    if attempts != [] {
      var next := Connect(p, cap, client, attempts[0]).first;
      match attempts[0] {
        case Refused => ErrorsDoNotMatter(j, start, client);
        case Served(chunks, broken) =>
          var q: nat, items, n: nat :| HeardFrom(p, j, client.cursor, chunks, q, items, n);
          HeardExactly(p, j, cap, client, chunks, broken, start, q, items, n);
      }
      hide Readable, Journal, ExactlyOnce, Connect, Honest;
      ResumeDeliversExactlyOnce(p, j, cap, next, attempts[1..], start);
    }
  }

  /** Nothing is skipped: once one connection carries the journal to its end, everything after
      the initial cursor has been delivered. */
  lemma CatchesUp<P>(p: Platform<P>, j: seq<Entry<P>>, cap: nat, client: Client<P>, chunks: seq<string>,
                     broken: bool, start: nat, q: nat, items: seq<Item>)
    requires Readable(p) && Journal(p, j) && ExactlyOnce(j, start, client)
    requires Serves(j, q, items) && SentUpTo(q, items) == |j|
    requires HeardFrom(p, j, client.cursor, chunks, q, items, |Said(p, j, items)|)
    requires !Receive(p, cap, Connected(client), chunks).second
    ensures Connect(p, cap, client, Served(chunks, broken)).first.delivered == Frames(j[Behind(j, start)..])
  {
    HeardExactly(p, j, cap, client, chunks, broken, start, q, items, |Said(p, j, items)|);
    assert j[Behind(j, start)..|j|] == j[Behind(j, start)..];
  }

  /** The condition on heartbeats is the exact one: a heartbeat that names an id keeps delivery
      exact if and only if that id is below the next journal id. */
  lemma {:induction false} HeartbeatIsSafeExactly<P>(j: seq<Entry<P>>, start: nat, client: Client<P>, h: nat)
    requires Increasing(j) && ExactlyOnce(j, start, client) && Behind(j, client.cursor) < |j|
    ensures ExactlyOnce(j, start, Apply(j, Heartbeat(Some(h)), client)) <==> h < j[Behind(j, client.cursor)].id
  {
    var next := Behind(j, client.cursor);
    BehindSplits(j, client.cursor);
    if h < j[next].id {
      ApplyHeartbeatExactly(j, next, h, client, start);
    } else {
      BehindSplits(j, h);
      assert Behind(j, h) > next;
      FramesLength(j[Behind(j, start)..next]);
      FramesLength(j[Behind(j, start)..Behind(j, h)]);
    }
  }

  lemma {:induction false} FramesLength<P>(entries: seq<Entry<P>>)
    ensures |Frames(entries)| == |entries|
  {
    if entries != [] { FramesLength(Front(entries)); }
  }

  /** And an entry that the cursor has jumped over is lost for good, whatever arrives later. */
  lemma PassedEntriesAreLost<P>(p: Platform<P>, cap: nat, client: Client<P>, attempts: seq<Attempt>,
      start: nat, lost: nat)
    requires InOrder(start, client) && lost <= client.cursor
    requires forall i :: 0 <= i < |client.delivered| ==> client.delivered[i].id != lost
    ensures var after := ConnectAll(p, cap, client, attempts);
            forall i :: 0 <= i < |after.delivered| ==> after.delivered[i].id != lost
  {
    DeliveredStrictlyIncreasing(p, cap, client, attempts, start);
  }

  // --------------------------------------------------------------------------- the client

  function NewlineIn(s: string, i: nat): (r: Option<nat>)
    requires i <= |s|
    ensures match r case Some(k) => i <= k < |s| && s[k] == '\n' && '\n' !in s[i..k] case None => '\n' !in s[i..]
    decreases |s| - i
  {
    if i == |s| then None
    else if s[i] == '\n' then Some(i)
    else
      assert s[i..] == [s[i]] + s[i + 1..];
      assert forall k :: i < k <= |s| ==> s[i..k] == [s[i]] + s[i + 1..k];
      NewlineIn(s, i + 1)
  }

  function Power2(n: nat): nat {
    if n == 0 then 1 else 2 * Power2(n - 1)
  }

  /** Which attempts fail. */
  function Failures<P>(p: Platform<P>, cap: nat, client: Client<P>, attempts: seq<Attempt>): seq<bool>
    decreases |attempts|
  {
    if attempts == [] then []
    else
      var r := Connect(p, cap, client, attempts[0]);
      [r.second] + Failures(p, cap, r.first, attempts[1..])
  }

  /** How many of the latest attempts in a row failed. */
  function Streak(fails: seq<bool>): nat {
    if fails == [] || !Last(fails) then 0 else Streak(Front(fails)) + 1
  }

  /** How often the wait has been doubled after these attempts: once for each failure in the present
      streak, except for the first one if there has been no clean end yet. */
  function Doublings(fails: seq<bool>): nat {
    if false in fails || Streak(fails) == 0 then Streak(fails) else Streak(fails) - 1
  }

  /** The wait after these attempts, without the jitter. */
  function Wait(minBackoff: nat, maxBackoff: nat, fails: seq<bool>): nat {
    AtMost(maxBackoff, minBackoff * Power2(AtMost(16, Doublings(fails))))
  }

  /** The waits after each of these attempts. */
  function Waits(minBackoff: nat, maxBackoff: nat, fails: seq<bool>): seq<nat> {
    if fails == [] then [] else Waits(minBackoff, maxBackoff, Front(fails)) + [Wait(minBackoff, maxBackoff, fails)]
  }

  lemma {:induction false} WaitsAt(minBackoff: nat, maxBackoff: nat, fails: seq<bool>, k: nat)
    requires k < |fails|
    ensures |Waits(minBackoff, maxBackoff, fails)| == |fails|
    ensures Waits(minBackoff, maxBackoff, fails)[k] == Wait(minBackoff, maxBackoff, fails[..k + 1])
  {
    hide Wait;
    if k < |fails| - 1 {
      WaitsAt(minBackoff, maxBackoff, Front(fails), k);
      assert Front(fails)[..k + 1] == fails[..k + 1];
    } else {
      if k > 0 { WaitsAt(minBackoff, maxBackoff, Front(fails), k - 1); }
      assert fails[..k + 1] == fails;
    }
  }

  function AtMost(bound: nat, n: nat): nat {
    if n < bound then n else bound
  }

  lemma StreakMore(fails: seq<bool>, failed: bool)
    ensures Streak(fails + [failed]) == if failed then Streak(fails) + 1 else 0
    ensures false in fails + [failed] <==> false in fails || !failed
  {
    assert Front(fails + [failed]) == fails && Last(fails + [failed]) == failed;
  }

  /** Waiting starts at the base and starts over there after every clean end, and doubles with every
      further failure, up to the bound; after sixteen doublings it stays. */
  lemma WaitsDouble(minBackoff: nat, maxBackoff: nat, fails: seq<bool>, failed: bool)
    ensures var wait, next := Wait(minBackoff, maxBackoff, fails), Wait(minBackoff, maxBackoff, fails + [failed]);
            && (fails == [] || !failed ==> next == AtMost(maxBackoff, minBackoff))
            && (fails != [] && failed ==>
                  next == if Doublings(fails) < 16 then AtMost(maxBackoff, 2 * wait) else wait)
  {
    assert AtMost(16, 0) == 0 && Power2(0) == 1 && minBackoff * 1 == minBackoff;
    var d := Doublings(fails);
    hide *;
    DoublingsMore(fails, failed);
    WaitUnfolds(minBackoff, maxBackoff, fails);
    WaitUnfolds(minBackoff, maxBackoff, fails + [failed]);
    if fails != [] && failed { DoubledOnce(minBackoff, maxBackoff, d); }
  }

  lemma WaitUnfolds(minBackoff: nat, maxBackoff: nat, fails: seq<bool>)
    ensures Wait(minBackoff, maxBackoff, fails) == AtMost(maxBackoff, minBackoff * Power2(AtMost(16, Doublings(fails))))
  {
  }

  lemma DoubledOnce(minBackoff: nat, maxBackoff: nat, d: nat)
    ensures AtMost(maxBackoff, minBackoff * Power2(AtMost(16, d + 1)))
         == if d < 16 then AtMost(maxBackoff, 2 * AtMost(maxBackoff, minBackoff * Power2(AtMost(16, d))))
            else AtMost(maxBackoff, minBackoff * Power2(AtMost(16, d)))
  {
    if d < 16 {
      var power := Power2(d);
      assert Power2(d + 1) == 2 * power;
      hide Power2;
      Reassociate(minBackoff, power);
      CapTwice(maxBackoff, minBackoff * power);
    }
  }

  lemma Reassociate(a: nat, b: nat)
    ensures a * (2 * b) == 2 * (a * b)
  {
  }

  lemma CapTwice(bound: nat, n: nat)
    ensures AtMost(bound, 2 * n) == AtMost(bound, 2 * AtMost(bound, n))
  {
  }

  lemma {:induction false} FailedAlways(fails: seq<bool>)
    requires fails != []
    ensures false !in fails ==> Streak(fails) >= 1
  {
    assert Last(fails) in fails;
  }

  class EventStream<!P> {
    const platform: Platform<P>
    const maxFrameBytes: nat
    const minBackoff: nat
    const maxBackoff: nat
    var cursorValue: nat
    var delivered: seq<Frame<P>>
    var errors: nat

    constructor (platform: Platform<P>, cursor: nat, maxFrameBytes: nat, minBackoff: nat, maxBackoff: nat)
      ensures View() == Client(cursor, [], 0)
      ensures this.platform == platform && this.maxFrameBytes == maxFrameBytes
    {
      this.platform, this.maxFrameBytes := platform, maxFrameBytes;
      this.minBackoff, this.maxBackoff := minBackoff, maxBackoff;
      cursorValue, delivered, errors := cursor, [], 0;
    }

    ghost function View(): Client<P>
      reads this
    {
      Client(cursorValue, delivered, errors)
    }

    method SetCursor(cursor: int)
      modifies this`cursorValue
      ensures cursorValue == if cursor >= 0 then cursor else old(cursorValue)
    {
      if cursor >= 0 { cursorValue := cursor; }
    }

    method DispatchFrame(name: Option<string>, id: Option<nat>, data: seq<string>)
      modifies this
      ensures View() == Dispatch(platform, Draft(name, id, data), old(View()))
    {
      if data == [] { return; }
      match platform.json(Join(data)) {
        case NotJson => errors := errors + 1;
        case NotObject => errors := errors + 1;
        case Object(declared, payload) =>
          var tagged := if declared.Some? then declared else name;
          if tagged.None? {
            errors := errors + 1;
          } else if declared.Some? && name.Some? && name != declared {
            errors := errors + 1;
          } else if tagged.value == HEARTBEAT {
            if id.Some? { cursorValue := if id.value > cursorValue then id.value else cursorValue; }
          } else if id.None? {
            errors := errors + 1;
          } else if id.value > cursorValue {
            cursorValue := id.value;
            delivered := delivered + [Frame(id.value, tagged.value, payload)];
          }
      }
    }

    /** Pump one response until it ends; the buffered line splitter refines the reading of the
        text one character at a time. */
    method ConnectOnce(chunks: seq<string>, broken: bool) returns (failed: bool)
      modifies this
      ensures Receive(platform, maxFrameBytes, Connected(old(View())), chunks).first.client == View()
      ensures Receive(platform, maxFrameBytes, Connected(old(View())), chunks).second || broken <==> failed
    {
      var buffer := "";
      var name: Option<string>, id: Option<nat>, data: seq<string> := None, None, [];
      hide Run, EndLine;
      for k := 0 to |chunks|
        invariant '\n' !in buffer
        invariant Receive(platform, maxFrameBytes, State(buffer, Draft(name, id, data), View()), chunks[k..])
               == Receive(platform, maxFrameBytes, Connected(old(View())), chunks)
      {
        ghost var before := State(buffer, Draft(name, id, data), View());
        ghost var empty := before.(buffer := "");
        assert chunks[k..][1..] == chunks[k + 1..] && "" + buffer == buffer;
        RunSplit(platform, empty, buffer, chunks[k]);
        RunWithinLine(platform, empty, buffer);
        buffer := buffer + chunks[k];
        var newline := NewlineIn(buffer, 0);
        while newline.Some?
          invariant newline == NewlineIn(buffer, 0)
          invariant Run(platform, State("", Draft(name, id, data), View()), buffer) == Run(platform, before, chunks[k])
          decreases |buffer|
        {
          var rawLine := buffer[..newline.value];
          ghost var rest := buffer[newline.value + 1..];
          assert buffer == rawLine + "\n" + rest;
          RunLine(platform, State("", Draft(name, id, data), View()), rawLine, rest);
          EndLineEither(platform, State(rawLine, Draft(name, id, data), View()));
          buffer := buffer[newline.value + 1..];
          var line := WithoutCr(rawLine);
          if line == "" {
            DispatchFrame(name, id, data);
            name, id, data := None, None, [];
          } else if ":" <= line {
          } else if "event:" <= line {
            name := Some(platform.trim(line[6..]));
          } else if "id:" <= line {
            var parsed := platform.number(platform.trim(line[3..]));
            if parsed.Some? { id := parsed; }
          } else if "data:" <= line {
            data := data + [DropOneSpace(line[5..])];
          }
          newline := NewlineIn(buffer, 0);
        }
        assert buffer[0..] == buffer;
        RunWithinLine(platform, State("", Draft(name, id, data), View()), buffer);
        assert "" + buffer == buffer;
        if |buffer| > maxFrameBytes { return true; }
      }
      return broken;
    }

    /** The reconnect loop over a given list of attempts; the waits exclude the jitter. */
    method Loop(attempts: seq<Attempt>) returns (waits: seq<nat>)
      modifies this
      ensures View() == ConnectAll(platform, maxFrameBytes, old(View()), attempts)
      ensures var fails := Failures(platform, maxFrameBytes, old(View()), attempts);
              waits == if fails == [] then [] else Waits(minBackoff, maxBackoff, Front(fails))
    {
      waits := [];
      var attempt := 0;
      ghost var all, fails: seq<bool> := Failures(platform, maxFrameBytes, View(), attempts), [];
      assert Waits(minBackoff, maxBackoff, []) == [] && attempts[0..] == attempts && fails + all == all;
      hide *;
      for k := 0 to |attempts|
        invariant ConnectAll(platform, maxFrameBytes, View(), attempts[k..])
               == ConnectAll(platform, maxFrameBytes, old(View()), attempts)
        invariant |fails| == k && fails + Failures(platform, maxFrameBytes, View(), attempts[k..]) == all
        invariant if k == 0 then attempt == 0 else attempt == AtMost(20, Doublings(fails) + 1) && attempt > 0
        invariant waits == if k == 0 then [] else Waits(minBackoff, maxBackoff, Front(fails))
      {
        OneConnection(platform, maxFrameBytes, View(), attempts, k);
        if attempt > 0 {
          WaitIs(minBackoff, maxBackoff, fails, attempt);
          waits := waits + [AtMost(maxBackoff, minBackoff * Power2(AtMost(16, attempt - 1)))];
          assert waits == Waits(minBackoff, maxBackoff, fails);
        }
        var failed := TryConnect(attempts[k]);
        DoublingsMore(fails, failed);
        FrontOfMore(fails, failed, Failures(platform, maxFrameBytes, View(), attempts[k + 1..]));
        fails := fails + [failed];
        attempt := if failed then AtMost(20, attempt + 1) else 1;
      }
      NoConnection(platform, maxFrameBytes, View(), attempts);
      assert fails + [] == fails;
    }

    method TryConnect(attempt: Attempt) returns (failed: bool)
      modifies this
      ensures Pair(View(), failed) == Connect(platform, maxFrameBytes, old(View()), attempt)
    {
      hide Receive;
      failed := true;
      match attempt {
        case Refused =>
        case Served(chunks, broken) => failed := ConnectOnce(chunks, broken);
      }
      if failed { errors := errors + 1; }
    }
  }

  lemma OneConnection<P>(p: Platform<P>, cap: nat, client: Client<P>, attempts: seq<Attempt>, k: nat)
    requires k < |attempts|
    ensures var r := Connect(p, cap, client, attempts[k]);
            && ConnectAll(p, cap, client, attempts[k..]) == ConnectAll(p, cap, r.first, attempts[k + 1..])
            && Failures(p, cap, client, attempts[k..]) == [r.second] + Failures(p, cap, r.first, attempts[k + 1..])
  {
    assert attempts[k..][1..] == attempts[k + 1..];
    hide Connect;
  }

  lemma NoConnection<P>(p: Platform<P>, cap: nat, client: Client<P>, attempts: seq<Attempt>)
    ensures ConnectAll(p, cap, client, attempts[|attempts|..]) == client
    ensures Failures(p, cap, client, attempts[|attempts|..]) == []
  {
  }

  lemma FrontOfMore(fails: seq<bool>, failed: bool, more: seq<bool>)
    ensures fails + ([failed] + more) == (fails + [failed]) + more && Front(fails + [failed]) == fails
  {
  }

  lemma WaitIs(minBackoff: nat, maxBackoff: nat, fails: seq<bool>, attempt: nat)
    requires fails != [] && attempt == AtMost(20, Doublings(fails) + 1) && attempt > 0
    ensures Waits(minBackoff, maxBackoff, fails)
         == Waits(minBackoff, maxBackoff, Front(fails)) + [Wait(minBackoff, maxBackoff, fails)]
    ensures Wait(minBackoff, maxBackoff, fails)
         == AtMost(maxBackoff, minBackoff * Power2(AtMost(16, attempt - 1)))
  {
  }

  lemma DoublingsMore(fails: seq<bool>, failed: bool)
    ensures Doublings(fails + [failed]) == if failed && fails != [] then Doublings(fails) + 1 else 0
    ensures var doublings, next := Doublings(fails), Doublings(fails + [failed]);
            && (fails == [] || !failed ==> AtMost(20, next + 1) == 1 == AtMost(20, 0 + 1))
            && (fails != [] && failed ==> AtMost(20, next + 1) == AtMost(20, AtMost(20, doublings + 1) + 1) > 0)
  {
    StreakMore(fails, failed);
    if fails != [] { FailedAlways(fails); }
    hide Streak;
  }

  lemma EndLineEither<P>(p: Platform<P>, s: State<P>)
    ensures var line := WithoutCr(s.buffer);
            EndLine(p, s) == if line == "" then State("", EMPTY, Dispatch(p, s.draft, s.client))
                             else State("", Collect(p, s.draft, line), s.client)
  {
  }
}
