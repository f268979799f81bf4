/**
 The two incremental frame parsers and the loop around them: prefix behaviour and independence
 of how the stream is chopped into reads.
 */
module FrameCodec {
  import opened Prelude
  import opened Framing

  /** The JSON layer: `decode` parses one body, `stops` marks a `shutdown` message. */
  datatype Codec<!V> = Codec(decode: Bytes -> Option<V>, stops: V -> bool)

  datatype Parsed<V> =
    | NeedMore
    | Message(consumed: nat, value: V)
    | Blank(consumed: nat)
    | Recoverable(consumed: nat)
    | Fatal

  predicate AllSpace(s: Bytes) {
    forall i :: 0 <= i < |s| ==> IsSpace(s[i])
  }

  /** The line before the newline at `p`, without a final CR. */
  function LineBody(bytes: Bytes, p: nat): Bytes
    requires p <= |bytes|
  {
    if p > 0 && bytes[p - 1] == CR then bytes[..p - 1] else bytes[..p]
  }

  /** Parse the frame whose first terminator is at `p`. */
  function ParseAt<V>(mode: Mode, c: Codec<V>, bytes: Bytes, p: nat): Parsed<V>
    requires p + |Terminator(mode)| <= |bytes|
  {
    match mode
    case Ndjson =>
      var line := LineBody(bytes, p);
      if AllSpace(line) then Blank(p + 1)
      else (match c.decode(line) case None => Recoverable(p + 1) case Some(v) => Message(p + 1, v))
    case ContentLength =>
      var headerEnd := p + 4;
      match DeclaredLength(bytes[..headerEnd])
      case Malformed => Recoverable(headerEnd)
      case TooLarge => Fatal
      case Length(n) =>
        if |bytes| < headerEnd + n then NeedMore
        else match c.decode(bytes[headerEnd..headerEnd + n])
          case None => Recoverable(headerEnd + n)
          case Some(v) => Message(headerEnd + n, v)
  }

  function Parse<V>(mode: Mode, c: Codec<V>, bytes: Bytes): (r: Parsed<V>)
    ensures Consumes(r) ==> 1 <= r.consumed <= |bytes|
  {
    match Find(mode, bytes)
    case None => if |bytes| > Cap(mode) then Fatal else NeedMore
    case Some(p) => if p + |Terminator(mode)| <= |bytes| then ParseAt(mode, c, bytes, p) else NeedMore
  }

  lemma FindFits(mode: Mode, bytes: Bytes)
    ensures Find(mode, bytes).Some? ==> Find(mode, bytes).value + |Terminator(mode)| <= |bytes|
  {
    FindFromFirst(Terminator(mode), bytes, 0);
  }

  // ------------------------------------------------------------------------- the reader

  datatype Event<V> = Received(value: V) | ParseError

  /** The connection after some reads: what was seen, the bytes kept, and whether it goes on. */
  datatype Conn<V> = Conn(events: seq<Event<V>>, rest: Bytes, alive: bool)

  /** The parse consumed a frame. */
  predicate Consumes<V>(r: Parsed<V>) {
    r.Message? || r.Blank? || r.Recoverable?
  }

  predicate Ends<V>(c: Codec<V>, r: Parsed<V>) {
    r.Message? && c.stops(r.value)
  }

  /** What the serve loop sees of a parsed frame. */
  function Seen<V>(r: Parsed<V>): seq<Event<V>> {
    match r
    case Message(_, v) => [Received(v)]
    case Recoverable(_) => [ParseError]
    case Fatal => [ParseError]
    case _ => []
  }

  /** What `d` adds to a connection that has already seen `events`. */
  function Following<V>(events: seq<Event<V>>, d: Conn<V>): Conn<V> {
    d.(events := events + d.events)
  }

  /** The inner loop over one buffer: parse and consume until more bytes are needed. A fatal
      error and a `shutdown` message end the connection. */
  function Drain<V>(mode: Mode, c: Codec<V>, buf: Bytes): Conn<V>
    decreases |buf|
  {
    var r := Parse(mode, c, buf);
    if r.NeedMore? then Conn([], buf, true)
    else if r.Fatal? || Ends(c, r) then Conn(Seen(r), [], false)
    else Following(Seen(r), Drain(mode, c, buf[r.consumed..]))
  }

  function Opened<V>(): Conn<V> {
    Conn([], [], true)
  }

  function Feed<V>(mode: Mode, c: Codec<V>, conn: Conn<V>, chunk: Bytes): Conn<V> {
    if !conn.alive then conn else Following(conn.events, Drain(mode, c, conn.rest + chunk))
  }

  function FeedAll<V>(mode: Mode, c: Codec<V>, conn: Conn<V>, chunks: seq<Bytes>): Conn<V>
    decreases |chunks|
  {
    if chunks == [] then conn else FeedAll(mode, c, Feed(mode, c, conn, chunks[0]), chunks[1..])
  }

  function Concat(chunks: seq<Bytes>): Bytes {
    if chunks == [] then [] else chunks[0] + Concat(chunks[1..])
  }

  // ----------------------------------------------------------------- locality of parsing

  lemma {:induction false} HeaderInPrefix(bytes: Bytes, m: nat, k: nat)
    requires k <= m <= |bytes|
    ensures bytes[..m][..k] == bytes[..k]
  {
  }

  /** A completed parse looks at no byte beyond those it consumes. */
  lemma ParseIsLocal<V>(mode: Mode, c: Codec<V>, bytes: Bytes, m: nat)
    requires m <= |bytes|
    requires var r := Parse(mode, c, bytes); Consumes(r) && r.consumed <= m
    ensures Parse(mode, c, bytes[..m]) == Parse(mode, c, bytes)
  {
    FindInPrefix(mode, bytes, m);
    var p := Find(mode, bytes).value;
    match mode
    case Ndjson =>
      assert LineBody(bytes[..m], p) == LineBody(bytes, p);
    case ContentLength =>
      HeaderInPrefix(bytes, m, p + 4);
      var declared := DeclaredLength(bytes[..p + 4]);
      if declared.Length? {
        assert bytes[..m][p + 4..p + 4 + declared.n] == bytes[p + 4..p + 4 + declared.n];
      }
  }

  /** A parsed result is unchanged by appending bytes. */
  lemma ParseUnchangedByMore<V>(mode: Mode, c: Codec<V>, bytes: Bytes, more: Bytes)
    requires var r := Parse(mode, c, bytes); Consumes(r) || (r.Fatal? && Find(mode, bytes).Some?)
    ensures Parse(mode, c, bytes + more) == Parse(mode, c, bytes)
  {
    FindFits(mode, bytes);
    FindInPrefix(mode, bytes + more, |bytes|);
    FindFits(mode, bytes + more);
    assert (bytes + more)[..|bytes|] == bytes;
    var p := Find(mode, bytes).value;
    assert Find(mode, bytes + more) == Some(p);
    match mode
    case Ndjson =>
      assert LineBody(bytes + more, p) == LineBody(bytes, p);
    case ContentLength =>
      HeaderInPrefix(bytes + more, |bytes|, p + 4);
      var declared := DeclaredLength(bytes[..p + 4]);
      if declared.Length? {
        assert (bytes + more)[p + 4..p + 4 + declared.n] == bytes[p + 4..p + 4 + declared.n];
      }
  }

  // ---------------------------------------------------------------- chunk independence

  /** Behind blank lines, which only NDJSON has, the first frame is fatal: its terminator is
      missing beyond the cap, or its header declares too large a body. */
  predicate EndsAtOnce(mode: Mode, s: Bytes)
    decreases |s|
  {
    match Find(mode, s)
    case None => |s| > Cap(mode)
    case Some(p) =>
      p + |Terminator(mode)| <= |s| &&
      match mode
      case Ndjson => AllSpace(LineBody(s, p)) && EndsAtOnce(mode, s[p + 1..])
      case ContentLength => DeclaredLength(s[..p + 4]).TooLarge?
  }

  /** No chopping can trip the size cap early: the terminator of every frame is complete
      before more than the cap has been buffered. */
  ghost predicate WithinCaps<V>(mode: Mode, c: Codec<V>, s: Bytes)
    decreases |s|
  {
    EndsAtOnce(mode, s) ||
    match Find(mode, s)
    case None => true
    case Some(p) =>
      p + |Terminator(mode)| - 1 <= Cap(mode) &&
      var r := Parse(mode, c, s);
      Consumes(r) && !Ends(c, r) ==> WithinCaps(mode, c, s[r.consumed..])
  }

  /** It is on those streams that the connection sees one parse error and ends. */
  lemma {:induction false} EndsAtOnceExactly<V>(mode: Mode, c: Codec<V>, s: Bytes)
    ensures EndsAtOnce(mode, s) <==> Drain(mode, c, s) == Conn([ParseError], [], false)
    decreases |s|
  {
    FindFits(mode, s);
    var r := Parse(mode, c, s);
    if Consumes(r) {
      var rest := s[r.consumed..];
      EndsAtOnceExactly(mode, c, rest);
      DeadHasEvent(mode, c, rest);
      FollowingNothing(Drain(mode, c, rest));
      if r.Message? || r.Recoverable? {
        assert Seen(r) != [] && (Drain(mode, c, rest).alive || |Seen(r) + Drain(mode, c, rest).events| > 1);
      }
    }
  }

  lemma {:induction false} DeadHasEvent<V>(mode: Mode, c: Codec<V>, s: Bytes)
    ensures !Drain(mode, c, s).alive ==> Drain(mode, c, s).events != []
    decreases |s|
  {
    hide Parse;
    var r := Parse(mode, c, s);
    if Consumes(r) { DeadHasEvent(mode, c, s[r.consumed..]); }
  }

  /** Reading `a` and then `b` is reading `a + b`, as long as the caps do not interfere. */
  lemma {:induction false} DrainSplit<V>(mode: Mode, c: Codec<V>, a: Bytes, b: Bytes)
    requires WithinCaps(mode, c, a + b)
    ensures var d := Drain(mode, c, a);
            && (d.alive ==> Drain(mode, c, a + b) == Following(d.events, Drain(mode, c, d.rest + b))
                            && WithinCaps(mode, c, d.rest + b))
            && (!d.alive ==> Drain(mode, c, a + b) == d)
    decreases |a|
  {
    hide Parse, WithinCaps, EndsAtOnce, Find;
    var r := Parse(mode, c, a);
    if r.NeedMore? {
      FollowingNothing(Drain(mode, c, a + b));
    } else if r.Fatal? && Find(mode, a).None? {
      CappedEarly(mode, c, a, b);
    } else {
      ParseUnchangedByMore(mode, c, a, b);
      if Consumes(r) && !Ends(c, r) {
        var n := r.consumed;
        var d := Drain(mode, c, a[n..]);
        assert (a + b)[n..] == a[n..] + b;
        assert Drain(mode, c, a) == Following(Seen(r), d);
        assert Drain(mode, c, a + b) == Following(Seen(r), Drain(mode, c, a[n..] + b));
        hide Drain, Following;
        RestWithinCaps(mode, c, a + b);
        DrainSplit(mode, c, a[n..], b);
        FollowingParts(Seen(r), d);
        FollowingTwice(Seen(r), d.events, Drain(mode, c, d.rest + b));
      }
    }
  }

  lemma FollowingNothing<V>(d: Conn<V>)
    ensures Following([], d) == d
  {
  }

  lemma FollowingParts<V>(events: seq<Event<V>>, d: Conn<V>)
    ensures Following(events, d).events == events + d.events
    ensures Following(events, d).rest == d.rest && Following(events, d).alive == d.alive
  {
  }

  lemma FollowingTwice<V>(first: seq<Event<V>>, second: seq<Event<V>>, d: Conn<V>)
    ensures Following(first + second, d) == Following(first, Following(second, d))
  {
    assert first + second + d.events == first + (second + d.events);
  }

  /** After a frame that does not end the connection, the remaining stream is within the caps too. */
  lemma RestWithinCaps<V>(mode: Mode, c: Codec<V>, s: Bytes)
    requires WithinCaps(mode, c, s)
    requires Consumes(Parse(mode, c, s)) && !Ends(c, Parse(mode, c, s))
    ensures WithinCaps(mode, c, s[Parse(mode, c, s).consumed..])
  {
    assert Find(mode, s).Some?;
    hide Parse;
    EndsAtOnceExactly(mode, c, s);
    hide EndsAtOnce;
    if EndsAtOnce(mode, s) {
      var r := Parse(mode, c, s);
      var rest := s[r.consumed..];
      DeadHasEvent(mode, c, rest);
      assert |Seen(r)| + |Drain(mode, c, rest).events| == 1;
      assert Seen(r) == [];
      FollowingNothing(Drain(mode, c, rest));
    }
  }

  lemma CappedEarly<V>(mode: Mode, c: Codec<V>, a: Bytes, b: Bytes)
    requires WithinCaps(mode, c, a + b)
    requires Find(mode, a).None? && Parse(mode, c, a).Fatal?
    ensures Drain(mode, c, a) == Conn([ParseError], [], false) == Drain(mode, c, a + b)
  {
    EndsAtOnceExactly(mode, c, a + b);
    FindFits(mode, a + b);
    FindInPrefix(mode, a + b, |a|);
    assert (a + b)[..|a|] == a;
    hide EndsAtOnce;
  }

  lemma {:induction false} FeedDead<V>(mode: Mode, c: Codec<V>, conn: Conn<V>, chunks: seq<Bytes>)
    requires !conn.alive
    ensures FeedAll(mode, c, conn, chunks) == conn
  {
    if chunks != [] { FeedDead(mode, c, conn, chunks[1..]); }
  }

  lemma {:induction false} FeedAllIsDrain<V>(mode: Mode, c: Codec<V>, conn: Conn<V>, chunks: seq<Bytes>)
    requires conn.alive && WithinCaps(mode, c, conn.rest + Concat(chunks))
    requires Drain(mode, c, conn.rest) == Conn([], conn.rest, true)
    ensures FeedAll(mode, c, conn, chunks) == Following(conn.events, Drain(mode, c, conn.rest + Concat(chunks)))
    decreases |chunks|
  {
    if chunks == [] {
      assert conn.rest + Concat(chunks) == conn.rest;
      assert conn.events + [] == conn.events;
    } else {
      var a, b := conn.rest + chunks[0], Concat(chunks[1..]);
      assert conn.rest + Concat(chunks) == a + b;
      DrainSplit(mode, c, a, b);
      DrainSettles(mode, c, a);
      var next := Feed(mode, c, conn, chunks[0]);
      if next.alive {
        FeedAllIsDrain(mode, c, next, chunks[1..]);
        FollowingTwice(conn.events, Drain(mode, c, a).events, Drain(mode, c, next.rest + b));
      } else {
        FeedDead(mode, c, next, chunks[1..]);
      }
    }
  }

  /** The bytes kept by the inner loop wait for more: draining them again does nothing. */
  lemma {:induction false} DrainSettles<V>(mode: Mode, c: Codec<V>, s: Bytes)
    ensures var d := Drain(mode, c, s); d.alive ==> Drain(mode, c, d.rest) == Conn([], d.rest, true)
    decreases |s|
  {
    hide Parse;
    var r := Parse(mode, c, s);
    if Consumes(r) { DrainSettles(mode, c, s[r.consumed..]); }
  }

  /** Every way of chopping the stream into reads gives the same messages, the same recoverable
      errors, the same leftover bytes and the same end. */
  ghost predicate ChunkIndependent<V>(mode: Mode, c: Codec<V>, s: Bytes) {
    forall chunks :: Concat(chunks) == s ==> FeedAll(mode, c, Opened(), chunks) == Drain(mode, c, s)
  }

  function TwoReads<V>(mode: Mode, c: Codec<V>, s: Bytes, k: nat): Conn<V>
    requires k <= |s|
  {
    var d := Drain(mode, c, s[..k]);
    if d.alive then Following(d.events, Drain(mode, c, d.rest + s[k..])) else d
  }

  lemma FeedTwo<V>(mode: Mode, c: Codec<V>, s: Bytes, k: nat)
    requires k <= |s|
    ensures Concat([s[..k], s[k..]]) == s
    ensures FeedAll(mode, c, Opened(), [s[..k], s[k..]]) == TwoReads(mode, c, s, k)
  {
    var a, b := s[..k], s[k..];
    var none: seq<Bytes> := [];
    assert [a, b][1..] == [b] && [b][1..] == none && a + (b + []) == s;
    assert Concat([b]) == b + Concat(none);
    var first := Feed(mode, c, Opened(), a);
    assert [] + a == a;
    hide Drain;
    FollowingNothing(Drain(mode, c, a));
    var second := Feed(mode, c, first, b);
    assert FeedAll(mode, c, first, [b]) == FeedAll(mode, c, second, []);
  }

  /** If the caps can interfere, some two reads of the stream show it. */
  lemma {:induction false} BadCut<V>(mode: Mode, c: Codec<V>, s: Bytes) returns (k: nat)
    requires !WithinCaps(mode, c, s)
    ensures k <= |s| && TwoReads(mode, c, s, k) != Drain(mode, c, s)
    decreases |s|
  {
    EndsAtOnceExactly(mode, c, s);
    FindFits(mode, s);
    hide EndsAtOnce;
    var p := Find(mode, s).value;
    var r := Parse(mode, c, s);
    k := p + |Terminator(mode)| - 1;
    if k > Cap(mode) {
      FindInPrefix(mode, s, k);
    } else {
      var n := r.consumed;
      var rest := s[n..];
      var cut := BadCut(mode, c, rest);
      k := n + cut;
      ParseIsLocal(mode, c, s, k);
      assert s[..k][n..] == rest[..cut] && s[k..] == rest[cut..];
      var d := Drain(mode, c, rest[..cut]);
      assert Drain(mode, c, s[..k]) == Following(Seen(r), d);
      assert Drain(mode, c, s) == Following(Seen(r), Drain(mode, c, rest));
      hide Drain, Parse, Find, Following;
      FollowingParts(Seen(r), d);
      if d.alive { FollowingTwice(Seen(r), d.events, Drain(mode, c, d.rest + rest[cut..])); }
      assert TwoReads(mode, c, s, k) == Following(Seen(r), TwoReads(mode, c, rest, cut));
      if Following(Seen(r), TwoReads(mode, c, rest, cut)) == Following(Seen(r), Drain(mode, c, rest)) {
        FollowingInjective(Seen(r), TwoReads(mode, c, rest, cut), Drain(mode, c, rest));
      }
    }
  }

  lemma FollowingInjective<V>(events: seq<Event<V>>, d: Conn<V>, e: Conn<V>)
    requires Following(events, d) == Following(events, e)
    ensures d == e
  {
    assert (events + d.events)[|events|..] == d.events;
    assert (events + e.events)[|events|..] == e.events;
  }

  /** The serve loop is independent of chopping exactly for the streams whose frames keep
      their terminators within the caps. */
  lemma ChunkIndependenceExactly<V>(mode: Mode, c: Codec<V>, s: Bytes)
    ensures ChunkIndependent(mode, c, s) <==> WithinCaps(mode, c, s)
  {
    if WithinCaps(mode, c, s) {
      forall chunks | Concat(chunks) == s ensures FeedAll(mode, c, Opened(), chunks) == Drain(mode, c, s) {
        NothingYet(mode, c);
        assert [] + s == s;
        FeedAllIsDrain(mode, c, Opened(), chunks);
        FollowingNothing(Drain(mode, c, s));
      }
    } else {
      var k := BadCut(mode, c, s);
      FeedTwo(mode, c, s, k);
    }
  }

  lemma NothingYet<V>(mode: Mode, c: Codec<V>)
    ensures Drain(mode, c, []) == Conn([], [], true)
  {
    FindFits(mode, []);
  }
}
