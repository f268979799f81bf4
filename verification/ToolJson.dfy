/**
 Finding tool calls in model text: the one-shot repair pipeline and the extraction loop. The
 JSON parser and the reading of a call from a value are arbitrary.
 */
module ToolJson {
  import opened Prelude
  import opened ToolRepair
  import opened ToolScan

  const MAX_TEXT := 128 * 1024
  const MAX_CALLS := 64

  // ------------------------------------------------------------------------- extraction

  /** The JSON parser, the quoting of bare keys, the reading of a call from a value (directly or
      wrapped) and the length of a serialized value. */
  datatype Oracle<!V, !C> = Oracle(
    parse: string -> Option<V>, quoteKeys: string -> string, call: (V, bool) -> Option<C>, size: V -> nat)

  function Repair<V, C>(o: Oracle<V, C>, text: string): Option<V> {
    if |text| > MAX_REPAIR_INPUT then None
    else match Region(text)
      case None => None
      case Some(Pair(from, end)) =>
        if o.parse(text[from..end]).Some? then o.parse(text[from..end])
        else
          var fixed := Unquote(Strip(text[from..end]));
          if o.parse(fixed).Some? then o.parse(fixed) else o.parse(o.quoteKeys(fixed))
  }

  const MARKERS: seq<string> := [
    "{\"name\"", "{'name'", "{\"type\":\"tool_call\"", "{\"type\":\"function\"", "tool_call", "function_call"]

  predicate StartsAt(text: string, k: nat, marker: string) {
    k + |marker| <= |text| && text[k..k + |marker|] == marker
  }

  function FindText(text: string, marker: string, k: nat): (r: Option<nat>)
    ensures match r
            case Some(p) => k <= p && StartsAt(text, p, marker) && forall j :: k <= j < p ==> !StartsAt(text, j, marker)
            case None => forall j: nat :: k <= j ==> !StartsAt(text, j, marker)
    decreases |text| - k
  {
    if k + |marker| > |text| then None
    else if StartsAt(text, k, marker) then Some(k)
    else FindText(text, marker, k + 1)
  }

  function Earlier(a: Option<nat>, b: Option<nat>): Option<nat> {
    if a.None? then b else if b.None? || a.value <= b.value then a else b
  }

  predicate MarkerAt(text: string, k: nat, markers: seq<string>) {
    exists i :: 0 <= i < |markers| && StartsAt(text, k, markers[i])
  }

  /** The earliest occurrence of any marker. */
  function FindStart(text: string, markers: seq<string>): (r: Option<nat>)
    ensures match r
            case Some(p) => MarkerAt(text, p, markers) && forall j :: 0 <= j < p ==> !MarkerAt(text, j, markers)
            case None => forall j: nat :: !MarkerAt(text, j, markers)
  {
    if markers == [] then None
    else
      var first, rest := FindText(text, markers[0], 0), FindStart(text, markers[1..]);
      assert forall k: nat :: MarkerAt(text, k, markers) <==> StartsAt(text, k, markers[0]) || MarkerAt(text, k, markers[1..]) by {
        MarkerSplit(text, markers);
      }
      Earlier(first, rest)
  }

  lemma MarkerSplit(text: string, markers: seq<string>)
    requires markers != []
    ensures forall k: nat :: MarkerAt(text, k, markers) <==> StartsAt(text, k, markers[0]) || MarkerAt(text, k, markers[1..])
  {
    forall k: nat
      ensures MarkerAt(text, k, markers) <==> StartsAt(text, k, markers[0]) || MarkerAt(text, k, markers[1..])
    {
      if MarkerAt(text, k, markers) {
        var i :| 0 <= i < |markers| && StartsAt(text, k, markers[i]);
        if i > 0 { assert markers[1..][i - 1] == markers[i]; }
      }
      if MarkerAt(text, k, markers[1..]) {
        var i :| 0 <= i < |markers[1..]| && StartsAt(text, k, markers[1..][i]);
        assert markers[i + 1] == markers[1..][i];
      }
    }
  }

  /** The call read at the front of some text, and how much text it uses up. */
  function CallAt<V, C>(o: Oracle<V, C>, rest: string, wrapped: bool): (r: Option<Pair<C, nat>>)
    ensures r.Some? ==> r.value.second <= |rest|
  {
    match Repair(o, rest)
    case None => None
    case Some(v) =>
      match o.call(v, wrapped)
      case None => None
      case Some(call) => Some(Pair(call, Blob(rest, o.size(v))))
  }

  /** As long as no value serializes to the empty text, every call read shrinks the text. */
  lemma CallShrinksText<V(!new), C>(o: Oracle<V, C>, rest: string, wrapped: bool)
    requires CallAt(o, rest, wrapped).Some? && forall v :: o.size(v) >= 1
    ensures CallAt(o, rest, wrapped).value.second >= 1
  {
    assert rest == "" ==> Region(rest) == None;
  }

  datatype Found<C> = Found(at: nat, len: nat, call: C)

  lemma MarkerInSuffix(text: string, at: nat, p: nat)
    requires at <= p && at <= |text|
    ensures MarkerAt(text[at..], p - at, MARKERS) <==> MarkerAt(text, p, MARKERS)
  {
    forall i | 0 <= i < |MARKERS| ensures StartsAt(text[at..], p - at, MARKERS[i]) <==> StartsAt(text, p, MARKERS[i]) {
      if p + |MARKERS[i]| <= |text| {
        assert text[at..][p - at..p - at + |MARKERS[i]|] == text[p..p + |MARKERS[i]|];
      }
    }
    hide StartsAt, MARKERS;
  }

  lemma MarkerFits(text: string, k: nat)
    requires MarkerAt(text, k, MARKERS)
    ensures k < |text|
  {
  }

  /** The next place at or after `at` where a marker starts. */
  function NextStart(text: string, at: nat): (r: Option<nat>)
    requires at <= |text|
    ensures match r
            case Some(p) => at <= p < |text| && MarkerAt(text, p, MARKERS) && forall j :: at <= j < p ==> !MarkerAt(text, j, MARKERS)
            case None => forall j: nat :: at <= j ==> !MarkerAt(text, j, MARKERS)
  {
    var r := FindStart(text[at..], MARKERS);
    assert forall p: nat :: at <= p ==> (MarkerAt(text, p, MARKERS) <==> MarkerAt(text[at..], p - at, MARKERS)) by {
      forall p: nat | at <= p ensures MarkerAt(text, p, MARKERS) <==> MarkerAt(text[at..], p - at, MARKERS) {
        MarkerInSuffix(text, at, p);
      }
    }
    if r.None? then None
    else
      MarkerFits(text[at..], r.value);
      Some(at + r.value)
  }

  function ScanFrom<V, C>(o: Oracle<V, C>, text: string, at: nat, found: seq<Found<C>>): seq<Found<C>>
    requires at <= |text| && |found| <= MAX_CALLS
    decreases MAX_CALLS - |found|, |text| - at
  {
    if |found| == MAX_CALLS then found
    else match NextStart(text, at)
      case None => found
      case Some(p) =>
        match CallAt(o, text[p..], true)
        case Some(Pair(call, len)) => ScanFrom(o, text, p + len, found + [Found(p, len, call)])
        case None => ScanFrom(o, text, p + 1, found)
  }

  /** A single call that makes up nine tenths of the text is returned alone. */
  predicate FillsText(len: nat, text: string) {
    10 * len >= 9 * |text|
  }

  function Extract<V, C>(o: Oracle<V, C>, text: string): seq<Found<C>> {
    if |text| > MAX_TEXT then []
    else match CallAt(o, text, false)
      case None => ScanFrom(o, text, 0, [])
      case Some(Pair(call, len)) =>
        if FillsText(len, text) then [Found(0, len, call)] else ScanFrom(o, text, len, [Found(0, len, call)])
  }

  lemma ScanUnfolds<V, C>(o: Oracle<V, C>, text: string, at: nat, found: seq<Found<C>>)
    requires at <= |text| && |found| <= MAX_CALLS
    ensures ScanFrom(o, text, at, found) ==
      if |found| == MAX_CALLS || NextStart(text, at).None? then found
      else
        var p := NextStart(text, at).value;
        var read := CallAt(o, text[p..], true);
        if read.None? then ScanFrom(o, text, p + 1, found)
        else ScanFrom(o, text, p + read.value.second, found + [Found(p, read.value.second, read.value.first)])
  {
    hide NextStart, CallAt, MarkerAt, MARKERS;
  }

  method ExtractFromText<V, C>(o: Oracle<V, C>, text: string) returns (found: seq<Found<C>>)
    ensures found == Extract(o, text)
  {
    found := [];
    if |text| > MAX_TEXT { return; }
    var at: nat := 0;
    hide Repair, CallAt, NextStart, ScanFrom, MarkerAt, MARKERS, FillsText;
    var whole := CallAt(o, text, false);
    if whole.Some? {
      found := [Found(0, whole.value.second, whole.value.first)];
      if FillsText(whole.value.second, text) { return; }
      at := whole.value.second;
    }
    assert ScanFrom(o, text, at, found) == Extract(o, text);
    found := ScanLoop(o, text, at, found);
  }

  /** The scanning loop, from any place and with any calls already found. */
  method ScanLoop<V, C>(o: Oracle<V, C>, text: string, start: nat,
      already: seq<Found<C>>) returns (found: seq<Found<C>>)
    requires start <= |text| && |already| <= MAX_CALLS
    ensures found == ScanFrom(o, text, start, already)
  {
    var at: nat := start;
    found := already;
    hide *;
    while |found| < MAX_CALLS
      invariant at <= |text| && |found| <= MAX_CALLS
      invariant ScanFrom(o, text, at, found) == ScanFrom(o, text, start, already)
      decreases MAX_CALLS - |found|, |text| - at
    {
      ScanUnfolds(o, text, at, found);
      var next := NextStart(text, at);
      if next.None? { return; }
      var read := CallAt(o, text[next.value..], true);
      if read.Some? {
        found := found + [Found(next.value, read.value.second, read.value.first)];
        at := next.value + read.value.second;
        continue;
      }
      at := next.value + 1;
    }
    ScanUnfolds(o, text, at, found);
  }

  // ----------------------------------------------------------- what extraction guarantees

  ghost predicate ReadThere<V, C>(o: Oracle<V, C>, text: string, f: Found<C>) {
    f.at + f.len <= |text| && exists wrapped :: CallAt(o, text[f.at..], wrapped) == Some(Pair(f.call, f.len))
  }

  /** Every call was read from the text at its own place, and the spans skipped for the calls
      follow one another without overlap. */
  ghost predicate InSequence<V, C>(o: Oracle<V, C>, text: string, found: seq<Found<C>>, upTo: nat) {
    && (forall i :: 0 <= i < |found| ==> ReadThere(o, text, found[i]) && found[i].at + found[i].len <= upTo)
    && (forall i, j :: 0 <= i < j < |found| ==> found[i].at + found[i].len <= found[j].at)
  }

  lemma InSequenceMore<V, C>(o: Oracle<V, C>, text: string, found: seq<Found<C>>, p: nat)
    requires p <= |text| && CallAt(o, text[p..], true).Some? && InSequence(o, text, found, p)
    ensures var read := CallAt(o, text[p..], true).value;
            InSequence(o, text, found + [Found(p, read.second, read.first)], p + read.second)
  {
    var read := CallAt(o, text[p..], true).value;
    assert ReadThere(o, text, Found(p, read.second, read.first));
    hide CallAt, ReadThere;
  }

  lemma {:induction false} ScanInSequence<V, C>(o: Oracle<V, C>, text: string, at: nat, found: seq<Found<C>>)
    requires at <= |text| && |found| <= MAX_CALLS && InSequence(o, text, found, at)
    ensures var r := ScanFrom(o, text, at, found);
            |r| <= MAX_CALLS && found <= r && InSequence(o, text, r, |text|)
    decreases MAX_CALLS - |found|, |text| - at
  {
    hide CallAt, NextStart, InSequence, MarkerAt, MARKERS;
    WiderSequence(o, text, found, at, |text|);
    var start := NextStart(text, at);
    if |found| < MAX_CALLS && start.Some? {
      var p := start.value;
      WiderSequence(o, text, found, at, p);
      var read := CallAt(o, text[p..], true);
      if read.Some? {
        InSequenceMore(o, text, found, p);
        ScanInSequence(o, text, p + read.value.second, found + [Found(p, read.value.second, read.value.first)]);
      } else {
        WiderSequence(o, text, found, p, p + 1);
        ScanInSequence(o, text, p + 1, found);
      }
    }
  }

  lemma FirstInSequence<V, C>(o: Oracle<V, C>, text: string)
    requires CallAt(o, text, false).Some?
    ensures var r := CallAt(o, text, false).value; InSequence(o, text, [Found(0, r.second, r.first)], r.second)
  {
    var r := CallAt(o, text, false).value;
    assert text[0..] == text;
    assert ReadThere(o, text, Found(0, r.second, r.first));
  }

  /** At most 64 calls come back, read at places in text order, each beyond the span that was
      skipped for the one before. */
  lemma {:induction false} ExtractedInSequence<V, C>(o: Oracle<V, C>, text: string)
    ensures |Extract(o, text)| <= MAX_CALLS && InSequence(o, text, Extract(o, text), |text|)
  {
    hide CallAt, InSequence, ScanFrom;
    assert InSequence(o, text, [], 0) by { NothingFound(o, text); }
    var whole := CallAt(o, text, false);
    if whole.Some? {
      FirstInSequence(o, text);
      var f := Found(0, whole.value.second, whole.value.first);
      WiderSequence(o, text, [f], f.len, |text|);
      ScanInSequence(o, text, f.len, [f]);
    } else {
      ScanInSequence(o, text, 0, []);
    }
    WiderSequence(o, text, [], 0, |text|);
  }

  lemma NothingFound<V, C>(o: Oracle<V, C>, text: string)
    ensures InSequence(o, text, [], 0)
  {
  }

  lemma WiderSequence<V, C>(o: Oracle<V, C>, text: string, found: seq<Found<C>>, a: nat, b: nat)
    requires InSequence(o, text, found, a) && a <= b
    ensures InSequence(o, text, found, b)
  {
    hide ReadThere;
  }

  ghost predicate Covered<C>(found: seq<Found<C>>, p: nat) {
    exists i :: 0 <= i < |found| && found[i].at <= p < found[i].at + found[i].len
  }

  lemma CoveredByMore<C>(found: seq<Found<C>>, more: seq<Found<C>>, p: nat)
    requires found <= more && Covered(found, p)
    ensures Covered(more, p)
  {
    var i :| 0 <= i < |found| && found[i].at <= p < found[i].at + found[i].len;
    assert more[i] == found[i];
  }

  lemma {:induction false} ScanCovers<V, C>(o: Oracle<V, C>, text: string, at: nat, found: seq<Found<C>>, p: nat)
    requires at <= p < |text| && |found| <= MAX_CALLS && MarkerAt(text, p, MARKERS) && CallAt(o, text[p..], true).Some?
    ensures var r := ScanFrom(o, text, at, found); |r| == MAX_CALLS || Covered(r, p)
    decreases MAX_CALLS - |found|, |text| - at
  {
    hide CallAt, NextStart, Covered, MarkerAt, MARKERS;
    if |found| < MAX_CALLS {
      var q := NextStart(text, at).value;
      assert q <= p;
      var read := CallAt(o, text[q..], true);
      if read.Some? {
        var f := Found(q, read.value.second, read.value.first);
        if p < q + f.len {
          ScanKeeps(o, text, q + f.len, found + [f]);
          CoveredByLast(found, f, p);
          CoveredByMore(found + [f], ScanFrom(o, text, q + f.len, found + [f]), p);
        } else {
          ScanCovers(o, text, q + f.len, found + [f], p);
        }
      } else {
        ScanCovers(o, text, q + 1, found, p);
      }
    }
  }

  lemma CoveredByLast<C>(found: seq<Found<C>>, f: Found<C>, p: nat)
    requires f.at <= p < f.at + f.len
    ensures Covered(found + [f], p)
  {
    assert (found + [f])[|found|] == f;
  }

  lemma {:induction false} ScanKeeps<V, C>(o: Oracle<V, C>, text: string, at: nat, found: seq<Found<C>>)
    requires at <= |text| && |found| <= MAX_CALLS
    ensures found <= ScanFrom(o, text, at, found)
    decreases MAX_CALLS - |found|, |text| - at
  {
    hide CallAt, NextStart, MarkerAt, MARKERS;
    var start := NextStart(text, at);
    if |found| < MAX_CALLS && start.Some? {
      var p := start.value;
      var read := CallAt(o, text[p..], true);
      if read.Some? {
        ScanKeeps(o, text, p + read.value.second, found + [Found(p, read.value.second, read.value.first)]);
      } else {
        ScanKeeps(o, text, p + 1, found);
      }
    }
  }

  /** Every readable place is read or skipped: wherever a marker starts and a call can be read,
      that place lies inside the span of some call that was returned, unless 64 calls were
      returned or the first one fills nine tenths of the text. */
  lemma {:induction false} EveryCallIsCovered<V, C>(o: Oracle<V, C>, text: string, p: nat)
    requires |text| <= MAX_TEXT && p < |text| && MarkerAt(text, p, MARKERS) && CallAt(o, text[p..], true).Some?
    requires var whole := CallAt(o, text, false); whole.Some? ==> !FillsText(whole.value.second, text)
    ensures |Extract(o, text)| == MAX_CALLS || Covered(Extract(o, text), p)
  {
    hide CallAt, MarkerAt, MARKERS, ScanFrom, Covered;
    var whole := CallAt(o, text, false);
    if whole.None? {
      ScanCovers(o, text, 0, [], p);
    } else {
      var f := Found(0, whole.value.second, whole.value.first);
      if p < f.len {
        CoveredByLast([], f, p);
        assert [] + [f] == [f];
        ScanKeeps(o, text, f.len, [f]);
        CoveredByMore([f], ScanFrom(o, text, f.len, [f]), p);
      } else {
        ScanCovers(o, text, f.len, [f], p);
      }
    }
  }

  // ------------------------------------------------------------ spans and their regions

  /** The region of the text after `at`, whose prose leaves the scanner in its start state. */
  predicate CleanAt(text: string, at: nat)
    requires at <= |text|
  {
    var region := Region(text[at..]);
    region.Some? && region.value.first <= |text[at..]| && After(text[at..], 0, region.value.first) == START
  }

  /** A span ends where the region of its call ends if the prose in front of it is clean. */
  lemma SpanEndsWithRegion<V, C>(o: Oracle<V, C>, text: string, f: Found<C>)
    requires ReadThere(o, text, f) && CleanAt(text, f.at)
    ensures f.len == Region(text[f.at..]).value.second
  {
    var rest := text[f.at..];
    var wrapped :| CallAt(o, rest, wrapped) == Some(Pair(f.call, f.len));
    var v := Repair(o, rest).value;
    var region := Region(rest).value;
    BlobEndsWithRegion(rest, o.size(v), region.first, region.second);
  }

  /** It always is for the four markers that begin with a brace. */
  lemma BraceMarkersAreClean(text: string, p: nat)
    requires p < |text| && text[p] == '{' && Region(text[p..]).Some?
    ensures Region(text[p..]).value.first == 0 && CleanAt(text, p)
  {
    var rest := text[p..];
    assert rest[0] == '{';
    FirstOpenerIs(rest, 0);
    assert After(rest, 0, 0) == START;
  }

  lemma {:induction false} AfterShift(text: string, a: nat, from: nat, k: nat)
    requires a <= |text| && from <= k <= |text[a..]|
    ensures After(text[a..], from, k) == After(text, a + from, a + k)
    decreases k
  {
    if k > from { AfterShift(text, a, from, k - 1); }
  }

  lemma ShortestShift(text: string, a: nat, from: nat, end: nat)
    requires a <= |text| && from < end <= |text[a..]|
    ensures DepthFirstZero(text[a..], from, end) <==> DepthFirstZero(text, a + from, a + end)
  {
    var suffix, start := text[a..], a + from;
    AfterShift(text, a, from, end);
    forall k | start < k < a + end ensures After(text, start, k) == After(suffix, from, k - a) {
      AfterShift(text, a, from, k - a);
    }
    forall k | from < k < end ensures After(suffix, from, k) == After(text, start, k + a) {
      AfterShift(text, a, from, k);
    }
    hide After;
  }

  /** Seen from places `p` and `a`, the first region is the same piece of the text. */
  predicate SameRegion(text: string, p: nat, a: nat)
    requires p <= |text| && a <= |text|
  {
    var r, q := Region(text[p..]), Region(text[a..]);
    r.Some? && q.Some? && p + r.value.first == a + q.value.first && p + r.value.second == a + q.value.second
  }

  lemma RegionFromProse(text: string, a: nat, p: nat)
    requires a <= p <= |text| && Region(text[a..]).Some? && p <= a + Region(text[a..]).value.first
    ensures SameRegion(text, p, a)
  {
    var from, end := Region(text[a..]).value.first, Region(text[a..]).value.second;
    RegionIsShortest(text[a..], from, end);
    ShortestShift(text, a, from, end);
    ShortestShift(text, p, a + from - p, a + end - p);
    assert text[p..][a + from - p] == text[a..][from];
    assert forall j :: 0 <= j < a + from - p ==> text[p..][j] == text[a..][j + p - a];
    hide DepthFirstZero;
    RegionIsShortest(text[p..], a + from - p, a + end - p);
  }

  /** What can be read in front of a region is the call of that region. */
  lemma SameRegionSameCall<V, C>(o: Oracle<V, C>, text: string, a: nat, p: nat, wrapped: bool)
    requires a <= p <= |text| && SameRegion(text, p, a) && CallAt(o, text[a..], wrapped).Some?
    ensures CallAt(o, text[p..], wrapped).Some?
    ensures CallAt(o, text[p..], wrapped).value.first == CallAt(o, text[a..], wrapped).value.first
  {
    var r, q := Region(text[p..]).value, Region(text[a..]).value;
    RegionIsShortest(text[p..], r.first, r.second);
    RegionIsShortest(text[a..], q.first, q.second);
    assert text[p..][r.first..r.second] == text[a..][q.first..q.second];
    hide Region, ShortestBalanced;
  }

  /** Place `p` reads the very call that was found, or lies inside its region. */
  ghost predicate Accounted<V, C>(o: Oracle<V, C>, text: string, f: Found<C>, p: nat)
    requires f.at <= |text| && p <= |text|
  {
    || (SameRegion(text, p, f.at)
        && exists wrapped :: CallAt(o, text[p..], wrapped).Some? && CallAt(o, text[p..], wrapped).value.first == f.call)
    || (Region(text[f.at..]).Some?
        && f.at + Region(text[f.at..]).value.first <= p < f.at + Region(text[f.at..]).value.second)
  }

  lemma SpanAccounts<V, C>(o: Oracle<V, C>, text: string, f: Found<C>, p: nat)
    requires ReadThere(o, text, f) && f.at <= p < f.at + f.len && CleanAt(text, f.at)
    ensures Accounted(o, text, f, p)
  {
    SpanEndsWithRegion(o, text, f);
    var region := Region(text[f.at..]).value;
    if p <= f.at + region.first {
      var wrapped :| CallAt(o, text[f.at..], wrapped) == Some(Pair(f.call, f.len));
      RegionFromProse(text, f.at, p);
      SameRegionSameCall(o, text, f.at, p, wrapped);
    }
    hide Region, CallAt, SameRegion;
  }

  /** No call is missed, as far as the prose in front of the calls found is clean: every place at
      which a marker starts and a call can be read lies in the span of a call that was returned,
      and if that span starts clean, reads that very call or lies inside its region. The exceptions
      are 64 calls returned, and a first call that fills nine tenths of the text. */
  lemma {:induction false} EveryCallIsFound<V, C>(o: Oracle<V, C>, text: string, p: nat)
    requires |text| <= MAX_TEXT && p < |text| && MarkerAt(text, p, MARKERS) && CallAt(o, text[p..], true).Some?
    requires var whole := CallAt(o, text, false); whole.Some? ==> !FillsText(whole.value.second, text)
    ensures |Extract(o, text)| == MAX_CALLS || exists f :: f in Extract(o, text) && Answers(o, text, f, p)
  {
    EveryCallIsCovered(o, text, p);
    ExtractedInSequence(o, text);
    var found := Extract(o, text);
    if |found| != MAX_CALLS {
      var i :| 0 <= i < |found| && found[i].at <= p < found[i].at + found[i].len;
      assert found[i] in found && ReadThere(o, text, found[i]);
      hide Extract, CallAt, MarkerAt, MARKERS, ReadThere, CleanAt, Accounted, FillsText;
      if CleanAt(text, found[i].at) { SpanAccounts(o, text, found[i], p); }
      assert Answers(o, text, found[i], p);
    }
  }

  ghost predicate Answers<V, C>(o: Oracle<V, C>, text: string, f: Found<C>, p: nat)
    requires p <= |text|
  {
    f.at <= p < f.at + f.len <= |text| && (CleanAt(text, f.at) ==> Accounted(o, text, f, p))
  }

  // -------------------------------------------------------- no region is read twice, and when

  /** Where the region seen from `at` begins and ends in the text. */
  function Opener(text: string, at: nat): nat
    requires at <= |text| && Region(text[at..]).Some?
  {
    at + Region(text[at..]).value.first
  }

  function RegionEnd(text: string, at: nat): nat
    requires at <= |text| && Region(text[at..]).Some?
  {
    at + Region(text[at..]).value.second
  }

  lemma CallHasRegion<V, C>(o: Oracle<V, C>, text: string, f: Found<C>)
    requires ReadThere(o, text, f)
    ensures Region(text[f.at..]).Some?
  {
  }

  /** Behind a call whose span starts clean, every later call is read from beyond its region: none
      is returned twice, and none from inside another. */
  lemma CleanRegionsAreApart<V, C>(o: Oracle<V, C>, text: string, i: nat, j: nat)
    requires i < j < |Extract(o, text)|
    requires var f := Extract(o, text)[i]; f.at <= |text| && CleanAt(text, f.at)
    ensures var f, g := Extract(o, text)[i], Extract(o, text)[j];
            && g.at <= |text| && Region(text[f.at..]).Some? && Region(text[g.at..]).Some?
            && RegionEnd(text, f.at) <= g.at <= Opener(text, g.at)
  {
    ExtractedInSequence(o, text);
    var f, g := Extract(o, text)[i], Extract(o, text)[j];
    hide Extract;
    assert ReadThere(o, text, f) && ReadThere(o, text, g);
    CallHasRegion(o, text, f);
    CallHasRegion(o, text, g);
    SpanEndsWithRegion(o, text, f);
    hide Region, CleanAt, ReadThere;
  }

  /** Two returned calls are read from the same region exactly when the span of the first ends in
      front of that region far enough for the second to start there. */
  lemma {:induction false} SharedRegionExactly<V, C>(o: Oracle<V, C>, text: string, i: nat, j: nat)
    requires i < j < |Extract(o, text)|
    ensures var f, g := Extract(o, text)[i], Extract(o, text)[j];
            && f.at <= |text| && g.at <= |text| && Region(text[f.at..]).Some? && Region(text[g.at..]).Some?
            && (SameRegion(text, g.at, f.at) <==> g.at <= Opener(text, f.at))
  {
    ExtractedInSequence(o, text);
    var f, g := Extract(o, text)[i], Extract(o, text)[j];
    hide Extract;
    assert ReadThere(o, text, f) && ReadThere(o, text, g) && f.at + f.len <= g.at;
    CallHasRegion(o, text, f);
    CallHasRegion(o, text, g);
    hide Region, ReadThere, InSequence;
    if g.at <= Opener(text, f.at) { RegionFromProse(text, f.at, g.at); }
  }

  // ---------------------------------------------------------------------- a call that is lost

  /** An object of twelve characters whose one value is the string of a single bracket. */
  predicate NamedBracket(text: string, at: nat, c: char) {
    && at + 12 <= |text| && text[at] == '{' && text[at + 1] == '"' && text[at + 2..at + 6] == "name"
    && text[at + 6] == '"' && text[at + 7] == ':' && text[at + 8] == '"' && text[at + 9] == c
    && text[at + 10] == '"' && text[at + 11] == '}'
  }

  lemma NameChars(text: string, at: nat, c: char)
    requires NamedBracket(text, at, c)
    ensures forall j :: at + 2 <= j < at + 6 ==> text[j] != '"' && text[j] != '\\' && !IsOpener(text[j]) && !IsCloser(text[j])
  {
    forall j | at + 2 <= j < at + 6 ensures text[j] in "name" { assert text[j] == text[at + 2..at + 6][j - at - 2]; }
  }

  /** A scanner that starts with the object sees it whole. */
  lemma NamedBracketWhole(text: string, at: nat, c: char)
    requires NamedBracket(text, at, c) && (c == '[' || c == ']')
    ensures DepthFirstZero(text, at, at + 12)
  {
    NameChars(text, at, c);
    assert After(text, at, at) == START;
    AfterNext(text, at, at);
    AfterNext(text, at, at + 1);
    hide After;
    forall k | at + 2 <= k <= at + 6 ensures After(text, at, k) == Scan(1, true, false) { InsideString(text, at, at + 2, k); }
    AfterNext(text, at, at + 6);
    AfterNext(text, at, at + 7);
    AfterNext(text, at, at + 8);
    AfterNext(text, at, at + 9);
    AfterNext(text, at, at + 10);
    AfterNext(text, at, at + 11);
  }

  /** A scanner that is inside a string when it reaches the object takes its strings for prose and
      the rest for strings, and counts the bracket. */
  lemma NamedBracketInverted(text: string, at: nat, c: char, from: nat)
    requires NamedBracket(text, at, c) && (c == '[' || c == ']') && from <= at
    requires After(text, from, at).inString && !After(text, from, at).escaped
    ensures var depth := After(text, from, at).depth + (if c == '[' then 1 else -1);
            && After(text, from, at + 10) == Scan(depth, false, false)
            && After(text, from, at + 12) == Scan(depth, true, false)
    ensures forall k :: at < k <= at + 12 && k != at + 10 ==> !ClosesAt(text, from, k)
  {
    NameChars(text, at, c);
    AfterNext(text, from, at);
    AfterNext(text, from, at + 1);
    OutsideString(text, from, at + 2, at + 6);
    AfterNext(text, from, at + 6);
    AfterNext(text, from, at + 7);
    AfterNext(text, from, at + 8);
    AfterNext(text, from, at + 9);
    AfterNext(text, from, at + 10);
    AfterNext(text, from, at + 11);
    hide After;
  }

  /** Two such objects behind a quotation mark. */
  predicate TwoCalls(text: string) {
    && |text| == 42 && text[0] == '"' && NamedBracket(text, 1, '[') && text[13] == ' ' && NamedBracket(text, 14, ']')
    && (forall k :: 24 <= k < 42 ==> text[k] != '{' && text[k] != '_')
  }

  lemma TwoCallsBlob(text: string)
    requires TwoCalls(text)
    ensures FirstClose(text, 0, 0) == Some(24)
  {
    assert After(text, 0, 0) == START;
    AfterNext(text, 0, 0);
    hide After, NamedBracket;
    NamedBracketInverted(text, 1, '[', 0);
    AfterNext(text, 0, 13);
    NamedBracketInverted(text, 14, ']', 0);
    BracketAt(text, 14, ']');
    AfterNext(text, 0, 23);
    hide TwoCalls;
    assert ClosesAt(text, 0, 24) && !ClosesAt(text, 0, 1) && !ClosesAt(text, 0, 14);
    hide ClosesAt;
    FirstCloseIs(text, 0, 24);
  }

  lemma BracketAt(text: string, at: nat, c: char)
    requires NamedBracket(text, at, c)
    ensures text[at + 9] == c
  {
  }

  lemma TwoCallsRegions(text: string)
    requires TwoCalls(text)
    ensures Region(text) == Some(Pair(1, 13)) && Region(text[14..]) == Some(Pair(0, 12))
  {
    NamedBracketWhole(text, 1, '[');
    NamedBracketWhole(text, 14, ']');
    ShortestShift(text, 14, 0, 12);
    assert text[14..][0] == '{';
    hide DepthFirstZero;
    RegionIsShortest(text, 1, 13);
    RegionIsShortest(text[14..], 0, 12);
  }

  /** The text of `TwoCalls` behind place 24 holds no marker, and place 14 holds one. */
  lemma TwoCallsMarkers(text: string)
    requires TwoCalls(text)
    ensures MarkerAt(text, 14, MARKERS) && forall p: nat :: 24 <= p ==> !MarkerAt(text, p, MARKERS)
  {
    assert MARKERS[0] == ['{', '"'] + "name" + ['"'];
    assert text[14..21] == text[14..16] + text[16..20] + text[20..21] && text[14..16] == ['{', '"'] && text[20..21] == ['"'];
    assert StartsAt(text, 14, MARKERS[0]);
    forall p: nat, i | 24 <= p && 0 <= i < |MARKERS| ensures !StartsAt(text, p, MARKERS[i]) {
      MarkerChar(i);
      var c := if i < 4 then 0 else if i == 4 then 4 else 8;
      if p + |MARKERS[i]| <= |text| { assert text[p..p + |MARKERS[i]|][c] == text[p + c]; }
    }
    hide StartsAt;
  }

  lemma MarkerChar(i: nat)
    requires i < |MARKERS|
    ensures var c := if i < 4 then 0 else if i == 4 then 4 else 8;
            c < |MARKERS[i]| && (MARKERS[i][c] == '{' || MARKERS[i][c] == '_')
  {
  }

  /** The proviso is needed: a quotation mark in front of the first call makes the second one part
      of its span, and although a call can be read there, it is not returned. */
  lemma SecondCallIsLost<V, C>(o: Oracle<V, C>, text: string, first: V, second: V, a: C, b: C)
    requires TwoCalls(text)
    requires o.parse(text[1..13]) == Some(first) && o.call(first, false) == Some(a)
    requires o.parse(text[14..26]) == Some(second) && o.call(second, true) == Some(b)
    ensures Extract(o, text) == [Found(0, 24, a)]
    ensures MarkerAt(text, 14, MARKERS) && CallAt(o, text[14..], true).Some?
    ensures CallAt(o, text[14..], true).value.first == b
  {
    TwoCallsBlob(text);
    TwoCallsRegions(text);
    TwoCallsMarkers(text);
    assert text[14..][0..12] == text[14..26];
    hide Region, FirstClose, MarkerAt, MARKERS, TwoCalls;
    assert CallAt(o, text, false) == Some(Pair(a, 24));
    hide CallAt;
    ScanUnfolds(o, text, 24, [Found(0, 24, a)]);
  }

  function BracketObject(c: char): string {
    ['{', '"'] + "name" + ['"', ':', '"', c, '"', '}']
  }

  lemma BracketObjectIsNamed(before: string, c: char, after: string)
    ensures NamedBracket(before + BracketObject(c) + after, |before|, c)
  {
    var text := before + BracketObject(c) + after;
    assert text == before + ['{', '"'] + "name" + ['"', ':', '"', c, '"', '}'] + after;
    assert text[|before| + 2..|before| + 6] == "name";
  }

  /** A text of that shape. */
  lemma TwoCallsExist() returns (text: string)
    ensures TwoCalls(text)
  {
    var front, tail := ['"'], " and that is all";
    var one, two := BracketObject('['), BracketObject(']');
    text := front + one + [' '] + two + tail;
    BracketObjectIsNamed(front, '[', [' '] + two + tail);
    BracketObjectIsNamed(front + one + [' '], ']', tail);
    assert text == front + one + ([' '] + two + tail);
    hide NamedBracket;
    assert forall k :: 0 <= k < 16 ==> tail[k] != '{' && tail[k] != '_';
    assert two[10] == '"' && two[11] == '}' && |one| == |two| == 12;
    forall k | 24 <= k < 42 ensures text[k] != '{' && text[k] != '_' {
      if k < 26 { assert text[k] == two[k - 14]; } else { assert text[k] == tail[k - 26]; }
    }
  }

  // ---------------------------------------------------------------- a call that comes twice

  /** One such object behind a quotation mark and twelve plain characters. */
  predicate CallBehindProse(text: string) {
    && |text| == 25 && text[0] == '"' && NamedBracket(text, 13, '[')
    && (forall k :: 1 <= k < 13 ==> text[k] == 'z')
  }

  /** Behind a quotation mark and prose without quotes, backslashes and opening brackets, the object
      is the region, and the blob scanner never closes. */
  lemma QuotedProseScans(text: string, n: nat)
    requires 1 <= n && |text| == n + 12 && text[0] == '"' && NamedBracket(text, n, '[')
    requires forall k :: 1 <= k < n ==> text[k] != '"' && text[k] != '\\' && !IsOpener(text[k])
    ensures Region(text) == Some(Pair(n, n + 12)) && FirstClose(text, 0, 0) == None
  {
    assert After(text, 0, 0) == START;
    AfterNext(text, 0, 0);
    forall k | 1 <= k <= n ensures After(text, 0, k) == Scan(0, true, false) { InsideString(text, 0, 1, k); }
    hide After;
    NamedBracketInverted(text, n, '[', 0);
    forall j | 0 < j <= n + 12 ensures !ClosesAt(text, 0, j) {}
    NamedBracketWhole(text, n, '[');
    hide DepthFirstZero, ClosesAt;
    RegionIsShortest(text, n, n + 12);
  }

  lemma CallBehindProseScans(text: string)
    requires CallBehindProse(text)
    ensures Region(text) == Some(Pair(13, 25)) && FirstClose(text, 0, 0) == None
    ensures Region(text[13..]) == Some(Pair(0, 12)) && FirstClose(text[13..], 0, 0) == Some(12)
  {
    QuotedProseScans(text, 13);
    NamedBracketWhole(text, 13, '[');
    ShortestShift(text, 13, 0, 12);
    assert text[13..][0] == '{' && After(text[13..], 0, 0) == START;
    hide DepthFirstZero, After;
    RegionIsShortest(text[13..], 0, 12);
    CloseOfRegion(text[13..], 0, 12);
  }

  lemma CallBehindProseMarkers(text: string)
    requires CallBehindProse(text)
    ensures NextStart(text, 12) == Some(13) && NextStart(text, 25) == None
  {
    assert text[12] == 'z';
    assert MARKERS[0] == ['{', '"'] + "name" + ['"'];
    assert text[13..20] == text[13..15] + text[15..19] + text[19..20] && text[13..15] == ['{', '"'] && text[19..20] == ['"'];
    assert StartsAt(text, 13, MARKERS[0]);
    forall i | 0 <= i < |MARKERS| ensures !StartsAt(text, 12, MARKERS[i]) {
      FirstChar(i);
      if 12 + |MARKERS[i]| <= |text| { assert text[12..12 + |MARKERS[i]|][0] == 'z'; }
    }
    assert MarkerAt(text, 13, MARKERS) && !MarkerAt(text, 12, MARKERS) && |text| == 25;
    hide StartsAt, MARKERS, CallBehindProse, MarkerAt, NextStart;
  }

  lemma FirstChar(i: nat)
    requires i < |MARKERS|
    ensures MARKERS[i] != "" && MARKERS[i][0] in ['{', 't', 'f']
  {
  }

  /** A quotation mark in front of a call makes it come back twice: the blob scanner never closes,
      the loop goes on behind as many characters as the value has when serialized, and those still
      lie in front of the call. */
  lemma OneCallReturnedTwice<V, C>(o: Oracle<V, C>, text: string, v: V, a: C, b: C)
    requires CallBehindProse(text) && o.parse(text[13..25]) == Some(v) && o.size(v) == 12
    requires o.call(v, false) == Some(a) && o.call(v, true) == Some(b)
    ensures Extract(o, text) == [Found(0, 12, a), Found(13, 12, b)] && SameRegion(text, 13, 0)
  {
    CallBehindProseScans(text);
    CallBehindProseMarkers(text);
    assert text[13..][0..12] == text[13..25] && text[0..] == text;
    hide Region, FirstClose, MarkerAt, MARKERS, CallBehindProse, NextStart;
    assert CallAt(o, text, false) == Some(Pair(a, 12)) && CallAt(o, text[13..], true) == Some(Pair(b, 12));
    hide CallAt;
    ScanUnfolds(o, text, 12, [Found(0, 12, a)]);
    ScanUnfolds(o, text, 25, [Found(0, 12, a), Found(13, 12, b)]);
    assert [Found(0, 12, a)] + [Found(13, 12, b)] == [Found(0, 12, a), Found(13, 12, b)];
  }

  /** A text of that shape. */
  lemma CallBehindProseExists() returns (text: string)
    ensures CallBehindProse(text)
  {
    var front := ['"'] + seq(12, _ => 'z');
    text := front + BracketObject('[') + "";
    BracketObjectIsNamed(front, '[', "");
    hide NamedBracket;
    assert |BracketObject('[')| == 12;
  }

  // -------------------------------------------------------------- cuts between characters

  /** A byte that continues a character of UTF-8. */
  predicate Continues(c: char) {
    128 <= c as int < 192
  }

  /** What matters here of UTF-8: no character below 128 is continued. */
  predicate Utf8(text: string) {
    forall k :: 0 <= k < |text| && Continues(text[k]) ==> k > 0 && text[k - 1] as int >= 128
  }

  predicate OnBoundary(text: string, k: nat) {
    k < |text| ==> !Continues(text[k])
  }

  lemma CutBehindAscii(text: string, k: nat)
    requires Utf8(text) && 0 < k <= |text| && text[k - 1] as int < 128
    ensures OnBoundary(text, k)
  {
  }

  /** Skipping the first character of a marker never cuts a character. */
  lemma SkipFallsOnBoundary(text: string, p: nat)
    requires Utf8(text) && MarkerAt(text, p, MARKERS)
    ensures p < |text| && OnBoundary(text, p + 1)
  {
    var i :| 0 <= i < |MARKERS| && StartsAt(text, p, MARKERS[i]);
    FirstChar(i);
    assert text[p..p + |MARKERS[i]|][0] == text[p];
    hide MARKERS, StartsAt;
    CutBehindAscii(text, p + 1);
  }

  /** The cut behind a call falls between two characters exactly when the blob scanner closes or the
      length of the serialized value happens to reach such a place. */
  lemma {:induction false} CutFallsOnBoundaryExactly(text: string, at: nat, serialized: nat)
    requires Utf8(text) && at <= |text|
    ensures OnBoundary(text, at + Blob(text[at..], serialized))
       <==> FirstClose(text[at..], 0, 0).Some? || OnBoundary(text, at + serialized)
  {
    var close := FirstClose(text[at..], 0, 0);
    if close.Some? {
      assert text[at..][close.value - 1] == text[at + close.value - 1];
      CutBehindAscii(text, at + close.value);
    }
    hide After;
  }

  /** So it always does behind clean prose. */
  lemma CleanCutFallsOnBoundary<V, C>(o: Oracle<V, C>, text: string, f: Found<C>)
    requires Utf8(text) && ReadThere(o, text, f) && CleanAt(text, f.at)
    ensures OnBoundary(text, f.at + f.len)
  {
    var rest := text[f.at..];
    var wrapped :| CallAt(o, rest, wrapped) == Some(Pair(f.call, f.len));
    var region := Region(rest).value;
    CloseOfRegion(rest, region.first, region.second);
    CutFallsOnBoundaryExactly(text, f.at, o.size(Repair(o, rest).value));
  }

  /** For instance behind a quotation mark and seven characters of two bytes each, a call of twelve
      bytes is followed by a cut inside the sixth of them. */
  lemma CutInsideCharacter(text: string)
    requires |text| == 27 && text[0] == '"' && NamedBracket(text, 15, '[')
    requires forall k :: 1 <= k < 15 ==> text[k] as int == if k % 2 == 1 then 195 else 169
    ensures Utf8(text) && Region(text) == Some(Pair(15, 27)) && Blob(text, 12) == 12 && !OnBoundary(text, 12)
  {
    NameChars(text, 15, '[');
    forall k | 17 <= k < 21 ensures text[k] as int < 128 { assert text[k] == text[17..21][k - 17]; }
    QuotedProseScans(text, 15);
    hide FirstClose, Region;
  }
}
