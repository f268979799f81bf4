/**
 The reader loop as it is written: framing detection, the incremental parsers and the nested
 read and parse loops, with the exact condition under which autodetection is independent of
 how the stream is chopped into reads.
 */
module FrameReader {
  import opened Prelude
  import opened Framing
  import opened FrameCodec

  // -------------------------------------------------------------------------- detection

  /** The number of white-space bytes the stream starts with. */
  function Leading(s: Bytes): (w: nat)
    ensures w <= |s| && AllSpace(s[..w]) && (w < |s| ==> !IsSpace(s[w]))
  {
    if s != [] && IsSpace(s[0]) then
      var w := 1 + Leading(s[1..]);
      assert s[..w] == [s[0]] + s[1..][..w - 1];
      w
    else 0
  }

  function ModeFor(first: Byte): Mode {
    if first == OPEN_BRACE || first == OPEN_BRACKET then Ndjson else ContentLength
  }

  function Detect(s: Bytes): Option<Mode> {
    var w := Leading(s);
    if w == |s| then None else Some(ModeFor(s[w]))
  }

  lemma LeadingIs(s: Bytes, w: nat)
    requires w <= |s| && AllSpace(s[..w]) && (w < |s| ==> !IsSpace(s[w]))
    ensures Leading(s) == w
  {
    var v := Leading(s);
    assert forall i :: 0 <= i < w ==> IsSpace(s[..w][i]) && s[..w][i] == s[i];
    assert forall i :: 0 <= i < v ==> IsSpace(s[..v][i]) && s[..v][i] == s[i];
  }

  method DetectFraming(bytes: Bytes) returns (mode: Option<Mode>)
    ensures mode == Detect(bytes)
  {
    for i := 0 to |bytes|
      invariant AllSpace(bytes[..i])
    {
      if IsSpace(bytes[i]) {
        assert bytes[..i + 1] == bytes[..i] + [bytes[i]];
        continue;
      }
      LeadingIs(bytes, i);
      return Some(if bytes[i] == OPEN_BRACE || bytes[i] == OPEN_BRACKET then Ndjson else ContentLength);
    }
    assert bytes[..|bytes|] == bytes;
    LeadingIs(bytes, |bytes|);
    return None;
  }

  /** White space in front does not matter, and the first other byte decides for good. */
  lemma DetectAppend(a: Bytes, b: Bytes)
    ensures AllSpace(a) <==> Detect(a) == None
    ensures Detect(a + b) == if AllSpace(a) then Detect(b) else Detect(a)
    ensures AllSpace(a) ==> Leading(a + b) == |a| + Leading(b)
    ensures !AllSpace(a) ==> Leading(a + b) == Leading(a)
  {
    var v, w := Leading(a), Leading(b);
    assert a[..|a|] == a;
    if AllSpace(a) {
      LeadingIs(a, |a|);
      assert (a + b)[..|a| + w] == a + b[..w];
      LeadingIs(a + b, |a| + w);
    } else {
      assert (a + b)[..v] == a[..v];
      LeadingIs(a + b, v);
    }
  }

  // -------------------------------------------------------------- the parsers, as loops

  method ParseFrame<V>(c: Codec<V>, bytes: Bytes) returns (parsed: Parsed<V>)
    ensures parsed == Parse(ContentLength, c, bytes)
  {
    FindFits(ContentLength, bytes);
    var at := Find(ContentLength, bytes);
    if at.None? {
      return if |bytes| > MAX_HEADER_BYTES then Fatal else NeedMore;
    }
    var headerEnd := at.value + 4;
    var declared := ReadHeader(bytes[..headerEnd]);
    match declared {
      case Malformed => return Recoverable(headerEnd);
      case TooLarge => return Fatal;
      case Length(n) =>
        var end := headerEnd + n;
        if |bytes| < end { return NeedMore; }
        var value := c.decode(bytes[headerEnd..end]);
        return if value.None? then Recoverable(end) else Message(end, value.value);
    }
  }

  datatype Line<V> = Waiting | Found(consumed: nat, value: V) | Failed

  /** The first message line of a buffer, blank lines skipped. */
  function FirstLine<V>(c: Codec<V>, bytes: Bytes, offset: nat): Line<V>
    requires offset <= |bytes|
    decreases |bytes| - offset
  {
    match Parse(Ndjson, c, bytes[offset..])
    case NeedMore => Waiting
    case Blank(n) => FirstLine(c, bytes, offset + n)
    case Message(n, v) => Found(offset + n, v)
    case _ => Failed
  }

  method ParseNdjson<V>(c: Codec<V>, bytes: Bytes) returns (line: Line<V>)
    ensures line == FirstLine(c, bytes, 0)
  {
    var offset := 0;
    assert bytes[0..] == bytes;
    hide Parse;
    while true
      invariant offset <= |bytes| && FirstLine(c, bytes, offset) == FirstLine(c, bytes, 0)
      decreases |bytes| - offset
    {
      match Parse(Ndjson, c, bytes[offset..]) {
        case NeedMore => return Waiting;
        case Blank(n) => offset := offset + n;
        case Message(n, v) => return Found(offset + n, v);
        case Recoverable(_) => return Failed;
        case Fatal => return Failed;
      }
    }
  }

  /** The one-message parser agrees with the reader loop: it finds the reader's first message
      with the exact length, waits exactly when the reader sees nothing, and fails exactly when
      the reader's first event is a parse error. */
  lemma {:induction false} FirstLineIsFirstEvent<V>(c: Codec<V>, bytes: Bytes, offset: nat)
    requires offset <= |bytes|
    ensures var d := Drain(Ndjson, c, bytes[offset..]);
      match FirstLine(c, bytes, offset)
      case Waiting => d.alive && d.events == []
      case Failed => d.events != [] && d.events[0] == ParseError
      case Found(n, v) => (
        n <= |bytes| &&
        d == if c.stops(v) then Conn([Received(v)], [], false)
             else Following([Received(v)], Drain(Ndjson, c, bytes[n..])))
    decreases |bytes| - offset
  {
    hide Parse;
    var r := Parse(Ndjson, c, bytes[offset..]);
    if Consumes(r) { assert bytes[offset..][r.consumed..] == bytes[offset + r.consumed..]; }
    assert Drain(Ndjson, c, bytes[offset..])
        == if r.NeedMore? then Conn([], bytes[offset..], true)
           else if r.Fatal? || Ends(c, r) then Conn(Seen(r), [], false)
           else Following(Seen(r), Drain(Ndjson, c, bytes[offset + r.consumed..]));
    hide Drain;
    if r.Blank? {
      FirstLineIsFirstEvent(c, bytes, offset + r.consumed);
      FollowingNothing(Drain(Ndjson, c, bytes[offset + r.consumed..]));
    }
  }

  // --------------------------------------------------------------------- the serve loop

  /** The reader between two reads: the framing found so far, if any, and the connection. */
  datatype Reader<V> = Reader(mode: Option<Mode>, conn: Conn<V>)

  function Fresh<V>(): Reader<V> {
    Reader(None, Opened())
  }

  function ModeOf(mode: Option<Mode>): Mode {
    if mode.None? then ContentLength else mode.value
  }

  function Read<V>(c: Codec<V>, r: Reader<V>, chunk: Bytes): Reader<V> {
    if !r.conn.alive then r
    else
      var mode := if r.mode.None? then Detect(r.conn.rest + chunk) else r.mode;
      Reader(mode, Feed(ModeOf(mode), c, r.conn, chunk))
  }

  function ReadAll<V>(c: Codec<V>, r: Reader<V>, chunks: seq<Bytes>): Reader<V>
    decreases |chunks|
  {
    if chunks == [] then r else ReadAll(c, Read(c, r, chunks[0]), chunks[1..])
  }

  method Serve<V>(c: Codec<V>, chunks: seq<Bytes>) returns (conn: Conn<V>)
    ensures conn == ReadAll(c, Fresh(), chunks).conn
  {
    var framing: Option<Mode> := None;
    var buf: Bytes := [];
    var events: seq<Event<V>> := [];
    for k := 0 to |chunks|
      invariant ReadAll(c, Reader(framing, Conn(events, buf, true)), chunks[k..]) == ReadAll(c, Fresh(), chunks)
    {
      ghost var before := Reader(framing, Conn(events, buf, true));
      assert chunks[k..][1..] == chunks[k + 1..];
      buf := buf + chunks[k];
      if framing.None? {
        framing := DetectFraming(buf);
      }
      var mode := ModeOf(framing);
      ghost var after := Read(c, before, chunks[k]);
      assert after == Reader(framing, Following(events, Drain(mode, c, buf)));
      assert ReadAll(c, after, chunks[k + 1..]) == ReadAll(c, Fresh(), chunks);
      var ended;
      events, buf, ended := DrainBuffer(mode, c, events, buf);
      if ended {
        ReadDead(c, after, chunks[k + 1..]);
        return Conn(events, [], false);
      }
    }
    return Conn(events, buf, true);
  }

  /** The inner loop: parse and consume until more bytes are needed or the connection ends. */
  method DrainBuffer<V>(mode: Mode, c: Codec<V>, seen: seq<Event<V>>, arrived: Bytes)
    returns (events: seq<Event<V>>, buf: Bytes, ended: bool)
    ensures Following(seen, Drain(mode, c, arrived)) == Conn(events, if ended then [] else buf, !ended)
  {
    events, buf := seen, arrived;
    hide Parse;
    FollowingParts(seen, Drain(mode, c, arrived));
    while true
      invariant Following(events, Drain(mode, c, buf)) == Following(seen, Drain(mode, c, arrived))
      decreases |buf|
    {
      ghost var earlier, left := events, Drain(mode, c, buf);
      var parsed: Parsed<V>;
      if mode.Ndjson? {
        parsed := Parse(Ndjson, c, buf);
      } else {
        parsed := ParseFrame(c, buf);
      }
      match parsed {
        case NeedMore => return events, buf, false;
        case Blank(n) => buf := buf[n..];
        case Message(n, v) =>
          buf := buf[n..];
          events := events + [Received(v)];
          if c.stops(v) { return events, buf, true; }
        case Recoverable(n) =>
          buf := buf[n..];
          events := events + [ParseError];
        case Fatal => return events + [ParseError], buf, true;
      }
      assert left == Following(Seen(parsed), Drain(mode, c, buf));
      FollowingTwice(earlier, Seen(parsed), Drain(mode, c, buf));
      assert events == earlier + Seen(parsed);
    }
  }

  lemma {:induction false} ReadDead<V>(c: Codec<V>, r: Reader<V>, chunks: seq<Bytes>)
    requires !r.conn.alive
    ensures ReadAll(c, r, chunks) == r
  {
    if chunks != [] { ReadDead(c, r, chunks[1..]); }
  }

  // ------------------------------------------------------------ header-framed connections

  lemma {:induction false} RestIsSuffix<V>(mode: Mode, c: Codec<V>, s: Bytes)
    ensures AllSpace(s) ==> AllSpace(Drain(mode, c, s).rest)
    decreases |s|
  {
    hide Parse;
    var r := Parse(mode, c, s);
    if Consumes(r) { RestIsSuffix(mode, c, s[r.consumed..]); }
  }

  /** Once the mode is settled, or if it can only be settled as `Content-Length`, detection has
      no influence. */
  lemma {:induction false} SettledMode<V>(c: Codec<V>, r: Reader<V>, chunks: seq<Bytes>, mode: Mode)
    requires r.mode == Some(mode)
          || (r.mode.None? && mode.ContentLength? && AllSpace(r.conn.rest) && ModeOf(Detect(Concat(chunks))) == mode)
    ensures ReadAll(c, r, chunks).conn == FeedAll(mode, c, r.conn, chunks)
    decreases |chunks|
  {
    if chunks != [] {
      var chunk, more := chunks[0], Concat(chunks[1..]);
      DetectAppend(r.conn.rest, chunk);
      DetectAppend(chunk, more);
      RestIsSuffix(mode, c, r.conn.rest + chunk);
      hide Detect, Drain, AllSpace;
      var next := Read(c, r, chunk);
      assert next.conn == Feed(mode, c, r.conn, chunk);
      if r.conn.alive {
        SettledMode(c, next, chunks[1..], mode);
      } else {
        ReadDead(c, r, chunks);
        FeedDead(mode, c, r.conn, chunks);
      }
    }
  }

  // ---------------------------------------------------------------- white space in front

  lemma {:induction false} SpaceTrimsAway(s: Bytes)
    requires AllSpace(s)
    ensures TrimStart(s) == []
  {
    if s != [] { SpaceTrimsAway(s[1..]); }
  }

  lemma {:induction false} SpaceIsNoHeader(header: Bytes, from: nat, i: nat)
    requires AllSpace(header) && from <= i <= |header|
    ensures HeaderFrom(Header(0, None), header, from, i) == Header(0, None)
    decreases |header| - i
  {
    SpaceTrimsAway(header[from..i]);
    SpaceTrimsAway(header[from..]);
    hide TrimStart;
    if i < |header| {
      SpaceIsNoHeader(header, i + 1, i + 1);
      SpaceIsNoHeader(header, from, i + 1);
    }
  }

  /** In `Content-Length` mode white space is kept while it holds no terminator and is short,
      is fatal when it is long, and is one recoverable error up to a terminator. */
  lemma SpaceInHeaderMode<V>(c: Codec<V>, s: Bytes)
    requires AllSpace(s)
    ensures match Find(ContentLength, s)
      case None => Drain(ContentLength, c, s) == if |s| > MAX_HEADER_BYTES then Conn([ParseError], [], false)
                                                 else Conn([], s, true)
      case Some(p) => p + 4 <= |s| && Parse(ContentLength, c, s) == Recoverable(p + 4)
  {
    FindFits(ContentLength, s);
    var at := Find(ContentLength, s);
    if at.Some? { SpaceIsNoHeader(s[..at.value + 4], 0, 0); }
    hide HeaderFrom;
  }

  /** In NDJSON mode blank lines leave no trace. */
  lemma {:induction false} BlankLinesVanish<V>(c: Codec<V>, a: Bytes, b: Bytes)
    requires AllSpace(a) && (a == [] || Last(a) == LF)
    ensures Drain(Ndjson, c, a + b) == Drain(Ndjson, c, b)
    decreases |a|
  {
    if a == [] {
      assert a + b == b;
    } else {
      var s := a + b;
      var p := FirstNewline(a, b);
      assert (a + b)[p + 1..] == a[p + 1..] + b;
      assert Parse(Ndjson, c, s) == Blank(p + 1);
      hide Parse, LineBody;
      BlankLinesVanish(c, a[p + 1..], b);
      FollowingNothing(Drain(Ndjson, c, b));
    }
  }

  lemma FirstNewline(a: Bytes, b: Bytes) returns (p: nat)
    requires AllSpace(a) && a != [] && Last(a) == LF
    ensures p < |a| && Find(Ndjson, a + b) == Some(p) && AllSpace(LineBody(a + b, p))
  {
    var s, last := a + b, |a| - 1;
    assert s[last..last + 1] == [LF];
    assert OccursAt(Terminator(Ndjson), s, last);
    FindFromFirst(Terminator(Ndjson), s, 0);
    p := Find(Ndjson, s).value;
    FindIsFirst(Ndjson, s, p);
  }

  /** Reading white space first and the rest later is, in NDJSON mode, the same as one read. */
  lemma SpaceFirst<V>(c: Codec<V>, a: Bytes, b: Bytes)
    requires AllSpace(a) && |a| <= MAX_FRAME_BYTES
    ensures var d := Drain(Ndjson, c, a);
            d.alive && d.events == [] && Drain(Ndjson, c, d.rest + b) == Drain(Ndjson, c, a + b)
  {
    var k := AfterLastNewline(a);
    var lines, tail := a[..k], a[k..];
    assert a == lines + tail && a + b == lines + (tail + b);
    BlankLinesVanish(c, lines, tail);
    BlankLinesVanish(c, lines, tail + b);
    NoNewlineWaits(c, tail);
  }

  lemma {:induction false} AfterLastNewline(a: Bytes) returns (k: nat)
    requires AllSpace(a)
    ensures k <= |a| && (k == 0 || a[k - 1] == LF) && LF !in a[k..]
    ensures AllSpace(a[..k]) && (a[..k] == [] || Last(a[..k]) == LF)
  {
    k := |a|;
    while k > 0 && a[k - 1] != LF
      invariant k <= |a| && LF !in a[k..]
    {
      assert a[k - 1..] == [a[k - 1]] + a[k..];
      k := k - 1;
    }
  }

  lemma NoNewlineWaits<V>(c: Codec<V>, s: Bytes)
    requires LF !in s && |s| <= MAX_FRAME_BYTES
    ensures Drain(Ndjson, c, s) == Conn([], s, true)
  {
    forall j: nat ensures !OccursAt([LF], s, j) {
      if j < |s| {
        assert s[j] in s;
        OccursFirst([LF], s, j);
      }
    }
    FindIsFirst(Ndjson, s, 0);
  }

  // --------------------------------------------------------- autodetection, exactly

  /** White space in front of a JSON stream that the undetected reader leaves alone. */
  predicate QuietStart(s: Bytes) {
    && Find(ContentLength, s[..Leading(s)]) == None
    && (Leading(s) <= MAX_HEADER_BYTES || EndsAtOnce(Ndjson, s))
  }

  ghost predicate Autodetects<V>(c: Codec<V>, s: Bytes, mode: Mode) {
    forall chunks :: Concat(chunks) == s ==> ReadAll(c, Fresh(), chunks).conn == Drain(mode, c, s)
  }

  lemma QuietPrefix(s: Bytes, k: nat)
    requires k <= Leading(s) && Find(ContentLength, s[..Leading(s)]) == None
    ensures AllSpace(s[..k]) && Find(ContentLength, s[..k]) == None
  {
    assert s[..Leading(s)][..k] == s[..k];
    FindInPrefix(ContentLength, s[..Leading(s)], k);
  }

  lemma ReadOne<V>(c: Codec<V>, r: Reader<V>, chunks: seq<Bytes>)
    requires chunks != []
    ensures ReadAll(c, r, chunks) == ReadAll(c, Read(c, r, chunks[0]), chunks[1..])
    ensures Concat(chunks) == chunks[0] + Concat(chunks[1..])
  {
    hide Read;
  }

  lemma {:induction false} QuietReads<V>(c: Codec<V>, rest: Bytes, chunks: seq<Bytes>)
    requires var s := rest + Concat(chunks);
             WithinCaps(Ndjson, c, s) && QuietStart(s) && Detect(s) == Some(Ndjson) && AllSpace(rest)
    ensures ReadAll(c, Reader(None, Conn([], rest, true)), chunks).conn == Drain(Ndjson, c, rest + Concat(chunks))
    decreases |chunks|
  {
    hide *;
    if chunks == [] {
      ConcatNone(rest);
      DetectAppend(rest, []);
    } else if !AllSpace(rest + chunks[0]) {
      QuietlyDetected(c, rest, chunks);
    } else {
      var more := Concat(chunks[1..]);
      ConcatOne(rest, chunks);
      QuietRead(c, rest, chunks[0], more);
      ReadOne(c, Reader(None, Conn([], rest, true)), chunks);
      if |rest + chunks[0]| <= MAX_HEADER_BYTES {
        QuietReads(c, rest + chunks[0], chunks[1..]);
      } else {
        DetectAppend(rest + chunks[0], more);
        QuietEnd(c, rest + chunks[0] + more);
        ReadDead(c, Read(c, Reader(None, Conn([], rest, true)), chunks[0]), chunks[1..]);
      }
    }
  }

  lemma ConcatNone(rest: Bytes)
    ensures rest + Concat([]) == rest + [] == rest
  {
  }

  lemma ConcatOne(rest: Bytes, chunks: seq<Bytes>)
    requires chunks != []
    ensures rest + Concat(chunks) == (rest + chunks[0]) + Concat(chunks[1..])
  {
    assert rest + (chunks[0] + Concat(chunks[1..])) == (rest + chunks[0]) + Concat(chunks[1..]);
  }

  lemma QuietlyDetected<V>(c: Codec<V>, rest: Bytes, chunks: seq<Bytes>)
    requires chunks != [] && WithinCaps(Ndjson, c, rest + Concat(chunks))
    requires Detect(rest + Concat(chunks)) == Some(Ndjson) && !AllSpace(rest + chunks[0])
    ensures ReadAll(c, Reader(None, Conn([], rest, true)), chunks).conn == Drain(Ndjson, c, rest + Concat(chunks))
  {
    hide *;
    ConcatOne(rest, chunks);
    DetectAppend(rest + chunks[0], Concat(chunks[1..]));
    DetectedNow(c, rest, chunks);
  }

  lemma QuietEnd<V>(c: Codec<V>, s: Bytes)
    requires QuietStart(s) && Leading(s) > MAX_HEADER_BYTES
    ensures !Drain(Ndjson, c, s).alive
  {
    EndsAtOnceExactly(Ndjson, c, s);
    hide Drain, EndsAtOnce;
  }

  lemma QuietRead<V>(c: Codec<V>, rest: Bytes, chunk: Bytes, more: Bytes)
    requires AllSpace(rest + chunk) && QuietStart(rest + chunk + more)
    ensures Read(c, Reader(None, Conn([], rest, true)), chunk)
         == Reader(None, if |rest + chunk| <= MAX_HEADER_BYTES then Conn([], rest + chunk, true)
                         else Drain(Ndjson, c, rest + chunk + more))
  {
    var buf := rest + chunk;
    DetectAppend(buf, more);
    assert (buf + more)[..|buf|] == buf;
    QuietPrefix(buf + more, |buf|);
    SpaceInHeaderMode(c, buf);
    FollowingNothing(Drain(ContentLength, c, buf));
    EndsAtOnceExactly(Ndjson, c, buf + more);
    hide Drain, Find, Detect, AllSpace, EndsAtOnce;
  }

  lemma DetectedNow<V>(c: Codec<V>, rest: Bytes, chunks: seq<Bytes>)
    requires chunks != [] && Detect(rest + chunks[0]) == Some(Ndjson)
    requires WithinCaps(Ndjson, c, rest + Concat(chunks))
    ensures ReadAll(c, Reader(None, Conn([], rest, true)), chunks).conn == Drain(Ndjson, c, rest + Concat(chunks))
  {
    hide Detect, Drain, WithinCaps;
    var conn: Conn<V> := Conn([], rest, true);
    var next := Feed(Ndjson, c, conn, chunks[0]);
    var joined := [rest + chunks[0]] + chunks[1..];
    assert joined[1..] == chunks[1..];
    SettledMode(c, Reader(Some(Ndjson), next), chunks[1..], Ndjson);
    assert [] + (rest + chunks[0]) == rest + chunks[0];
    assert next == Feed(Ndjson, c, Opened(), joined[0]);
    assert Concat(joined) == rest + Concat(chunks);
    assert [] + Concat(joined) == Concat(joined);
    NothingYet(Ndjson, c);
    FeedAllIsDrain(Ndjson, c, Opened(), joined);
    FollowingNothing(Drain(Ndjson, c, Concat(joined)));
  }

  lemma ReadTwo<V>(c: Codec<V>, s: Bytes, k: nat)
    requires k <= |s|
    ensures Concat([s[..k], s[k..]]) == s
    ensures ReadAll(c, Fresh(), [s[..k], s[k..]]) == Read(c, Read(c, Fresh(), s[..k]), s[k..])
  {
    var a, b := s[..k], s[k..];
    var none: seq<Bytes> := [];
    assert [a, b][1..] == [b] && [b][1..] == none && a + (b + []) == s;
    assert Concat([b]) == b + Concat(none);
    hide Read;
    var first := Read(c, Fresh(), a);
    assert ReadAll(c, first, [b]) == ReadAll(c, Read(c, first, b), none);
  }

  lemma SpaceToTerminator<V>(c: Codec<V>, a: Bytes)
    requires AllSpace(a) && |a| >= 4 && Find(ContentLength, a) == Some(|a| - 4)
    ensures Read(c, Fresh(), a) == Reader(None, Conn([ParseError], [], true)) && Last(a) == LF
  {
    FindIsFirst(ContentLength, a, |a| - 4);
    assert Last(a) == a[|a| - 4..|a| - 4 + 4][3];
    SpaceInHeaderMode(c, a);
    assert a[|a|..] == [] && [] + a == a;
    NothingYet(ContentLength, c);
    hide Parse, Find;
    assert Drain(ContentLength, c, a) == Conn([ParseError], [], true);
    DetectAppend(a, []);
  }

  lemma ReadAfterError<V>(c: Codec<V>, b: Bytes)
    requires Detect(b) == Some(Ndjson)
    ensures Read(c, Reader(None, Conn([ParseError], [], true)), b).conn == Following([ParseError], Drain(Ndjson, c, b))
  {
    assert [] + b == b;
    hide Drain, Detect;
  }

  /** A header terminator inside the leading white space makes a second error out of nothing. */
  lemma TerminatorInSpace<V>(c: Codec<V>, s: Bytes, k: nat)
    requires Detect(s) == Some(Ndjson) && Find(ContentLength, s[..Leading(s)]).Some?
    requires k == Find(ContentLength, s[..Leading(s)]).value + 4
    ensures k <= |s| && Read(c, Read(c, Fresh(), s[..k]), s[k..]).conn != Drain(Ndjson, c, s)
  {
    var space := s[..Leading(s)];
    FindFits(ContentLength, space);
    FindInPrefix(ContentLength, space, k);
    var a, b := s[..k], s[k..];
    assert a == space[..k] && s == a + b;
    assert AllSpace(a);
    assert Terminator(ContentLength) == [CR, LF, CR, LF];
    hide *;
    SpaceToTerminator(c, a);
    DetectAppend(a, b);
    BlankLinesVanish(c, a, b);
    ReadAfterError(c, b);
    FollowingParts([ParseError], Drain(Ndjson, c, b));
  }

  lemma LongSpace<V>(c: Codec<V>, s: Bytes, k: nat)
    requires Find(ContentLength, s[..Leading(s)]) == None && k == MAX_HEADER_BYTES + 1 <= Leading(s)
    requires !EndsAtOnce(Ndjson, s)
    ensures Read(c, Read(c, Fresh(), s[..k]), s[k..]).conn != Drain(Ndjson, c, s)
  {
    QuietPrefix(s, k);
    SpaceInHeaderMode(c, s[..k]);
    assert [] + s[..k] == s[..k];
    DetectAppend(s[..k], []);
    EndsAtOnceExactly(Ndjson, c, s);
    hide Drain, Find, Detect, EndsAtOnce;
  }

  lemma SpaceCutAgrees<V>(c: Codec<V>, s: Bytes, k: nat)
    requires k <= |s| && AllSpace(s[..k]) && k <= MAX_FRAME_BYTES
    ensures TwoReads(Ndjson, c, s, k) == Drain(Ndjson, c, s)
  {
    SpaceFirst(c, s[..k], s[k..]);
    assert s == s[..k] + s[k..];
    FollowingNothing(Drain(Ndjson, c, s));
    hide Drain, AllSpace;
  }

  lemma DetectedCut<V>(c: Codec<V>, s: Bytes, k: nat)
    requires k <= |s| && Detect(s[..k]) == Some(Ndjson)
    ensures Read(c, Read(c, Fresh(), s[..k]), s[k..]).conn == TwoReads(Ndjson, c, s, k)
  {
    assert [] + s[..k] == s[..k];
    FollowingNothing(Drain(Ndjson, c, s[..k]));
    hide Drain, Detect;
  }

  lemma BadCutDetected<V>(c: Codec<V>, s: Bytes, k: nat)
    requires Detect(s) == Some(Ndjson) && Leading(s) <= MAX_HEADER_BYTES
    requires k <= |s| && TwoReads(Ndjson, c, s, k) != Drain(Ndjson, c, s)
    ensures Read(c, Read(c, Fresh(), s[..k]), s[k..]).conn != Drain(Ndjson, c, s)
  {
    assert s == s[..k] + s[k..];
    hide *;
    DetectAppend(s[..k], s[k..]);
    if AllSpace(s[..k]) {
      SpaceCutAgrees(c, s, k);
    } else {
      DetectedCut(c, s, k);
    }
  }

  lemma AutoBadCut<V>(c: Codec<V>, s: Bytes) returns (k: nat)
    requires Detect(s) == Some(Ndjson) && !(WithinCaps(Ndjson, c, s) && QuietStart(s))
    ensures k <= |s| && Read(c, Read(c, Fresh(), s[..k]), s[k..]).conn != Drain(Ndjson, c, s)
  {
    var at := Find(ContentLength, s[..Leading(s)]);
    hide Drain, Find, WithinCaps, Read, Detect;
    if at.Some? {
      k := at.value + 4;
      TerminatorInSpace(c, s, k);
    } else if Leading(s) > MAX_HEADER_BYTES && !EndsAtOnce(Ndjson, s) {
      k := MAX_HEADER_BYTES + 1;
      LongSpace(c, s, k);
    } else {
      EndingFits(c, s);
      k := BadCut(Ndjson, c, s);
      BadCutDetected(c, s, k);
    }
  }

  lemma EndingFits<V>(c: Codec<V>, s: Bytes)
    ensures EndsAtOnce(Ndjson, s) ==> WithinCaps(Ndjson, c, s)
  {
  }

  /** The reader that detects its framing delivers the same messages, errors, leftover bytes and
      end for every chopping exactly when the frames keep within the caps and, for a JSON
      stream, the white space in front holds no CRLF CRLF and is short. */
  lemma AutodetectionExactly<V>(c: Codec<V>, s: Bytes, mode: Mode)
    requires mode == ModeOf(Detect(s))
    ensures Autodetects(c, s, mode) <==> WithinCaps(mode, c, s) && (mode.Ndjson? ==> QuietStart(s))
  {
    if mode.ContentLength? {
      forall chunks | Concat(chunks) == s
        ensures ReadAll(c, Fresh(), chunks).conn == FeedAll(mode, c, Opened(), chunks)
      {
        SettledMode(c, Fresh(), chunks, mode);
      }
      ChunkIndependenceExactly(mode, c, s);
    } else if WithinCaps(mode, c, s) && QuietStart(s) {
      forall chunks | Concat(chunks) == s ensures ReadAll(c, Fresh(), chunks).conn == Drain(mode, c, s) {
        assert [] + s == s;
        QuietReads(c, [], chunks);
      }
    } else {
      var k := AutoBadCut(c, s);
      ReadTwo(c, s, k);
    }
  }

  /** For instance: CR LF CR LF in front of a JSON line is one parse error when it arrives on its
      own and nothing at all when it arrives together with the line. */
  lemma AutodetectionDependsOnReads<V>(c: Codec<V>)
    ensures var s := [CR, LF, CR, LF, OPEN_BRACE, 125, LF];
            Detect(s) == Some(Ndjson) && !Autodetects(c, s, Ndjson)
  {
    var s := [CR, LF, CR, LF, OPEN_BRACE, 125, LF];
    LeadingIs(s, 4);
    FindIsFirst(ContentLength, s[..4], 0);
    hide Find, WithinCaps, Autodetects;
    AutodetectionExactly(c, s, Ndjson);
  }
}
