/** The printers, and the round trip through the parsers for whole streams of messages. */
module FramePrinter {
  import opened Prelude
  import opened Framing
  import opened FrameCodec

  /** "Content-Length: " */
  const HEADER_TEXT: Bytes := [67, 111, 110, 116, 101, 110, 116, 45, 76, 101, 110, 103, 116, 104, 58, 32]
  const CRLF_CRLF: Bytes := [CR, LF, CR, LF]

  function Decimal(n: nat): Bytes {
    if n < 10 then [48 + n] else Decimal(n / 10) + [48 + n % 10]
  }

  function HeaderText(n: nat): Bytes {
    HEADER_TEXT + Decimal(n)
  }

  function Encode(mode: Mode, body: Bytes): Bytes {
    match mode
    case Ndjson => body + [LF]
    case ContentLength => HeaderText(|body|) + CRLF_CRLF + body
  }

  /** Bodies the framing can carry. JSON text never holds a raw newline or ends in a CR. */
  predicate Fits(mode: Mode, body: Bytes) {
    && |body| <= MAX_FRAME_BYTES
    && (mode.Ndjson? ==> LF !in body && !AllSpace(body) && (body == [] || body[|body| - 1] != CR))
  }

  // ---------------------------------------------------------------- decimal round trip

  lemma {:induction false} DecimalDigits(n: nat)
    ensures Decimal(n) != [] && (forall i :: 0 <= i < |Decimal(n)| ==> IsDigit(Decimal(n)[i]))
    ensures DigitsValue(Decimal(n)) == n
  {
    if n >= 10 {
      DecimalDigits(n / 10);
      var d := Decimal(n / 10);
      assert Decimal(n)[..|Decimal(n)| - 1] == d;
    } else {
      assert DigitsValue([]) == 0;
      assert Decimal(n)[..0] == [];
    }
  }

  /** Printing a length and parsing it back is the identity on 64-bit numbers. */
  lemma DecimalRoundTrip(n: nat)
    requires n <= U64_MAX
    ensures ParseU64(Decimal(n)) == Some(n)
  {
    DecimalDigits(n);
  }

  lemma DecimalIsShort(n: nat)
    requires n <= MAX_FRAME_BYTES
    ensures |Decimal(n)| <= 8
  {
    DecimalLength(n, 8, 100_000_000);
  }

  lemma {:induction false} DecimalLength(n: nat, digits: nat, bound: nat)
    requires digits >= 1 && n < bound && bound == Power10(digits)
    ensures |Decimal(n)| <= digits
  {
    if n >= 10 {
      DecimalLength(n / 10, digits - 1, bound / 10);
    }
  }

  function Power10(k: nat): nat {
    if k == 0 then 1 else 10 * Power10(k - 1)
  }

  // ----------------------------------------------------------------- header round trip

  lemma SpacesAreNotDigits(k: nat)
    requires k < |UNICODE_SPACES|
    ensures |UNICODE_SPACES[k]| >= 1
    ensures !IsDigit(UNICODE_SPACES[k][0]) && !IsDigit(UNICODE_SPACES[k][|UNICODE_SPACES[k]| - 1])
  {
  }

  lemma {:induction false} NoUnicodeSpace(s: Bytes, k: nat)
    requires s != [] && IsDigit(s[0]) && IsDigit(s[|s| - 1]) && k <= |UNICODE_SPACES|
    ensures SpaceAtFront(s, k) == 0 && SpaceAtBack(s, k) == 0
    decreases |UNICODE_SPACES| - k
  {
    if k < |UNICODE_SPACES| {
      SpacesAreNotDigits(k);
      NoUnicodeSpace(s, k + 1);
      var u := UNICODE_SPACES[k];
      hide UNICODE_SPACES;
      if |u| <= |s| { assert s[|s| - |u|..][|u| - 1] == s[|s| - 1] && s[..|u|][0] == s[0]; }
    }
  }

  lemma TrimsToDigits(n: nat)
    ensures Trim([SPACE] + Decimal(n)) == Decimal(n) && TrimUnicode(Decimal(n)) == Decimal(n)
  {
    DecimalDigits(n);
    var d := Decimal(n);
    assert ([SPACE] + d)[1..] == d;
    assert IsDigit(d[0]) && IsDigit(d[|d| - 1]);
    assert TrimStart([SPACE] + d) == TrimStart(d) == d;
    assert TrimEnd(d) == d;
    NoUnicodeSpace(d, 0);
  }

  lemma LengthLineShape(n: nat)
    ensures var text := HeaderText(n);
            && text != [] && Trim(text) == text && IndexOf(text, COLON, 0) == Some(14)
            && NamesLength(text[..14]) && text[15..] == [SPACE] + Decimal(n)
  {
    var text, d := HeaderText(n), Decimal(n);
    DecimalDigits(n);
    hide Decimal, UNICODE_SPACES;
    assert text[0] == 67 && text[|text| - 1] == d[|d| - 1] && IsDigit(d[|d| - 1]);
    assert TrimStart(text) == text && TrimEnd(text) == text;
    assert text[14] == COLON && forall i :: 0 <= i < 14 ==> text[i] != COLON;
    assert NamesLength(text[..14]) by {
      forall i | 0 <= i < 14 ensures Lower(text[..14][i]) == LENGTH_NAME[i] {
        assert text[..14][i] == HEADER_TEXT[i];
      }
    }
    assert text[15..] == [SPACE] + d;
  }

  lemma LengthLineParses(n: nat)
    requires n <= MAX_FRAME_BYTES
    ensures HeaderLine(Header(0, None), HeaderText(n)) == Header(1, Some(n))
  {
    hide Trim, TrimUnicode, NamesLength, ParseU64, HeaderText, Decimal, IndexOf, UNICODE_SPACES;
    LengthLineShape(n);
    DecimalRoundTrip(n);
    TrimsToDigits(n);
  }

  lemma {:induction false} SkipToSeparator(h: Header, header: Bytes, from: nat, i: nat, j: nat)
    requires from <= i <= j <= |header| && forall k :: i <= k < j ==> header[k] != CR && header[k] != LF
    ensures HeaderFrom(h, header, from, i) == HeaderFrom(h, header, from, j)
    decreases j - i
  {
    if i < j { SkipToSeparator(h, header, from, i + 1, j); }
  }

  lemma NoSeparator(n: nat)
    ensures forall i :: 0 <= i < |HeaderText(n)| ==> HeaderText(n)[i] != CR && HeaderText(n)[i] != LF
  {
    DecimalDigits(n);
    forall i | 0 <= i < |HeaderText(n)| ensures HeaderText(n)[i] != CR && HeaderText(n)[i] != LF {
      if i >= |HEADER_TEXT| { assert HeaderText(n)[i] == Decimal(n)[i - |HEADER_TEXT|]; }
    }
  }

  /** The parser reads back the length the printer declares. */
  lemma HeaderRoundTrip(n: nat)
    requires n <= MAX_FRAME_BYTES
    ensures DeclaredLength(HeaderText(n) + CRLF_CRLF) == Length(n)
  {
    NoSeparator(n);
    LengthLineParses(n);
    hide HeaderText, HeaderLine;
    OneLineHeader(Header(0, None), HeaderText(n));
    hide HeaderFrom;
  }

  lemma AtSeparator(h: Header, header: Bytes, from: nat, i: nat)
    requires from <= i < |header| && (header[i] == CR || header[i] == LF)
    ensures HeaderFrom(h, header, from, i) == HeaderFrom(HeaderLine(h, header[from..i]), header, i + 1, i + 1)
  {
    hide HeaderLine;
  }

  lemma OneLineHeader(g: Header, text: Bytes)
    requires forall i :: 0 <= i < |text| ==> text[i] != CR && text[i] != LF
    ensures HeaderFrom(g, text + CRLF_CRLF, 0, 0) == HeaderLine(g, text)
  {
    hide HeaderFrom, HeaderLine;
    var header, t := text + CRLF_CRLF, |text|;
    assert forall k :: 0 <= k < t ==> header[k] == text[k];
    assert header[t] == CR && header[t + 1] == LF && header[t + 2] == CR && header[t + 3] == LF && |header| == t + 4;
    assert header[0..t] == text;
    SkipToSeparator(g, header, 0, 0, t);
    AtSeparator(g, header, 0, t);
    EmptyLines(HeaderLine(g, text), header, t + 1);
  }

  lemma EmptyLines(h: Header, header: Bytes, at: nat)
    requires |header| == at + 3 && forall k :: at <= k < |header| ==> header[k] == CR || header[k] == LF
    ensures HeaderFrom(h, header, at, at) == h
  {
    assert header[at..at] == [] && header[at + 1..at + 1] == [] && header[at + 2..at + 2] == [] && header[at + 3..] == [];
    assert forall g: Header :: HeaderLine(g, []) == g;
    hide HeaderLine;
    assert HeaderFrom(h, header, at + 3, at + 3) == h;
    assert HeaderFrom(h, header, at + 2, at + 2) == h;
    assert HeaderFrom(h, header, at + 1, at + 1) == h;
  }

  // ------------------------------------------------------------------ frame round trip

  lemma FindInEncoding(mode: Mode, body: Bytes)
    requires Fits(mode, body)
    ensures Find(mode, Encode(mode, body)) == Some(if mode.Ndjson? then |body| else |HeaderText(|body|)|)
  {
    var bytes := Encode(mode, body);
    match mode
    case Ndjson =>
      assert bytes[|body|..|body| + 1] == [LF];
      forall j | 0 <= j < |body| ensures !OccursAt([LF], bytes, j) {
        assert bytes[j] == body[j] && body[j] in body;
        OccursFirst([LF], bytes, j);
      }
      FindIsFirst(mode, bytes, |body|);
    case ContentLength =>
      var text := HeaderText(|body|);
      NoSeparator(|body|);
      assert bytes[|text|..|text| + 4] == CRLF_CRLF;
      forall j | 0 <= j < |text| ensures !OccursAt(CRLF_CRLF, bytes, j) {
        assert bytes[j] == text[j];
        OccursFirst(CRLF_CRLF, bytes, j);
      }
      FindIsFirst(mode, bytes, |text|);
  }

  lemma EncodingParses<V>(mode: Mode, c: Codec<V>, body: Bytes, v: V)
    requires Fits(mode, body) && c.decode(body) == Some(v)
    ensures Parse(mode, c, Encode(mode, body)) == Message(|Encode(mode, body)|, v)
  {
    var bytes := Encode(mode, body);
    FindInEncoding(mode, body);
    match mode
    case Ndjson =>
      assert bytes[..|body|] == body;
      assert LineBody(bytes, |body|) == body;
    case ContentLength =>
      var text := HeaderText(|body|);
      assert bytes[..|text| + 4] == text + CRLF_CRLF;
      HeaderRoundTrip(|body|);
      assert bytes[|text| + 4..|text| + 4 + |body|] == body;
  }

  /** One encoded message at the front of any buffer is parsed back, consuming exactly its bytes. */
  lemma FrameRoundTrip<V>(mode: Mode, c: Codec<V>, body: Bytes, v: V, more: Bytes)
    requires Fits(mode, body) && c.decode(body) == Some(v)
    ensures Parse(mode, c, Encode(mode, body) + more) == Message(|Encode(mode, body)|, v)
  {
    EncodingParses(mode, c, body, v);
    ParseUnchangedByMore(mode, c, Encode(mode, body), more);
  }

  /** Every strict prefix of one encoded message is incomplete, never an error. */
  lemma StrictPrefixIncomplete<V>(mode: Mode, c: Codec<V>, body: Bytes, k: nat)
    requires Fits(mode, body) && k < |Encode(mode, body)|
    ensures Parse(mode, c, Encode(mode, body)[..k]) == NeedMore
  {
    var bytes := Encode(mode, body);
    FindInEncoding(mode, body);
    FindInPrefix(mode, bytes, k);
    if mode.ContentLength? {
      var text := HeaderText(|body|);
      DecimalIsShort(|body|);
      if k >= |text| + 4 {
        HeaderInPrefix(bytes, k, |text| + 4);
        assert bytes[..|text| + 4] == text + CRLF_CRLF;
        HeaderRoundTrip(|body|);
      }
    }
  }

  // ----------------------------------------------------------------- stream round trip

  datatype Sent<V> = Sent(body: Bytes, value: V)

  predicate Sendable<V>(mode: Mode, c: Codec<V>, m: Sent<V>) {
    Fits(mode, m.body) && !c.stops(m.value)
  }

  function Stream<V>(mode: Mode, ms: seq<Sent<V>>): Bytes {
    if ms == [] then [] else Encode(mode, ms[0].body) + Stream(mode, ms[1..])
  }

  function Delivered<V>(ms: seq<Sent<V>>): seq<Event<V>> {
    if ms == [] then [] else [Received(ms[0].value)] + Delivered(ms[1..])
  }

  lemma {:induction false} StreamDrains<V>(mode: Mode, c: Codec<V>, ms: seq<Sent<V>>)
    requires forall i :: 0 <= i < |ms| ==> Sendable(mode, c, ms[i]) && c.decode(ms[i].body) == Some(ms[i].value)
    ensures Drain(mode, c, Stream(mode, ms)) == Conn(Delivered(ms), [], true)
    ensures WithinCaps(mode, c, Stream(mode, ms))
  {
    if ms == [] {
      NothingYet(mode, c);
      FindFits(mode, []);
    } else {
      var frame, rest := Encode(mode, ms[0].body), Stream(mode, ms[1..]);
      assert Sendable(mode, c, ms[0]);
      StreamDrains(mode, c, ms[1..]);
      FrameRoundTrip(mode, c, ms[0].body, ms[0].value, rest);
      FindInEncoding(mode, ms[0].body);
      assert (frame + rest)[..|frame|] == frame && (frame + rest)[|frame|..] == rest;
      FindInPrefix(mode, frame + rest, |frame|);
      FindFits(mode, frame + rest);
      TerminatorIsEarly(mode, ms[0].body);
      EarlierTerminator(mode, frame, rest);
      hide Parse, Find, Encode;
    }
  }

  lemma EarlierTerminator(mode: Mode, frame: Bytes, rest: Bytes)
    requires Find(mode, frame).Some?
    ensures Find(mode, frame + rest) == Find(mode, frame)
  {
    FindFits(mode, frame);
    FindIsFirst(mode, frame, Find(mode, frame).value);
    var p := Find(mode, frame).value;
    var term := Terminator(mode);
    assert (frame + rest)[..|frame|] == frame;
    forall i: nat | i <= p ensures OccursAt(term, frame + rest, i) <==> OccursAt(term, frame, i) {
      OccursInPrefix(term, frame + rest, |frame|, i);
    }
    FindIsFirst(mode, frame + rest, p);
  }

  lemma TerminatorIsEarly(mode: Mode, body: Bytes)
    requires Fits(mode, body)
    ensures Find(mode, Encode(mode, body)).Some?
    ensures Find(mode, Encode(mode, body)).value + |Terminator(mode)| - 1 <= Cap(mode)
  {
    FindInEncoding(mode, body);
    DecimalIsShort(|body|);
  }

  /** What one side writes, the other side reads: any list of messages, encoded and chopped into
      reads in any way at all, is delivered as exactly that list with nothing left over. */
  lemma StreamRoundTrip<V>(mode: Mode, c: Codec<V>, ms: seq<Sent<V>>, chunks: seq<Bytes>)
    requires forall i :: 0 <= i < |ms| ==> Sendable(mode, c, ms[i]) && c.decode(ms[i].body) == Some(ms[i].value)
    requires Concat(chunks) == Stream(mode, ms)
    ensures FeedAll(mode, c, Opened(), chunks) == Conn(Delivered(ms), [], true)
  {
    StreamDrains(mode, c, ms);
    ChunkIndependenceExactly(mode, c, Stream(mode, ms));
  }
}
