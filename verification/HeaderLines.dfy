/** What the header of a frame declares, said of its lines and without reading them in order. */
module HeaderLines {
  import opened Prelude
  import opened Framing
  import opened FrameCodec
  import opened FramePrinter

  // --------------------------------------------------------------------------- trimming

  lemma {:induction false} TrimStartParts(s: Bytes) returns (lead: Bytes)
    ensures s == lead + TrimStart(s) && AllSpace(lead) && (TrimStart(s) == [] || !IsSpace(TrimStart(s)[0]))
  {
    if s != [] && IsSpace(s[0]) {
      var more := TrimStartParts(s[1..]);
      lead := [s[0]] + more;
      assert s == [s[0]] + s[1..] && lead + TrimStart(s) == [s[0]] + (more + TrimStart(s));
    } else {
      lead := [];
    }
  }

  lemma {:induction false} TrimEndParts(s: Bytes) returns (tail: Bytes)
    ensures s == TrimEnd(s) + tail && AllSpace(tail) && (TrimEnd(s) == [] || !IsSpace(Last(TrimEnd(s))))
  {
    if s != [] && IsSpace(Last(s)) {
      var more := TrimEndParts(Front(s));
      tail := more + [Last(s)];
      assert s == Front(s) + [Last(s)] && TrimEnd(s) + tail == (TrimEnd(s) + more) + [Last(s)];
    } else {
      tail := [];
    }
  }

  lemma TrimParts(s: Bytes) returns (lead: Bytes, tail: Bytes)
    ensures s == lead + Trim(s) + tail && AllSpace(lead) && AllSpace(tail)
    ensures Trim(s) == [] || (!IsSpace(Trim(s)[0]) && !IsSpace(Last(Trim(s))))
  {
    lead := TrimStartParts(s);
    tail := TrimEndParts(TrimStart(s));
    assert lead + (Trim(s) + tail) == lead + Trim(s) + tail;
    assert Trim(s) != [] ==> Trim(s)[0] == TrimStart(s)[0];
  }

  lemma {:induction false} TrimStartOf(lead: Bytes, t: Bytes)
    requires AllSpace(lead)
    ensures TrimStart(lead + t) == TrimStart(t)
  {
    if lead == [] {
      assert lead + t == t;
    } else {
      assert (lead + t)[1..] == lead[1..] + t;
      TrimStartOf(lead[1..], t);
    }
  }

  lemma {:induction false} TrimEndOf(t: Bytes, tail: Bytes)
    requires AllSpace(tail)
    ensures TrimEnd(t + tail) == TrimEnd(t)
    decreases |tail|
  {
    if tail == [] {
      assert t + tail == t;
    } else {
      assert Front(t + tail) == t + Front(tail) && Last(t + tail) == Last(tail);
      TrimEndOf(t, Front(tail));
    }
  }

  /** Trimming finds the one piece whose ends are not white space. */
  lemma TrimIs(lead: Bytes, core: Bytes, tail: Bytes)
    requires AllSpace(lead) && AllSpace(tail) && core != [] && !IsSpace(core[0]) && !IsSpace(Last(core))
    ensures Trim(lead + core + tail) == core
  {
    assert lead + core + tail == lead + (core + tail) && (core + tail)[0] == core[0];
    TrimStartOf(lead, core + tail);
    TrimEndOf(core, tail);
  }

  lemma TrimOfSpace(s: Bytes)
    ensures Trim(s) == [] <==> AllSpace(s)
  {
    var lead, tail := TrimParts(s);
    assert Trim(s) != [] ==> |lead| < |s| && s[|lead|] == Trim(s)[0];
    assert Trim(s) == [] ==> s == lead + tail;
    hide Trim;
  }

  /** White space behind does not matter. */
  lemma TrimTail(t: Bytes, tail: Bytes)
    requires AllSpace(tail)
    ensures Trim(t + tail) == Trim(t)
  {
    TrimOfSpace(t);
    TrimOfSpace(t + tail);
    if !AllSpace(t) {
      var lead, end := TrimParts(t);
      assert t + tail == lead + Trim(t) + (end + tail);
      TrimIs(lead, Trim(t), end + tail);
    } else {
      assert AllSpace(t + tail);
    }
  }

  // ---------------------------------------------------------------------- a single line

  ghost predicate SplitsAs(raw: Bytes, lead: Bytes, name: Bytes, rest: Bytes) {
    raw == lead + name + [COLON] + rest && AllSpace(lead) && NamesLength(name)
  }

  /** White space, then Content-Length in any letter case, and a colon right behind it. */
  ghost predicate LengthNamed(raw: Bytes) {
    exists lead, name, rest :: SplitsAs(raw, lead, name, rest)
  }

  /** The value of a line: the number behind the first colon. */
  function LineValue(raw: Bytes): Option<nat> {
    match IndexOf(raw, COLON, 0)
    case None => None
    case Some(colon) => ParseU64(TrimUnicode(Trim(raw[colon + 1..])))
  }

  lemma NameBytes(name: Bytes)
    requires NamesLength(name)
    ensures name != [] && !IsSpace(name[0]) && COLON !in name
  {
    forall i | 0 <= i < |name| ensures name[i] != COLON { assert Lower(name[i]) == LENGTH_NAME[i]; }
    assert Lower(name[0]) == LENGTH_NAME[0];
  }

  lemma IndexOfIs(s: Bytes, b: Byte, p: nat)
    requires p < |s| && s[p] == b && forall j :: 0 <= j < p ==> s[j] != b
    ensures IndexOf(s, b, 0) == Some(p)
  {
  }

  /** The same decomposition of a line that is not blank, from the raw and from the trimmed line. */
  lemma ColonOfTrimmed(raw: Bytes, lead: Bytes, line: Bytes, tail: Bytes)
    requires raw == lead + line + tail && AllSpace(lead) && AllSpace(tail)
    ensures COLON in line <==> COLON in raw
    ensures COLON in line ==>
              var c := IndexOf(line, COLON, 0).value;
              && IndexOf(line, COLON, 0).Some? && IndexOf(raw, COLON, 0) == Some(|lead| + c)
              && raw[|lead| + c + 1..] == line[c + 1..] + tail
  {
    if COLON in line {
      var k :| 0 <= k < |line| && line[k] == COLON;
      var c := IndexOf(line, COLON, 0).value;
      assert raw[|lead| + c] == line[c];
      forall j | 0 <= j < |lead| + c ensures raw[j] != COLON {
        if j < |lead| { assert IsSpace(lead[j]); } else { assert raw[j] == line[j - |lead|]; }
      }
      IndexOfIs(raw, COLON, |lead| + c);
    } else {
      forall j | 0 <= j < |raw| ensures raw[j] != COLON {
        if j < |lead| {
          assert IsSpace(lead[j]);
        } else if j < |lead| + |line| {
          assert raw[j] == line[j - |lead|] && line[j - |lead|] in line;
        } else {
          assert IsSpace(tail[j - |lead| - |line|]);
        }
      }
    }
  }

  /** What stands in front of the first colon, if a name does. */
  lemma NameBeforeColon(raw: Bytes, lead: Bytes, name: Bytes, rest: Bytes)
    requires SplitsAs(raw, lead, name, rest)
    ensures |lead| + |name| < |raw| && IndexOf(raw, COLON, 0) == Some(|lead| + |name|)
    ensures name != [] && !IsSpace(name[0]) && lead + [name[0]] <= raw && raw[|lead|..|lead| + |name|] == name
  {
    NameBytes(name);
    var p := |lead| + |name|;
    assert raw[p] == COLON && raw[|lead|..p] == name && raw[|lead|] == name[0];
    forall j | 0 <= j < p ensures raw[j] != COLON {
      if j < |lead| { assert IsSpace(lead[j]); } else { assert raw[j] == name[j - |lead|]; }
    }
    hide NamesLength;
    IndexOfIs(raw, COLON, p);
  }

  lemma TrimmedNames(raw: Bytes, lead: Bytes, line: Bytes, tail: Bytes, c: nat)
    requires raw == lead + line + tail && AllSpace(lead) && c < |line| && line[c] == COLON && NamesLength(line[..c])
    ensures LengthNamed(raw)
  {
    hide NamesLength, AllSpace;
    var rest := line[c + 1..] + tail;
    assert line == line[..c] + [COLON] + line[c + 1..];
    assert raw == lead + line[..c] + [COLON] + rest;
    assert SplitsAs(raw, lead, line[..c], rest);
  }

  lemma NamesTrimmed(raw: Bytes, lead: Bytes, line: Bytes, c: nat)
    requires lead + line <= raw && AllSpace(lead) && c < |line| && !IsSpace(line[0])
    requires LengthNamed(raw) && IndexOf(raw, COLON, 0) == Some(|lead| + c)
    ensures NamesLength(line[..c])
  {
    hide NamesLength, IndexOf, AllSpace;
    var lead', name, rest :| SplitsAs(raw, lead', name, rest);
    NameBeforeColon(raw, lead', name, rest);
    assert lead + [line[0]] <= raw;
    SameLead(raw, lead, lead', line[0], name[0]);
    assert line[..c] == raw[|lead|..|lead| + c];
  }

  lemma NamedWhenTrimmed(raw: Bytes, lead: Bytes, line: Bytes, tail: Bytes)
    requires raw == lead + line + tail && AllSpace(lead) && AllSpace(tail) && line != [] && !IsSpace(line[0]) && COLON in line
    ensures LengthNamed(raw) <==> NamesLength(line[..IndexOf(line, COLON, 0).value])
  {
    ColonOfTrimmed(raw, lead, line, tail);
    var c := IndexOf(line, COLON, 0).value;
    hide NamesLength, IndexOf, AllSpace, LengthNamed, IsSpace;
    if NamesLength(line[..c]) { TrimmedNames(raw, lead, line, tail, c); }
    if LengthNamed(raw) { NamesTrimmed(raw, lead, line, c); }
  }

  lemma SameLead(raw: Bytes, a: Bytes, b: Bytes, x: Byte, y: Byte)
    requires AllSpace(a) && AllSpace(b) && !IsSpace(x) && !IsSpace(y) && a + [x] <= raw && b + [y] <= raw
    ensures |a| == |b|
  {
    assert raw[|a|] == (a + [x])[|a|] == x && raw[|b|] == (b + [y])[|b|] == y;
    assert forall j :: 0 <= j < |a| ==> raw[j] == (a + [x])[j] == a[j];
    assert forall j :: 0 <= j < |b| ==> raw[j] == (b + [y])[j] == b[j];
  }

  /** What one line does to the header read so far. */
  lemma LineMeans(h: Header, raw: Bytes)
    ensures HeaderLine(h, raw)
         == if h.BadHeader? || AllSpace(raw) then h
            else if h.lines == MAX_HEADER_LINES || h.lines > MAX_HEADER_LINES || COLON !in raw then BadHeader
            else if !LengthNamed(raw) then h.(lines := h.lines + 1)
            else if h.length.Some? || LineValue(raw).None? then BadHeader
            else Header(h.lines + 1, LineValue(raw))
  {
    hide Trim, TrimUnicode, ParseU64, NamesLength, AllSpace, LengthNamed, IsSpace;
    var lead, tail := TrimParts(raw);
    var line := Trim(raw);
    TrimOfSpace(raw);
    if line != [] {
      ColonOfTrimmed(raw, lead, line, tail);
      if COLON in line {
        NamedWhenTrimmed(raw, lead, line, tail);
        TrimTail(line[IndexOf(line, COLON, 0).value + 1..], tail);
      }
    }
  }

  // ---------------------------------------------------------------------- all the lines

  predicate IsLine(line: Bytes) {
    CR !in line && LF !in line
  }

  predicate Separates(b: Byte) {
    b == CR || b == LF
  }

  /** A header as its lines with one separator between each and the next. */
  function Joined(lines: seq<Bytes>, seps: Bytes): Bytes
    requires |lines| == |seps| + 1
  {
    if seps == [] then lines[0] else lines[0] + [seps[0]] + Joined(lines[1..], seps[1..])
  }

  function FoldLines(h: Header, lines: seq<Bytes>): Header
    decreases |lines|
  {
    if lines == [] then h else FoldLines(HeaderLine(h, lines[0]), lines[1..])
  }

  lemma {:induction false} FoldLast(h: Header, lines: seq<Bytes>, line: Bytes)
    ensures FoldLines(h, lines + [line]) == HeaderLine(FoldLines(h, lines), line)
    decreases |lines|
  {
    hide HeaderLine;
    if lines == [] {
      var none: seq<Bytes> := [];
      assert [line][1..] == none && [] + [line] == [line];
      assert FoldLines(HeaderLine(h, line), none) == HeaderLine(h, line);
    } else {
      assert (lines + [line])[1..] == lines[1..] + [line];
      FoldLast(HeaderLine(h, lines[0]), lines[1..], line);
    }
  }

  lemma {:induction false} JoinedFolds(h: Header, before: Bytes, lines: seq<Bytes>, seps: Bytes)
    requires |lines| == |seps| + 1 && (forall i :: 0 <= i < |lines| ==> IsLine(lines[i]))
    requires forall i :: 0 <= i < |seps| ==> Separates(seps[i])
    ensures HeaderFrom(h, before + Joined(lines, seps), |before|, |before|) == FoldLines(h, lines)
    decreases |lines|
  {
    hide HeaderLine;
    var header, from, to := before + Joined(lines, seps), |before|, |before| + |lines[0]|;
    assert IsLine(lines[0]);
    forall k | from <= k < to ensures header[k] != CR && header[k] != LF {
      assert header[k] == lines[0][k - from] && lines[0][k - from] in lines[0];
    }
    SkipToSeparator(h, header, from, from, to);
    assert header[from..to] == lines[0];
    if seps == [] {
      assert to == |header| && header[from..] == lines[0];
      var none: seq<Bytes> := [];
      assert lines[1..] == none;
      assert FoldLines(HeaderLine(h, lines[0]), none) == HeaderLine(h, lines[0]);
    } else {
      var passed := before + lines[0] + [seps[0]];
      assert header == passed + Joined(lines[1..], seps[1..]) && header[to] == seps[0] && |passed| == to + 1;
      assert Separates(seps[0]);
      assert HeaderFrom(h, header, from, to) == HeaderFrom(HeaderLine(h, lines[0]), header, to + 1, to + 1);
      JoinedFolds(HeaderLine(h, lines[0]), passed, lines[1..], seps[1..]);
    }
  }

  /** Every header is made of lines in this way. */
  lemma {:induction false} EveryHeaderJoins(header: Bytes) returns (lines: seq<Bytes>, seps: Bytes)
    ensures |lines| == |seps| + 1 && (forall i :: 0 <= i < |lines| ==> IsLine(lines[i]))
    ensures forall i :: 0 <= i < |seps| ==> Separates(seps[i])
    ensures header == Joined(lines, seps)
  {
    if header == [] {
      lines, seps := [[]], [];
    } else {
      var more, others := EveryHeaderJoins(header[1..]);
      if Separates(header[0]) {
        lines, seps := [[]] + more, [header[0]] + others;
        assert lines[1..] == more && seps[1..] == others;
        assert header == [] + [header[0]] + header[1..];
      } else {
        lines, seps := [[header[0]] + more[0]] + more[1..], others;
        assert IsLine(more[0]);
        assert lines[1..] == more[1..] && header == [header[0]] + header[1..];
        if others != [] {
          assert [header[0]] + (more[0] + [others[0]] + Joined(more[1..], others[1..]))
              == ([header[0]] + more[0]) + [others[0]] + Joined(more[1..], others[1..]);
        }
      }
    }
  }

  function NonBlank(lines: seq<Bytes>): nat {
    if lines == [] then 0 else NonBlank(Front(lines)) + (if AllSpace(Last(lines)) then 0 else 1)
  }

  /** At most 64 lines that are not blank, each with a colon. */
  ghost predicate Fine(lines: seq<Bytes>) {
    NonBlank(lines) <= MAX_HEADER_LINES && forall i :: 0 <= i < |lines| && !AllSpace(lines[i]) ==> COLON in lines[i]
  }

  ghost predicate NoLength(lines: seq<Bytes>) {
    forall i :: 0 <= i < |lines| ==> !LengthNamed(lines[i])
  }

  ghost predicate LengthAt(lines: seq<Bytes>, k: nat, n: nat) {
    && k < |lines| && LengthNamed(lines[k]) && LineValue(lines[k]) == Some(n)
    && forall j :: 0 <= j < |lines| && j != k ==> !LengthNamed(lines[j])
  }

  /** Exactly one line names Content-Length, and its value is `n`. */
  ghost predicate OneLength(lines: seq<Bytes>, n: nat) {
    exists k: nat :: LengthAt(lines, k, n)
  }

  ghost predicate Summary(h: Header, lines: seq<Bytes>) {
    match h
    case Header(count, length) =>
      Fine(lines) && count == NonBlank(lines) && (if length.None? then NoLength(lines) else OneLength(lines, length.value))
    case BadHeader => !Fine(lines) || (!NoLength(lines) && forall n: nat :: !OneLength(lines, n))
  }

  lemma LengthIsNotBlank(raw: Bytes)
    ensures LengthNamed(raw) ==> !AllSpace(raw) && COLON in raw
  {
    if LengthNamed(raw) {
      var lead, name, rest :| SplitsAs(raw, lead, name, rest);
      NameBytes(name);
      assert raw[|lead|] == name[0] && raw[|lead| + |name|] == COLON;
    }
  }

  lemma FineMore(lines: seq<Bytes>, line: Bytes)
    ensures NonBlank(lines + [line]) == NonBlank(lines) + (if AllSpace(line) then 0 else 1)
    ensures Fine(lines + [line])
       <==> Fine(lines) && (AllSpace(line) || (NonBlank(lines) < MAX_HEADER_LINES && COLON in line))
  {
    var more := lines + [line];
    assert Front(more) == lines && Last(more) == line && more[|lines|] == line;
    assert forall i :: 0 <= i < |lines| ==> more[i] == lines[i];
    hide AllSpace;
  }

  lemma NoLengthMore(lines: seq<Bytes>, line: Bytes)
    ensures NoLength(lines + [line]) <==> NoLength(lines) && !LengthNamed(line)
  {
    var more := lines + [line];
    assert more[|lines|] == line && forall i :: 0 <= i < |lines| ==> more[i] == lines[i];
    hide LengthNamed;
  }

  lemma OneLengthMore(lines: seq<Bytes>, line: Bytes, n: nat)
    ensures OneLength(lines + [line], n)
       <==> (OneLength(lines, n) && !LengthNamed(line)) || (NoLength(lines) && LengthNamed(line) && LineValue(line) == Some(n))
  {
    var more := lines + [line];
    assert more[|lines|] == line && forall i :: 0 <= i < |lines| ==> more[i] == lines[i];
    hide LengthNamed, LineValue;
    if OneLength(more, n) {
      var k: nat :| LengthAt(more, k, n);
      if k < |lines| { assert LengthAt(lines, k, n); }
    }
    if OneLength(lines, n) && !LengthNamed(line) {
      var k: nat :| LengthAt(lines, k, n);
      assert LengthAt(more, k, n);
    }
    if NoLength(lines) && LengthNamed(line) && LineValue(line) == Some(n) { assert LengthAt(more, |lines|, n); }
  }

  lemma OneIsSome(lines: seq<Bytes>, n: nat)
    requires OneLength(lines, n)
    ensures !NoLength(lines) && forall m: nat :: OneLength(lines, m) ==> m == n
  {
    hide LengthNamed, LineValue;
    var k: nat :| LengthAt(lines, k, n);
    forall m: nat | OneLength(lines, m) ensures m == n {
      var j: nat :| LengthAt(lines, j, m);
    }
  }

  lemma SummaryMore(h: Header, lines: seq<Bytes>, line: Bytes)
    requires Summary(h, lines)
    ensures Summary(HeaderLine(h, line), lines + [line])
  {
    LineMeans(h, line);
    LengthIsNotBlank(line);
    FineMore(lines, line);
    NoLengthMore(lines, line);
    forall n: nat ensures OneLength(lines + [line], n) <==>
      (OneLength(lines, n) && !LengthNamed(line)) || (NoLength(lines) && LengthNamed(line) && LineValue(line) == Some(n))
    {
      OneLengthMore(lines, line, n);
    }
    if h.Header? && h.length.Some? { OneIsSome(lines, h.length.value); }
    hide HeaderLine, LengthNamed, LineValue, Fine, NoLength, OneLength, NonBlank, AllSpace;
  }

  lemma {:induction false} SummaryOfAll(lines: seq<Bytes>)
    ensures Summary(FoldLines(Header(0, None), lines), lines)
  {
    if lines != [] {
      SummaryOfAll(Front(lines));
      FoldLast(Header(0, None), Front(lines), Last(lines));
      hide Summary, HeaderLine, FoldLines;
      SummaryMore(FoldLines(Header(0, None), Front(lines)), Front(lines), Last(lines));
      assert lines == Front(lines) + [Last(lines)];
    }
  }

  /** The header declares length `n` exactly if it has at most 64 lines that are not blank, each of
      them has a colon, exactly one names Content-Length, in any letter case, and the value of that
      line is `n`, within the bound. It is too large under the same condition beyond the bound, and
      malformed otherwise. All other headers are ignored. */
  lemma HeaderMeans(lines: seq<Bytes>, seps: Bytes, n: nat)
    requires |lines| == |seps| + 1 && (forall i :: 0 <= i < |lines| ==> IsLine(lines[i]))
    requires forall i :: 0 <= i < |seps| ==> Separates(seps[i])
    ensures var declared := DeclaredLength(Joined(lines, seps));
            && (declared == Length(n) <==> Fine(lines) && OneLength(lines, n) && n <= MAX_FRAME_BYTES)
            && (declared == TooLarge <==> Fine(lines) && exists m: nat :: OneLength(lines, m) && m > MAX_FRAME_BYTES)
            && (declared == Malformed <==> !Fine(lines) || forall m: nat :: !OneLength(lines, m))
  {
    JoinedFolds(Header(0, None), [], lines, seps);
    assert [] + Joined(lines, seps) == Joined(lines, seps);
    SummaryOfAll(lines);
    var h := FoldLines(Header(0, None), lines);
    if h.Header? {
      if h.length.Some? { OneIsSome(lines, h.length.value); } else { NoneIsOne(lines); }
    }
    hide FoldLines, HeaderFrom, Fine, NoLength, OneLength, NonBlank;
  }

  lemma NoneIsOne(lines: seq<Bytes>)
    requires NoLength(lines)
    ensures forall m: nat :: !OneLength(lines, m)
  {
    hide LengthNamed, LineValue;
  }
}
