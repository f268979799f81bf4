/**
 String-aware scanning of model text: the first balanced region and the blob length used to
 advance past a call. Text is one character per UTF-8 byte.
 */
module ToolScan {
  import opened Prelude

  const MAX_REPAIR_INPUT := 64 * 1024

  predicate IsOpener(c: char) {
    c == '{' || c == '['
  }

  predicate IsCloser(c: char) {
    c == '}' || c == ']'
  }

  // --------------------------------------------------------------- string-aware scanning

  datatype Scan = Scan(depth: int, inString: bool, escaped: bool)

  const START: Scan := Scan(0, false, false)

  function ScanStep(s: Scan, c: char): Scan {
    if s.inString then
      if s.escaped then s.(escaped := false)
      else if c == '\\' then s.(escaped := true)
      else if c == '"' then s.(inString := false)
      else s
    else if c == '"' then s.(inString := true)
    else if IsOpener(c) then s.(depth := s.depth + 1)
    else if IsCloser(c) then s.(depth := s.depth - 1)
    else s
  }

  /** The scanner after reading `text[from..k]`. */
  function After(text: string, from: nat, k: nat): Scan
    requires from <= k <= |text|
    decreases k
  {
    if k == from then START else ScanStep(After(text, from, k - 1), text[k - 1])
  }

  /** The character before `k` is a closing bracket outside strings that brings the depth to zero. */
  predicate ClosesAt(text: string, from: nat, k: nat)
    requires from < k <= |text|
  {
    !After(text, from, k - 1).inString && IsCloser(text[k - 1]) && After(text, from, k).depth == 0
  }

  function FirstOpener(text: string, i: nat): (r: Option<nat>)
    requires i <= |text|
    ensures match r
            case Some(p) => i <= p < |text| && IsOpener(text[p]) && forall j :: i <= j < p ==> !IsOpener(text[j])
            case None => forall j :: i <= j < |text| ==> !IsOpener(text[j])
    decreases |text| - i
  {
    if i == |text| then None else if IsOpener(text[i]) then Some(i) else FirstOpener(text, i + 1)
  }

  function FirstClose(text: string, from: nat, k: nat): (r: Option<nat>)
    requires from <= k <= |text|
    ensures match r
            case Some(e) => k < e <= |text| && ClosesAt(text, from, e) && forall j :: k < j < e ==> !ClosesAt(text, from, j)
            case None => forall j :: k < j <= |text| ==> !ClosesAt(text, from, j)
    decreases |text| - k
  {
    if k == |text| then None else if ClosesAt(text, from, k + 1) then Some(k + 1) else FirstClose(text, from, k + 1)
  }

  /** The first balanced region, as a pair of positions. */
  function Region(text: string): Option<Pair<nat, nat>> {
    match FirstOpener(text, 0)
    case None => None
    case Some(from) =>
      match FirstClose(text, from, from)
      case None => None
      case Some(end) => if end - from > MAX_REPAIR_INPUT then None else Some(Pair(from, end))
  }

  /** Until the first close after an opener, the depth stays positive. */
  lemma {:induction false} DepthStaysPositive(text: string, from: nat, k: nat)
    requires from < k <= |text| && IsOpener(text[from])
    requires forall j :: from < j < k ==> !ClosesAt(text, from, j)
    ensures After(text, from, k - 1).depth >= 0 && (k - 1 > from ==> After(text, from, k - 1).depth > 0)
    ensures ClosesAt(text, from, k) <==> After(text, from, k).depth == 0
    ensures !ClosesAt(text, from, k) ==> After(text, from, k).depth > 0
    decreases k
  {
    if k == from + 1 {
      assert After(text, from, from) == START;
    } else {
      DepthStaysPositive(text, from, k - 1);
      assert After(text, from, k) == ScanStep(After(text, from, k - 1), text[k - 1]);
    }
  }

  /** Whether `text[from..end]` is the shortest string-aware balanced region from the first opener. */
  ghost predicate ShortestBalanced(text: string, from: nat, end: nat) {
    && from < end <= |text|
    && IsOpener(text[from]) && (forall j :: 0 <= j < from ==> !IsOpener(text[j]))
    && DepthFirstZero(text, from, end)
  }

  lemma FirstCloseIs(text: string, from: nat, end: nat)
    requires from < end <= |text| && ClosesAt(text, from, end)
    requires forall j :: from < j < end ==> !ClosesAt(text, from, j)
    ensures FirstClose(text, from, from) == Some(end)
  {
    hide ClosesAt;
  }

  ghost predicate DepthFirstZero(text: string, from: nat, end: nat)
    requires from < end <= |text|
  {
    After(text, from, end).depth == 0 && forall k :: from < k < end ==> After(text, from, k).depth > 0
  }

  lemma {:induction false} FirstCloseHasDepthZero(text: string, from: nat, end: nat)
    requires from < end <= |text| && IsOpener(text[from]) && FirstClose(text, from, from) == Some(end)
    ensures DepthFirstZero(text, from, end)
  {
    assert ClosesAt(text, from, end) && forall j :: from < j < end ==> !ClosesAt(text, from, j);
    hide After, ClosesAt;
    DepthStaysPositive(text, from, end);
    forall k | from < k < end ensures After(text, from, k).depth > 0 { DepthStaysPositive(text, from, k); }
  }

  lemma {:induction false} DepthZeroIsFirstClose(text: string, from: nat, end: nat)
    requires from < end <= |text| && IsOpener(text[from]) && DepthFirstZero(text, from, end)
    ensures FirstClose(text, from, from) == Some(end)
  {
    hide After;
    forall j | from < j < end ensures !ClosesAt(text, from, j) { assert After(text, from, j).depth > 0; }
    DepthStaysPositive(text, from, end);
    FirstCloseIs(text, from, end);
  }

  lemma FirstOpenerIs(text: string, from: nat)
    requires from < |text| && IsOpener(text[from]) && forall j :: 0 <= j < from ==> !IsOpener(text[j])
    ensures FirstOpener(text, 0) == Some(from)
  {
  }

  /** The extractor returns exactly the shortest region, from the first opening bracket, whose
      string-aware depth returns to zero, provided it is not too long. */
  lemma {:induction false} RegionIsShortest(text: string, from: nat, end: nat)
    ensures Region(text) == Some(Pair(from, end)) <==> ShortestBalanced(text, from, end) && end - from <= MAX_REPAIR_INPUT
  {
    hide After, ClosesAt;
    if Region(text) == Some(Pair(from, end)) {
      FirstCloseHasDepthZero(text, from, end);
    }
    if ShortestBalanced(text, from, end) {
      FirstOpenerIs(text, from);
      assert DepthFirstZero(text, from, end);
      DepthZeroIsFirstClose(text, from, end);
    }
  }

  /** Outside strings the brackets of the region match in number, and it ends outside a string. */
  lemma RegionEndsOutsideStrings(text: string, from: nat, end: nat)
    requires Region(text) == Some(Pair(from, end))
    ensures After(text, from, end) == Scan(0, false, After(text, from, end).escaped) && IsCloser(text[end - 1])
  {
    assert ClosesAt(text, from, end);
    assert After(text, from, end) == ScanStep(After(text, from, end - 1), text[end - 1]);
  }

  method ExtractBalanced(text: string) returns (region: Option<Pair<nat, nat>>)
    ensures region == Region(text)
  {
    var start: Option<nat> := None;
    var i := 0;
    while i < |text|
      invariant i <= |text| && start == None && FirstOpener(text, i) == FirstOpener(text, 0)
    {
      if IsOpener(text[i]) {
        start := Some(i);
        break;
      }
      i := i + 1;
    }
    if start.None? { return None; }
    var from := start.value;
    var depth, inString, escaped, end := 0, false, false, |text|;
    for k := from to |text|
      invariant Scan(depth, inString, escaped) == After(text, from, k)
      invariant FirstClose(text, from, k) == FirstClose(text, from, from)
      invariant forall j :: from < j <= k ==> !ClosesAt(text, from, j)
      invariant end == |text| && (k > from ==> depth > 0)
    {
      var c := text[k];
      assert After(text, from, k + 1) == ScanStep(After(text, from, k), c);
      if inString {
        if escaped {
          escaped := false;
        } else if c == '\\' {
          escaped := true;
        } else if c == '"' {
          inString := false;
        }
        continue;
      }
      if c == '"' {
        inString := true;
      } else if IsOpener(c) {
        depth := depth + 1;
      } else if IsCloser(c) {
        depth := depth - 1;
        if depth == 0 {
          end := k + 1;
          break;
        }
      }
    }
    if depth != 0 { return None; }
    return if end - from > MAX_REPAIR_INPUT then None else Some(Pair(from, end));
  }

  // -------------------------------------------------------------------------- blob length

  /** How far to advance past a call: to the first close from the start of the text, or by the
      length of the serialized value. */
  function Blob(rest: string, serialized: nat): (n: nat)
    ensures n <= |rest| && (rest != "" && serialized >= 1 ==> n >= 1)
  {
    match FirstClose(rest, 0, 0)
    case Some(end) => end
    case None => if serialized < |rest| then serialized else |rest|
  }

  method BlobLen(rest: string, serialized: nat) returns (n: nat)
    ensures n == Blob(rest, serialized)
  {
    var depth, inString, escaped := 0, false, false;
    for k := 0 to |rest|
      invariant Scan(depth, inString, escaped) == After(rest, 0, k)
      invariant FirstClose(rest, 0, k) == FirstClose(rest, 0, 0)
    {
      var c := rest[k];
      assert After(rest, 0, k + 1) == ScanStep(After(rest, 0, k), c);
      if inString {
        if escaped {
          escaped := false;
        } else if c == '\\' {
          escaped := true;
        } else if c == '"' {
          inString := false;
        }
        continue;
      }
      if c == '"' {
        inString := true;
      } else if IsOpener(c) {
        depth := depth + 1;
      } else if IsCloser(c) {
        depth := depth - 1;
        if depth == 0 { return k + 1; }
      }
    }
    return if serialized < |rest| then serialized else |rest|;
  }

  lemma {:induction false} AfterFrom(text: string, from: nat, k: nat)
    requires from <= k <= |text| && After(text, 0, from) == START
    ensures After(text, 0, k) == After(text, from, k)
    decreases k
  {
    if k > from { AfterFrom(text, from, k - 1); }
  }

  lemma {:induction false} NoCloseInFront(text: string, from: nat, k: nat)
    requires k <= from <= |text| && forall j :: 0 <= j < from ==> !IsOpener(text[j])
    ensures After(text, 0, k).depth <= 0
    ensures k > 0 ==> !ClosesAt(text, 0, k)
    decreases k
  {
    if k > 0 { NoCloseInFront(text, from, k - 1); }
  }

  lemma {:induction false} CloseOfRegion(text: string, from: nat, end: nat)
    requires Region(text) == Some(Pair(from, end)) && After(text, 0, from) == START
    ensures FirstClose(text, 0, 0) == Some(end)
  {
    RegionIsShortest(text, from, end);
    assert ClosesAt(text, from, end);
    forall j | 0 < j < end ensures !ClosesAt(text, 0, j) {
      if j <= from {
        NoCloseInFront(text, from, j);
      } else {
        AfterFrom(text, from, j);
        AfterFrom(text, from, j - 1);
      }
    }
    AfterFrom(text, from, end);
    AfterFrom(text, from, end - 1);
    assert ClosesAt(text, 0, end);
    hide After, ClosesAt;
  }

  /** The two scanners agree: past prose that leaves the scanner in its start state (no open
      string, no stray closing bracket) the blob ends exactly where the extracted region ends. */
  lemma BlobEndsWithRegion(text: string, serialized: nat, from: nat, end: nat)
    requires Region(text) == Some(Pair(from, end)) && After(text, 0, from) == START
    ensures Blob(text, serialized) == end
  {
    CloseOfRegion(text, from, end);
  }

  /** Without escapes, a scanner that starts earlier keeps its difference in quote parity, and
      with equal parity its difference in depth. */
  lemma {:induction false} DifferenceKept(text: string, from: nat, k: nat)
    requires from <= k <= |text| && forall j :: 0 <= j < k ==> text[j] != '\\'
    ensures var early, late, gap := After(text, 0, k), After(text, from, k), After(text, 0, from);
            && !early.escaped && !late.escaped
            && early.inString == (late.inString != gap.inString)
            && (!gap.inString ==> early.depth == gap.depth + late.depth)
    decreases k
  {
    if k > from {
      DifferenceKept(text, from, k - 1);
    } else {
      NoEscape(text, from);
    }
  }

  lemma {:induction false} NoEscape(text: string, k: nat)
    requires k <= |text| && forall j :: 0 <= j < k ==> text[j] != '\\'
    ensures !After(text, 0, k).escaped
  {
    if k > 0 { NoEscape(text, k - 1); }
  }

  /** The condition is the exact one for text without backslashes: the blob scanner closes where
      the region ends if and only if the prose leaves it in its start state. */
  lemma {:induction false} BlobEndsWithRegionExactly(text: string, from: nat, end: nat)
    requires Region(text) == Some(Pair(from, end)) && forall j :: 0 <= j < end ==> text[j] != '\\'
    ensures FirstClose(text, 0, 0) == Some(end) <==> After(text, 0, from) == START
  {
    if After(text, 0, from) == START {
      CloseOfRegion(text, from, end);
    } else {
      assert ClosesAt(text, from, end);
      DifferenceKept(text, from, end - 1);
      DifferenceKept(text, from, end);
      NoEscape(text, from);
      assert FirstClose(text, 0, 0) == Some(end) ==> ClosesAt(text, 0, end);
      hide After;
    }
  }

  /** A backslash may bring the parities together again, since only a scanner inside a string
      reads it as an escape: here prose that opens a string, and yet the same end. */
  lemma EscapeRestoresParity(text: string)
    requires text == ['"', '{', '"', '[', '\\', '"', '"', '}']
    ensures Region(text) == Some(Pair(1, 8)) && FirstClose(text, 0, 0) == Some(8) && After(text, 0, 1) != START
  {
    assert After(text, 0, 0) == START == After(text, 1, 1);
    assert After(text, 0, 1) == After(text, 0, 2) == Scan(0, true, false) && After(text, 1, 2) == Scan(1, false, false);
    assert After(text, 0, 3) == Scan(0, false, false) && After(text, 1, 3) == After(text, 1, 4) == Scan(1, true, false);
    assert After(text, 0, 4) == After(text, 0, 5) == Scan(1, false, false) && After(text, 1, 5) == Scan(1, true, true);
    assert After(text, 0, 6) == Scan(1, true, false) && After(text, 1, 6) == Scan(1, true, false);
    assert After(text, 0, 7) == Scan(1, false, false) == After(text, 1, 7);
    assert After(text, 0, 8) == Scan(0, false, false) == After(text, 1, 8);
    forall j | 0 < j < 8 ensures !ClosesAt(text, 0, j) {}
    assert ClosesAt(text, 0, 8);
    hide After, ClosesAt;
    RegionIsShortest(text, 1, 8);
  }

  /** In particular on text that starts with an opening bracket. */
  lemma BlobOfOpener(text: string, serialized: nat, end: nat)
    requires text != "" && IsOpener(text[0]) && Region(text) == Some(Pair(0, end))
    ensures Blob(text, serialized) == end
  {
    BlobEndsWithRegion(text, serialized, 0, end);
  }

  lemma NeverClosed(text: string, from: nat)
    requires from < |text| && text[from] == '"'
    requires forall j :: 0 <= j < from ==> text[j] != '"' && !IsOpener(text[j]) && !IsCloser(text[j])
    requires forall j :: from < j < |text| ==> text[j] != '"' && text[j] != '\\'
    ensures FirstClose(text, 0, 0) == None
  {
    forall j | 0 < j <= |text| ensures !ClosesAt(text, 0, j) {
      OutsideString(text, 0, 0, if j <= from then j - 1 else from);
      if j > from + 1 { InsideString(text, 0, from + 1, j - 1); }
    }
    hide ClosesAt;
  }

  /** An instance with an open quotation mark in front: the region is found, but the blob scanner,
      which takes it for a string, never closes. */
  lemma BlobAstray(text: string)
    requires text == "tool_call\":{}"
    ensures Region(text) == Some(Pair(11, 13)) && Blob(text, 2) == 2
  {
    NeverClosed(text, 9);
    assert |text| == 13 && text[11] == '{' && text[12] == '}' && forall j :: 0 <= j < 11 ==> !IsOpener(text[j]);
    assert After(text, 11, 11) == START;
    assert After(text, 11, 12) == Scan(1, false, false);
    assert After(text, 11, 13) == Scan(0, false, false);
    hide After;
    RegionIsShortest(text, 11, 13);
  }

  lemma {:induction false} InsideString(text: string, from: nat, i: nat, k: nat)
    requires from <= i <= k <= |text| && After(text, from, i).inString && !After(text, from, i).escaped
    requires forall j :: i <= j < k ==> text[j] != '"' && text[j] != '\\'
    ensures After(text, from, k) == After(text, from, i)
  {
    if k > i { InsideString(text, from, i, k - 1); }
  }

  lemma {:induction false} OutsideString(text: string, from: nat, i: nat, k: nat)
    requires from <= i <= k <= |text| && !After(text, from, i).inString
    requires forall j :: i <= j < k ==> text[j] != '"' && !IsOpener(text[j]) && !IsCloser(text[j])
    ensures After(text, from, k) == After(text, from, i)
  {
    if k > i { OutsideString(text, from, i, k - 1); }
  }

  lemma AfterNext(text: string, from: nat, k: nat)
    requires from <= k < |text|
    ensures After(text, from, k + 1) == ScanStep(After(text, from, k), text[k])
  {
  }
}
