/**
 The two wire framings: newline-delimited JSON and `Content-Length` headers (Language Server
 Protocol 3.17, section "Base Protocol"). JSON itself is an arbitrary decoder.
 */
module Framing {
  import opened Prelude

  type Byte = b: int | 0 <= b < 256
  type Bytes = seq<Byte>

  datatype Mode = Ndjson | ContentLength

  const MAX_FRAME_BYTES := 16 * 1024 * 1024
  const MAX_HEADER_BYTES := 16 * 1024
  const MAX_HEADER_LINES := 64
  const U64_MAX := 0xffff_ffff_ffff_ffff

  const LF: Byte := 10
  const CR: Byte := 13
  const SPACE: Byte := 32
  const COLON: Byte := 58
  const OPEN_BRACE: Byte := 123
  const OPEN_BRACKET: Byte := 91

  function Terminator(mode: Mode): Bytes {
    match mode case Ndjson => [LF] case ContentLength => [CR, LF, CR, LF]
  }

  function Cap(mode: Mode): nat {
    match mode case Ndjson => MAX_FRAME_BYTES case ContentLength => MAX_HEADER_BYTES
  }

  // ------------------------------------------------------------ locating a terminator

  predicate OccursAt(term: Bytes, bytes: Bytes, i: nat) {
    i + |term| <= |bytes| && bytes[i..i + |term|] == term
  }

  function FindFrom(term: Bytes, bytes: Bytes, i: nat): Option<nat>
    decreases |bytes| - i
  {
    if i + |term| > |bytes| then None
    else if OccursAt(term, bytes, i) then Some(i)
    else FindFrom(term, bytes, i + 1)
  }

  function Find(mode: Mode, bytes: Bytes): Option<nat> {
    FindFrom(Terminator(mode), bytes, 0)
  }

  lemma {:induction false} FindFromFirst(term: Bytes, bytes: Bytes, i: nat)
    ensures match FindFrom(term, bytes, i)
            case Some(p) => i <= p && OccursAt(term, bytes, p) && forall j :: i <= j < p ==> !OccursAt(term, bytes, j)
            case None => forall j :: i <= j ==> !OccursAt(term, bytes, j)
    decreases |bytes| - i
  {
    if i + |term| <= |bytes| && !OccursAt(term, bytes, i) { FindFromFirst(term, bytes, i + 1); }
  }

  /** The position found is the first occurrence, and nothing is found only if there is none. */
  lemma FindIsFirst(mode: Mode, bytes: Bytes, p: nat)
    ensures Find(mode, bytes) == Some(p)
       <==> OccursAt(Terminator(mode), bytes, p) && forall j :: 0 <= j < p ==> !OccursAt(Terminator(mode), bytes, j)
    ensures Find(mode, bytes) == None <==> forall j: nat :: !OccursAt(Terminator(mode), bytes, j)
  {
    FindFromFirst(Terminator(mode), bytes, 0);
  }

  lemma OccursInPrefix(term: Bytes, bytes: Bytes, m: nat, i: nat)
    requires m <= |bytes| && i + |term| <= m
    ensures OccursAt(term, bytes[..m], i) <==> OccursAt(term, bytes, i)
  {
    assert bytes[..m][i..i + |term|] == bytes[i..i + |term|];
  }

  lemma OccursFirst(term: Bytes, bytes: Bytes, j: nat)
    requires j < |bytes| && term != []
    ensures OccursAt(term, bytes, j) ==> bytes[j] == term[0]
  {
    if j + |term| <= |bytes| { assert bytes[j..j + |term|][0] == bytes[j]; }
  }

  /** Cutting a buffer anywhere after its first terminator does not move the terminator. */
  lemma FindInPrefix(mode: Mode, bytes: Bytes, m: nat)
    requires m <= |bytes|
    ensures match Find(mode, bytes)
            case Some(p) => Find(mode, bytes[..m]) == if p + |Terminator(mode)| <= m then Some(p) else None
            case None => Find(mode, bytes[..m]) == None
  {
    var term := Terminator(mode);
    FindFromFirst(term, bytes, 0);
    FindFromFirst(term, bytes[..m], 0);
    forall i: nat | i + |term| <= m ensures OccursAt(term, bytes[..m], i) <==> OccursAt(term, bytes, i) {
      OccursInPrefix(term, bytes, m, i);
    }
    hide OccursAt;
  }

  // ----------------------------------------------------------------------- header lines

  predicate IsSpace(b: Byte) {
    b == 32 || b == 9 || b == 10 || b == 12 || b == 13
  }

  function TrimStart(s: Bytes): Bytes {
    if s != [] && IsSpace(s[0]) then TrimStart(s[1..]) else s
  }

  function TrimEnd(s: Bytes): Bytes {
    if s != [] && IsSpace(Last(s)) then TrimEnd(Front(s)) else s
  }

  function Trim(s: Bytes): Bytes {
    TrimEnd(TrimStart(s))
  }

  /** The UTF-8 encodings of Unicode white space, which string trimming removes. */
  const UNICODE_SPACES: seq<Bytes> := [
    [9], [10], [11], [12], [13], [32], [0xC2, 0x85], [0xC2, 0xA0], [0xE1, 0x9A, 0x80],
    [0xE2, 0x80, 0x80], [0xE2, 0x80, 0x81], [0xE2, 0x80, 0x82], [0xE2, 0x80, 0x83], [0xE2, 0x80, 0x84],
    [0xE2, 0x80, 0x85], [0xE2, 0x80, 0x86], [0xE2, 0x80, 0x87], [0xE2, 0x80, 0x88], [0xE2, 0x80, 0x89],
    [0xE2, 0x80, 0x8A], [0xE2, 0x80, 0xA8], [0xE2, 0x80, 0xA9], [0xE2, 0x80, 0xAF], [0xE2, 0x81, 0x9F],
    [0xE3, 0x80, 0x80]]

  /** The length of the white-space character at the front (back) of `s`, or 0. */
  function SpaceAtFront(s: Bytes, k: nat): (n: nat)
    requires k <= |UNICODE_SPACES|
    ensures n <= |s|
    decreases |UNICODE_SPACES| - k
  {
    if k == |UNICODE_SPACES| then 0
    else if UNICODE_SPACES[k] <= s then |UNICODE_SPACES[k]|
    else SpaceAtFront(s, k + 1)
  }

  function SpaceAtBack(s: Bytes, k: nat): (n: nat)
    requires k <= |UNICODE_SPACES|
    ensures n <= |s|
    decreases |UNICODE_SPACES| - k
  {
    if k == |UNICODE_SPACES| then 0
    else if |UNICODE_SPACES[k]| <= |s| && s[|s| - |UNICODE_SPACES[k]|..] == UNICODE_SPACES[k] then |UNICODE_SPACES[k]|
    else SpaceAtBack(s, k + 1)
  }

  function TrimUnicode(s: Bytes): Bytes
    decreases |s|
  {
    var front := SpaceAtFront(s, 0);
    if front > 0 then TrimUnicode(s[front..])
    else
      var back := SpaceAtBack(s, 0);
      if back > 0 then TrimUnicode(s[..|s| - back]) else s
  }

  predicate IsDigit(b: Byte) {
    48 <= b <= 57
  }

  function DigitsValue(s: Bytes): nat
    requires forall i :: 0 <= i < |s| ==> IsDigit(s[i])
  {
    if s == [] then 0
    else
      assert IsDigit(s[|s| - 1]);
      DigitsValue(s[..|s| - 1]) * 10 + (s[|s| - 1] as int - 48)
  }

  /** Parsing an unsigned 64-bit number: an optional plus sign, then at least one digit. */
  function ParseU64(s: Bytes): Option<nat> {
    ParseDigits(if s != [] && s[0] == 43 then s[1..] else s)
  }

  function ParseDigits(digits: Bytes): Option<nat> {
    if digits == [] || exists i :: 0 <= i < |digits| && !IsDigit(digits[i]) then None
    else if DigitsValue(digits) > U64_MAX then None
    else Some(DigitsValue(digits))
  }

  function IndexOf(s: Bytes, b: Byte, i: nat): (r: Option<nat>)
    requires i <= |s|
    ensures match r
            case Some(p) => i <= p < |s| && s[p] == b && forall j :: i <= j < p ==> s[j] != b
            case None => forall j :: i <= j < |s| ==> s[j] != b
    decreases |s| - i
  {
    if i == |s| then None else if s[i] == b then Some(i) else IndexOf(s, b, i + 1)
  }

  function Lower(b: Byte): Byte {
    if 65 <= b <= 90 then b + 32 else b
  }

  /** "content-length" */
  const LENGTH_NAME: Bytes := [99, 111, 110, 116, 101, 110, 116, 45, 108, 101, 110, 103, 116, 104]

  predicate NamesLength(name: Bytes) {
    |name| == |LENGTH_NAME| && forall i :: 0 <= i < |name| ==> Lower(name[i]) == LENGTH_NAME[i]
  }

  /** The header read so far; a violation is recoverable at the end of the header. */
  datatype Header = Header(lines: nat, length: Option<nat>) | BadHeader

  function HeaderLine(h: Header, raw: Bytes): Header {
    var line := Trim(raw);
    if h.BadHeader? || line == [] then h
    else if h.lines + 1 > MAX_HEADER_LINES then BadHeader
    else match IndexOf(line, COLON, 0)
      case None => BadHeader
      case Some(colon) =>
        if !NamesLength(line[..colon]) then h.(lines := h.lines + 1)
        else if h.length.Some? then BadHeader
        else match ParseU64(TrimUnicode(Trim(line[colon + 1..])))
          case None => BadHeader
          case Some(n) => Header(h.lines + 1, Some(n))
  }

  /** Fold the lines of `header[i..]`, which are separated by CR or LF; `from` is where the
      current line began. */
  function HeaderFrom(h: Header, header: Bytes, from: nat, i: nat): Header
    requires from <= i <= |header|
    decreases |header| - i
  {
    if i == |header| then HeaderLine(h, header[from..])
    else if header[i] == CR || header[i] == LF then HeaderFrom(HeaderLine(h, header[from..i]), header, i + 1, i + 1)
    else HeaderFrom(h, header, from, i + 1)
  }

  datatype Declared = Length(n: nat) | TooLarge | Malformed

  function DeclaredLength(header: Bytes): Declared {
    match HeaderFrom(Header(0, None), header, 0, 0)
    case BadHeader => Malformed
    case Header(_, length) =>
      match length
      case None => Malformed
      case Some(n) => if n > MAX_FRAME_BYTES then TooLarge else Length(n)
  }

  method ReadHeader(header: Bytes) returns (declared: Declared)
    ensures declared == DeclaredLength(header)
  {
    hide Trim, TrimUnicode, ParseU64, NamesLength;
    var contentLength: Option<nat> := None;
    var lines := 0;
    var from, i := 0, 0;
    var done := false;
    while !done
      invariant from <= i <= |header|
      invariant !done ==> HeaderFrom(Header(lines, contentLength), header, from, i) == HeaderFrom(Header(0, None), header, 0, 0)
      invariant done ==> Header(lines, contentLength) == HeaderFrom(Header(0, None), header, 0, 0)
      decreases |header| - i, !done
    {
      if i < |header| && header[i] != CR && header[i] != LF {
        i := i + 1;
        continue;
      }
      assert i == |header| ==> header[from..i] == header[from..];
      var line := Trim(header[from..i]);
      if line != [] {
        ghost var h := Header(lines, contentLength);
        BadStaysBad(header, if i < |header| then i + 1 else i, if i < |header| then i + 1 else i);
        lines := lines + 1;
        if lines > MAX_HEADER_LINES { return Malformed; }
        var colon := IndexOf(line, COLON, 0);
        if colon.None? { return Malformed; }
        if NamesLength(line[..colon.value]) {
          if contentLength.Some? { return Malformed; }
          contentLength := ParseU64(TrimUnicode(Trim(line[colon.value + 1..])));
          if contentLength.None? { return Malformed; }
        }
      }
      if i == |header| {
        done := true;
      } else {
        i := i + 1;
        from := i;
      }
    }
    match contentLength {
      case None => declared := Malformed;
      case Some(n) => declared := if n > MAX_FRAME_BYTES then TooLarge else Length(n);
    }
  }

  lemma {:induction false} BadStaysBad(header: Bytes, from: nat, i: nat)
    requires from <= i <= |header|
    ensures HeaderFrom(BadHeader, header, from, i) == BadHeader
    decreases |header| - i
  {
    if i < |header| {
      BadStaysBad(header, if header[i] == CR || header[i] == LF then i + 1 else from, i + 1);
    }
  }
}
