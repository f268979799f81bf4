/** What the parsers answer, told of the lines of a header and of the bytes of a body. */
module FrameOutcomes {
  import opened Prelude
  import opened Framing
  import opened FrameCodec
  import opened FrameReader
  import opened HeaderLines

  /** The two line ends that close a header stand at its end and nowhere before. */
  ghost predicate Closed(header: Bytes) {
    && |header| >= 4 && OccursAt([CR, LF, CR, LF], header, |header| - 4)
    && forall j :: 0 <= j < |header| - 4 ==> !OccursAt([CR, LF, CR, LF], header, j)
  }

  function Decoded<V>(c: Codec<V>, body: Bytes, consumed: nat): Parsed<V> {
    match c.decode(body) case None => Recoverable(consumed) case Some(v) => Message(consumed, v)
  }

  lemma ClosedHeader<V>(c: Codec<V>, header: Bytes, rest: Bytes)
    requires Closed(header)
    ensures Parse(ContentLength, c, header + rest)
         == match DeclaredLength(header)
            case Malformed => Recoverable(|header|)
            case TooLarge => Fatal
            case Length(n) => if |rest| < n then NeedMore else Decoded(c, rest[..n], |header| + n)
  {
    var bytes, p := header + rest, |header| - 4;
    FindIsFirst(ContentLength, header, p);
    FindInPrefix(ContentLength, bytes, |header|);
    assert bytes[..|header|] == header;
    FindFits(ContentLength, bytes);
    assert Find(ContentLength, bytes) == Some(p);
    var declared := DeclaredLength(header);
    if declared.Length? && |rest| >= declared.n {
      assert bytes[|header|..|header| + declared.n] == rest[..declared.n];
    }
    hide DeclaredLength, Find, OccursAt;
  }

  /** Exactly one line names Content-Length, with a number for its value. */
  ghost predicate SomeLength(lines: seq<Bytes>) {
    exists m: nat :: OneLength(lines, m)
  }

  lemma DeclaredBy(lines: seq<Bytes>, seps: Bytes, n: nat)
    requires |lines| == |seps| + 1 && (forall i :: 0 <= i < |lines| ==> IsLine(lines[i]))
    requires forall i :: 0 <= i < |seps| ==> Separates(seps[i])
    ensures Fine(lines) && OneLength(lines, n) ==>
              DeclaredLength(Joined(lines, seps)) == if n > 16 * 1024 * 1024 then TooLarge else Length(n)
    ensures !Fine(lines) || !SomeLength(lines) ==> DeclaredLength(Joined(lines, seps)) == Malformed
  {
    HeaderMeans(lines, seps, n);
    hide Fine, OneLength, DeclaredLength, Joined, IsLine;
  }

  /** A frame is read as its header lines say. If at most 64 of them are not blank, each of those has
      a colon, and exactly one names Content-Length, with the value `n`, then the body is the next
      `n` bytes: more input is awaited until they are there, and a body that is no JSON spoils this
      frame alone. A length beyond 16 MiB ends the connection. Any other header spoils itself and
      nothing behind it. */
  lemma FrameMeans<V>(c: Codec<V>, lines: seq<Bytes>, seps: Bytes, rest: Bytes, n: nat)
    requires |lines| == |seps| + 1 && (forall i :: 0 <= i < |lines| ==> IsLine(lines[i]))
    requires (forall i :: 0 <= i < |seps| ==> Separates(seps[i])) && Closed(Joined(lines, seps))
    ensures var header := Joined(lines, seps);
            var parsed := Parse(ContentLength, c, header + rest);
            && (Fine(lines) && OneLength(lines, n) ==>
                  parsed == if n > 16 * 1024 * 1024 then Fatal
                            else if |rest| < n then NeedMore
                            else Decoded(c, rest[..n], |header| + n))
            && (!Fine(lines) || !SomeLength(lines) ==> parsed == Recoverable(|header|))
  {
    hide *;
    DeclaredBy(lines, seps, n);
    ClosedHeader(c, Joined(lines, seps), rest);
  }

  /** Without a terminator more input is awaited, up to 16 KiB of header or 16 MiB of line. */
  lemma NothingEndsYet<V>(c: Codec<V>, bytes: Bytes)
    ensures (forall j: nat :: !OccursAt([CR, LF, CR, LF], bytes, j)) ==>
              Parse(ContentLength, c, bytes) == if |bytes| > 16 * 1024 then Fatal else NeedMore
    ensures LF !in bytes ==> Parse(Ndjson, c, bytes) == if |bytes| > 16 * 1024 * 1024 then Fatal else NeedMore
  {
    FindIsFirst(ContentLength, bytes, 0);
    FindIsFirst(Ndjson, bytes, 0);
    if LF !in bytes {
      forall j: nat ensures !OccursAt([LF], bytes, j) {
        if j < |bytes| { OccursFirst([LF], bytes, j); }
      }
    }
    hide OccursAt;
  }

  /** A line is read up to LF or CR LF: white space alone is skipped, a line that is no JSON spoils
      itself and nothing behind it. */
  lemma LineMeans<V>(c: Codec<V>, body: Bytes, crlf: bool, rest: Bytes)
    requires LF !in body && (body == [] || Last(body) != CR)
    ensures var end: Bytes := if crlf then [CR, LF] else [LF];
            var consumed := |body| + |end|;
            Parse(Ndjson, c, body + end + rest) == if AllSpace(body) then Blank(consumed) else Decoded(c, body, consumed)
  {
    var end: Bytes := if crlf then [CR, LF] else [LF];
    var bytes, p := body + end + rest, |body| + |end| - 1;
    assert bytes[p] == LF && bytes[p..p + 1] == [LF];
    forall j | 0 <= j < p ensures bytes[j] != LF {
      if j < |body| { assert bytes[j] == body[j] && body[j] in body; }
    }
    forall j | 0 <= j < p ensures !OccursAt([LF], bytes, j) { OccursFirst([LF], bytes, j); }
    assert OccursAt([LF], bytes, p);
    FindIsFirst(Ndjson, bytes, p);
    assert bytes[..|body|] == body;
    assert body != [] ==> bytes[|body| - 1] == Last(body);
    assert LineBody(bytes, p) == body;
    hide OccursAt, Find, AllSpace;
  }

  /** The framing follows from the first byte that is not white space: JSON starts with a bracket,
      and anything else is a header. */
  lemma FramingDetected(space: Bytes, first: Byte, rest: Bytes)
    requires AllSpace(space) && !IsSpace(first)
    ensures Detect(space + [first] + rest)
         == Some(if first == '{' as int || first == '[' as int then Ndjson else ContentLength)
    ensures Detect(space) == None
  {
    var s := space + [first] + rest;
    assert s[..|space|] == space && s[|space|] == first;
    LeadingIs(s, |space|);
    assert space[..|space|] == space;
    LeadingIs(space, |space|);
  }
}
