/** The character passes of the one-shot JSON repair: trailing commas and single quotes. */
module ToolRepair {
  import opened Prelude
  import opened ToolScan

  // --------------------------------------------------------------------- trailing commas

  predicate IsBlank(c: char) {
    c == ' ' || c == '\t' || c == '\n' || c == '\r'
  }

  /** The first character of `s[i..]` that is not a blank. */
  function NextSolid(s: string, i: nat): Option<char>
    requires i <= |s|
    decreases |s| - i
  {
    if i == |s| then None else if IsBlank(s[i]) then NextSolid(s, i + 1) else Some(s[i])
  }

  /** A comma with nothing but blanks between it and a closing bracket. */
  predicate IsTrailing(s: string, i: nat)
    requires i < |s|
  {
    s[i] == ',' && var next := NextSolid(s, i + 1); next.Some? && IsCloser(next.value)
  }

  /** The pass reads bytes and writes characters: a byte above 127 is written as the two bytes of
      the character with that number. */
  function Rewritten(c: char): string {
    if c as int < 128 then [c] else [(192 + c as int / 64) as char, (128 + c as int % 64) as char]
  }

  function StripFrom(s: string, i: nat): string
    requires i <= |s|
    decreases |s| - i
  {
    if i == |s| then ""
    else if IsTrailing(s, i) then StripFrom(s, i + 1)
    else Rewritten(s[i]) + StripFrom(s, i + 1)
  }

  function Strip(s: string): string {
    StripFrom(s, 0)
  }

  lemma StripStep(s: string, i: nat, out: string)
    requires i < |s|
    ensures out + StripFrom(s, i) == (if IsTrailing(s, i) then out else out + Rewritten(s[i])) + StripFrom(s, i + 1)
  {
    assert out + (Rewritten(s[i]) + StripFrom(s, i + 1)) == out + Rewritten(s[i]) + StripFrom(s, i + 1);
    hide Rewritten, IsTrailing;
  }

  method StripTrailingCommas(s: string) returns (out: string)
    ensures out == Strip(s)
  {
    out := "";
    var i: nat := 0;
    assert Rewritten(',') == ",";
    assert out + StripFrom(s, 0) == Strip(s) && StripFrom(s, |s|) == "";
    hide Rewritten, StripFrom, Strip;
    while i < |s|
      invariant i <= |s| && out + StripFrom(s, i) == Strip(s)
    {
      var c := s[i];
      StripStep(s, i, out);
      if c == ',' {
        var j := i + 1;
        while j < |s| && IsBlank(s[j])
          invariant i < j <= |s| && NextSolid(s, j) == NextSolid(s, i + 1)
        {
          j := j + 1;
        }
        if j < |s| && IsCloser(s[j]) {
          i := i + 1;
          continue;
        }
        out := out + ",";
        i := i + 1;
        continue;
      }
      out := out + Rewritten(c);
      i := i + 1;
    }
    assert out + "" == out;
  }

  function SolidAt(s: string, i: nat): (p: nat)
    requires i <= |s|
    ensures i <= p <= |s|
    decreases |s| - i
  {
    if i == |s| || !IsBlank(s[i]) then i else SolidAt(s, i + 1)
  }

  lemma {:induction false} SolidShift(a: string, b: string, k: nat)
    requires k <= |b|
    ensures NextSolid(a + b, |a| + k) == NextSolid(b, k)
    decreases |b| - k
  {
    if k < |b| {
      assert (a + b)[|a| + k] == b[k];
      SolidShift(a, b, k + 1);
    }
  }

  lemma TrailingShift(a: string, b: string, k: nat)
    requires k < |b|
    ensures IsTrailing(a + b, |a| + k) <==> IsTrailing(b, k)
  {
    SolidShift(a, b, k + 1);
  }

  predicate SolidCloser(s: string, i: nat)
    requires i <= |s|
  {
    NextSolid(s, i).Some? && IsCloser(NextSolid(s, i).value)
  }

  /** The next solid character is a comma that will be dropped. */
  predicate SolidTrailing(s: string, i: nat)
    requires i <= |s|
  {
    SolidAt(s, i) < |s| && IsTrailing(s, SolidAt(s, i))
  }

  lemma {:induction false} StripSolid(s: string, i: nat)
    requires i <= |s|
    ensures SolidCloser(StripFrom(s, i), 0) <==> SolidCloser(s, i) || SolidTrailing(s, i)
    decreases |s| - i
  {
    if i < |s| {
      var rest := StripFrom(s, i + 1);
      StripSolid(s, i + 1);
      if !IsTrailing(s, i) {
        SolidShift(Rewritten(s[i]), rest, 0);
      } else {
        TrailingThenCloser(s, i + 1);
      }
    }
  }

  lemma {:induction false} TrailingThenCloser(s: string, i: nat)
    requires i <= |s| && SolidCloser(s, i)
    ensures SolidCloser(StripFrom(s, i), 0)
    decreases |s| - i
  {
    if IsBlank(s[i]) {
      TrailingThenCloser(s, i + 1);
      SolidShift(Rewritten(s[i]), StripFrom(s, i + 1), 0);
    }
  }

  ghost predicate TrailingFrom(s: string, i: nat) {
    exists k :: i <= k < |s| && IsTrailing(s, k)
  }

  ghost predicate DoubleFrom(s: string, i: nat) {
    exists k :: i <= k < |s| && IsDouble(s, k)
  }

  predicate IsDouble(s: string, i: nat)
    requires i < |s|
  {
    s[i] == ',' && SolidTrailing(s, i + 1)
  }

  lemma TrailingInParts(a: string, b: string)
    requires forall k :: 1 <= k < |a| ==> a[k] != ','
    ensures a != "" ==> (TrailingFrom(a + b, 0) <==> IsTrailing(a + b, 0) || TrailingFrom(b, 0))
  {
    if a != "" {
      forall k | 0 <= k < |b| ensures IsTrailing(a + b, |a| + k) <==> IsTrailing(b, k) { TrailingShift(a, b, k); }
      assert forall k :: 1 <= k < |a| ==> !IsTrailing(a + b, k);
      assert forall k :: |a| <= k < |a + b| ==> IsTrailing(a + b, k) == IsTrailing(b, k - |a|);
      if TrailingFrom(b, 0) {
        var k :| 0 <= k < |b| && IsTrailing(b, k);
        assert IsTrailing(a + b, |a| + k);
      }
    }
  }

  /** A character that is kept is a trailing comma of the result exactly when a comma that was
      dropped came next. */
  lemma KeptAtHead(s: string, i: nat)
    requires i < |s| && !IsTrailing(s, i)
    ensures TrailingFrom(StripFrom(s, i), 0) <==> IsDouble(s, i) || TrailingFrom(StripFrom(s, i + 1), 0)
  {
    var rest, a := StripFrom(s, i + 1), Rewritten(s[i]);
    StripSolid(s, i + 1);
    TrailingInParts(a, rest);
    SolidShift([s[i]], rest, 0);
    assert s[i] == ',' ==> a + rest == [s[i]] + rest;
    assert a + rest == StripFrom(s, i);
    hide StripFrom, NextSolid, TrailingFrom, SolidAt;
  }

  lemma {:induction false} StripLeavesDoubles(s: string, i: nat)
    requires i <= |s|
    ensures TrailingFrom(StripFrom(s, i), 0) <==> DoubleFrom(s, i)
    decreases |s| - i
  {
    if i < |s| {
      StripLeavesDoubles(s, i + 1);
      assert DoubleFrom(s, i) <==> IsDouble(s, i) || DoubleFrom(s, i + 1);
      if IsTrailing(s, i) { CloserIsNotComma(s, i + 1); } else { KeptAtHead(s, i); }
      hide TrailingFrom, DoubleFrom, NextSolid, SolidAt;
    }
  }

  lemma {:induction false} CloserIsNotComma(s: string, i: nat)
    requires i <= |s| && SolidCloser(s, i)
    ensures !SolidTrailing(s, i)
    decreases |s| - i
  {
    if IsBlank(s[i]) { CloserIsNotComma(s, i + 1); }
  }

  /** One pass is enough exactly when no two commas stand, blanks apart, before a closing bracket. */
  lemma {:induction false} OnePassRemovesAllExactly(s: string)
    ensures TrailingFrom(Strip(s), 0) <==> DoubleFrom(s, 0)
  {
    StripLeavesDoubles(s, 0);
  }

  /** For instance one pass turns `[1,,]` into `[1,]`. */
  lemma OnePassLeavesComma(s: string)
    requires s == ['[', '1', ',', ',', ']']
    ensures IsDouble(s, 2) && TrailingFrom(Strip(s), 0)
  {
    assert NextSolid(s, 4) == Some(']') && SolidAt(s, 3) == 3;
    assert IsDouble(s, 2);
    OnePassRemovesAllExactly(s);
  }

  // ----------------------------------------------------------------------- single quotes

  datatype Quote = Plain | Single(escaped: bool) | Double(escaped: bool)

  function QuoteStep(q: Quote, c: char): Quote {
    match q
    case Double(true) => Double(false)
    case Double(false) => if c == '\\' then Double(true) else if c == '"' then Plain else Double(false)
    case Single(true) => Single(false)
    case Single(false) => if c == '\'' then Plain else if c == '\\' then Single(true) else Single(false)
    case Plain => if c == '"' then Double(false) else if c == '\'' then Single(false) else Plain
  }

  /** A single quote that opens or closes a single-quoted string. */
  predicate Delimits(q: Quote, c: char) {
    c == '\'' && (q.Plain? || q == Single(false))
  }

  function QuoteAfter(s: string, k: nat): Quote
    requires k <= |s|
  {
    if k == 0 then Plain else QuoteStep(QuoteAfter(s, k - 1), s[k - 1])
  }

  function Unquoted(s: string, k: nat): char
    requires k < |s|
  {
    if Delimits(QuoteAfter(s, k), s[k]) then '"' else s[k]
  }

  function Unquote(s: string): string {
    seq(|s|, k requires 0 <= k < |s| => Unquoted(s, k))
  }

  method UnquoteSingle(s: string) returns (out: string)
    ensures out == Unquote(s)
  {
    out := "";
    var inSingle, inDouble, escaped := false, false, false;
    for k := 0 to |s|
      invariant out == Unquote(s)[..k]
      invariant QuoteAfter(s, k) == if inDouble then Double(escaped) else if inSingle then Single(escaped) else Plain
      invariant !(inSingle && inDouble) && (escaped ==> inSingle || inDouble)
    {
      var c := s[k];
      assert QuoteAfter(s, k + 1) == QuoteStep(QuoteAfter(s, k), c);
      assert Unquote(s)[..k + 1] == Unquote(s)[..k] + [Unquoted(s, k)];
      if inDouble {
        out := out + [c];
        if escaped {
          escaped := false;
        } else if c == '\\' {
          escaped := true;
        } else if c == '"' {
          inDouble := false;
        }
        continue;
      }
      if inSingle {
        if c == '\'' && !escaped {
          inSingle := false;
          out := out + "\"";
        } else if c == '\\' && !escaped {
          escaped := true;
          out := out + "\\";
        } else {
          escaped := false;
          out := out + [c];
        }
        continue;
      }
      if c == '"' {
        inDouble := true;
        out := out + [c];
      } else if c == '\'' {
        inSingle := true;
        out := out + "\"";
      } else {
        out := out + [c];
      }
    }
    assert Unquote(s)[..|s|] == Unquote(s);
  }

  /** The pass changes nothing exactly when every single quote is inside a double-quoted string. */
  lemma {:induction false} UnquoteIsIdentityExactly(s: string)
    ensures Unquote(s) == s <==> forall k :: 0 <= k < |s| && s[k] == '\'' ==> QuoteAfter(s, k).Double?
  {
    if Unquote(s) == s {
      forall k | 0 <= k < |s| && s[k] == '\'' ensures QuoteAfter(s, k).Double? {
        assert Unquote(s)[k] == Unquoted(s, k);
        NoDelimiterNoSingle(s, k);
      }
    } else {
      var k :| 0 <= k < |s| && Unquote(s)[k] != s[k];
      assert Unquote(s)[k] == Unquoted(s, k);
    }
  }

  lemma {:induction false} NoDelimiterNoSingle(s: string, k: nat)
    requires k <= |s| && Unquote(s) == s
    ensures !QuoteAfter(s, k).Single?
  {
    if k > 0 {
      NoDelimiterNoSingle(s, k - 1);
      assert Unquote(s)[k - 1] == Unquoted(s, k - 1);
    }
  }

  /** A double quote inside a single-quoted string that no backslash protects. */
  predicate IsBareDouble(s: string, k: nat)
    requires k < |s|
  {
    QuoteAfter(s, k) == Single(false) && s[k] == '"'
  }

  /** The scanner for double-quoted strings, run on the result, is inside a string exactly where
      the original is inside a string of either kind. */
  ghost predicate KeepsStrings(s: string) {
    forall k :: 0 <= k <= |s| ==> After(Unquote(s), 0, k).inString == !QuoteAfter(s, k).Plain?
  }

  lemma {:induction false} StringsAgree(s: string, k: nat)
    requires k <= |s| && forall j :: 0 <= j < k ==> !IsBareDouble(s, j)
    ensures var scan, q := After(Unquote(s), 0, k), QuoteAfter(s, k);
            scan.inString == !q.Plain? && (q.Plain? ==> !scan.escaped) && (!q.Plain? ==> scan.escaped == q.escaped)
  {
    if k > 0 {
      StringsAgree(s, k - 1);
      assert Unquote(s)[k - 1] == Unquoted(s, k - 1);
      assert After(Unquote(s), 0, k) == ScanStep(After(Unquote(s), 0, k - 1), Unquote(s)[k - 1]);
      assert !IsBareDouble(s, k - 1);
    }
  }

  lemma {:induction false} FirstBareDouble(s: string, k: nat) returns (first: nat)
    requires k < |s| && IsBareDouble(s, k)
    ensures first < |s| && IsBareDouble(s, first) && forall j :: 0 <= j < first ==> !IsBareDouble(s, j)
  {
    if j :| 0 <= j < k && IsBareDouble(s, j) {
      first := FirstBareDouble(s, j);
    } else {
      first := k;
    }
  }

  /** The pass preserves the string structure exactly when no single-quoted string holds an
      unprotected double quote. */
  lemma {:induction false} UnquoteKeepsStringsExactly(s: string)
    ensures KeepsStrings(s) <==> forall k :: 0 <= k < |s| ==> !IsBareDouble(s, k)
  {
    if forall k :: 0 <= k < |s| ==> !IsBareDouble(s, k) {
      forall k | 0 <= k <= |s| ensures After(Unquote(s), 0, k).inString == !QuoteAfter(s, k).Plain? {
        StringsAgree(s, k);
      }
    } else {
      var k :| 0 <= k < |s| && IsBareDouble(s, k);
      var first := FirstBareDouble(s, k);
      StringsAgree(s, first);
      assert Unquote(s)[first] == Unquoted(s, first);
      assert After(Unquote(s), 0, first + 1) == ScanStep(After(Unquote(s), 0, first), Unquote(s)[first]);
      assert QuoteAfter(s, first + 1) == QuoteStep(QuoteAfter(s, first), s[first]);
    }
  }

  lemma {:induction false} QuotesAgree(s: string, k: nat)
    requires k <= |s| && forall j :: 0 <= j < k ==> !IsBareDouble(s, j)
    ensures QuoteAfter(Unquote(s), k) == match QuoteAfter(s, k) case Plain => Plain case Single(e) => Double(e) case Double(e) => Double(e)
  {
    if k > 0 {
      QuotesAgree(s, k - 1);
      assert Unquote(s)[k - 1] == Unquoted(s, k - 1);
      assert !IsBareDouble(s, k - 1);
    }
  }

  /** Under the same condition a second pass changes nothing. */
  lemma UnquoteIdempotent(s: string)
    requires forall k :: 0 <= k < |s| ==> !IsBareDouble(s, k)
    ensures Unquote(Unquote(s)) == Unquote(s)
  {
    var t := Unquote(s);
    forall k | 0 <= k < |t| && t[k] == '\'' ensures QuoteAfter(t, k).Double? {
      QuotesAgree(s, k);
      assert t[k] == Unquoted(s, k);
    }
    UnquoteIsIdentityExactly(t);
  }

  // ------------------------------------------------------- what the comma pass does to strings

  predicate Ascii(s: string) {
    forall i :: 0 <= i < |s| ==> s[i] as int < 128
  }

  /** A character, and whether a string-aware scanner is inside a string when it reads it. */
  datatype Placed = Placed(c: char, inString: bool)

  /** The text as a scanner in state `q` reads it, leaving out the commas outside strings. */
  function Essence(q: Quote, s: string): seq<Placed>
    decreases |s|
  {
    if s == "" then []
    else (if s[0] == ',' && q.Plain? then [] else [Placed(s[0], !q.Plain?)]) + Essence(QuoteStep(q, s[0]), s[1..])
  }

  /** The pass has only dropped commas outside strings: every other character is still there, in
      order, and inside or outside strings as before, and no comma has been added. */
  ghost predicate OnlyDropsOutsideCommas(s: string) {
    Essence(Plain, Strip(s)) == Essence(Plain, s) && CommaCount(Strip(s)) <= CommaCount(s)
  }

  function CommaCount(s: string): nat {
    if s == "" then 0 else (if s[0] == ',' then 1 else 0) + CommaCount(s[1..])
  }

  lemma CommaHead(c: char, t: string)
    ensures CommaCount([c] + t) == (if c == ',' then 1 else 0) + CommaCount(t)
  {
    assert ([c] + t)[1..] == t;
  }

  lemma {:induction false} StripAddsNoComma(s: string, i: nat)
    requires i <= |s|
    ensures CommaCount(StripFrom(s, i)) <= CommaCount(s[i..])
    decreases |s| - i
  {
    if i < |s| {
      StripAddsNoComma(s, i + 1);
      var t, c := StripFrom(s, i + 1), Rewritten(s[i]);
      assert s[i..] == [s[i]] + s[i + 1..];
      CommaHead(s[i], s[i + 1..]);
      CommaHead(c[0], t);
      if |c| == 2 {
        CommaHead(c[1], t);
        CommaHead(c[0], [c[1]] + t);
        assert c + t == [c[0]] + ([c[1]] + t);
      } else {
        assert c + t == [c[0]] + t;
      }
      hide IsTrailing, CommaCount;
    }
  }

  function HighCount(s: string): nat {
    if s == "" then 0 else (if s[0] as int >= 128 then 1 else 0) + HighCount(s[1..])
  }

  function HighPlaced(e: seq<Placed>): nat {
    if e == [] then 0 else (if e[0].c as int >= 128 then 1 else 0) + HighPlaced(e[1..])
  }

  lemma {:induction false} EssenceKeepsHigh(q: Quote, s: string)
    ensures HighPlaced(Essence(q, s)) == HighCount(s)
    decreases |s|
  {
    if s != "" {
      EssenceKeepsHigh(QuoteStep(q, s[0]), s[1..]);
      var rest := Essence(QuoteStep(q, s[0]), s[1..]);
      assert ([Placed(s[0], !q.Plain?)] + rest)[1..] == rest && [] + rest == rest;
    }
  }

  lemma HighOfTwo(a: char, b: char, t: string)
    ensures HighCount([a] + t) == (if a as int >= 128 then 1 else 0) + HighCount(t)
    ensures HighCount([a, b] + t) == (if a as int >= 128 then 1 else 0) + (if b as int >= 128 then 1 else 0) + HighCount(t)
  {
    assert ([a] + t)[1..] == t && ([b] + t)[1..] == t && ([a, b] + t)[1..] == [b] + t;
  }

  /** Every byte above 127 comes out as two. */
  lemma {:induction false} StripDoublesHigh(s: string, i: nat)
    requires i <= |s|
    ensures HighCount(StripFrom(s, i)) == 2 * HighCount(s[i..])
    decreases |s| - i
  {
    if i < |s| {
      StripDoublesHigh(s, i + 1);
      assert s[i..] == [s[i]] + s[i + 1..];
      HighOfTwo(s[i], s[i], s[i + 1..]);
      var t, c := StripFrom(s, i + 1), Rewritten(s[i]);
      if s[i] as int < 128 { HighOfTwo(s[i], s[i], t); } else { HighOfTwo(c[0], c[1], t); }
    }
  }

  lemma {:induction false} NoHighIsAscii(s: string)
    ensures HighCount(s) == 0 <==> Ascii(s)
  {
    if s != "" {
      NoHighIsAscii(s[1..]);
      assert Ascii(s) <==> s[0] as int < 128 && Ascii(s[1..]) by {
        assert forall i :: 1 <= i < |s| ==> s[i] == s[1..][i - 1];
        assert forall i :: 0 <= i < |s| - 1 ==> s[1..][i] == s[i + 1];
      }
    }
  }

  /** From place `i` on, which a scanner reaches in state `q`, no comma to be dropped is inside a string. */
  predicate StringsSpared(q: Quote, s: string, i: nat)
    requires i <= |s|
    decreases |s| - i
  {
    i < |s| ==> (IsTrailing(s, i) ==> q.Plain?) && StringsSpared(QuoteStep(q, s[i]), s, i + 1)
  }

  /** Dropping a comma after a backslash changes nothing further on: a blank or a closing bracket
      takes the escape. */
  lemma EscapeWashes(q: Quote, s: string, i: nat)
    requires i < |s| && IsTrailing(s, i) && !q.Plain?
    ensures Essence(q, StripFrom(s, i + 1)) == Essence(QuoteStep(q, ','), StripFrom(s, i + 1))
  {
    assert i + 1 < |s| && (IsBlank(s[i + 1]) || IsCloser(s[i + 1]));
    assert StripFrom(s, i + 1) == [s[i + 1]] + StripFrom(s, i + 2);
    assert ([s[i + 1]] + StripFrom(s, i + 2))[1..] == StripFrom(s, i + 2);
    hide StripFrom, IsTrailing, NextSolid;
  }

  lemma EssenceOfHead(q: Quote, c: char, t: string)
    ensures Essence(q, [c] + t) == (if c == ',' && q.Plain? then [] else [Placed(c, !q.Plain?)]) + Essence(QuoteStep(q, c), t)
  {
    assert ([c] + t)[1..] == t;
  }

  lemma {:induction false} StripOfAscii(q: Quote, s: string, i: nat)
    requires i <= |s| && Ascii(s)
    ensures var after, before := Essence(q, StripFrom(s, i)), Essence(q, s[i..]);
            && |after| <= |before|
            && (|after| == |before| ==> after == before)
            && (after == before <==> StringsSpared(q, s, i))
    decreases |s| - i
  {
    if i < |s| {
      var next := QuoteStep(q, s[i]);
      StripOfAscii(next, s, i + 1);
      assert s[i..] == [s[i]] + s[i + 1..];
      EssenceOfHead(q, s[i], s[i + 1..]);
      if IsTrailing(s, i) {
        if !q.Plain? { EscapeWashes(q, s, i); }
        hide NextSolid, Essence;
      } else {
        assert Rewritten(s[i]) == [s[i]];
        EssenceOfHead(q, s[i], StripFrom(s, i + 1));
        var head := if s[i] == ',' && q.Plain? then [] else [Placed(s[i], !q.Plain?)];
        HeadCancels(head, Essence(next, StripFrom(s, i + 1)), Essence(next, s[i + 1..]));
        hide NextSolid, Essence, Rewritten;
      }
    }
  }

  lemma HeadCancels(head: seq<Placed>, a: seq<Placed>, b: seq<Placed>)
    ensures head + a == head + b <==> a == b
    ensures |head + a| == |head| + |a| && |head + b| == |head| + |b|
  {
    assert (head + a)[|head|..] == a && (head + b)[|head|..] == b;
  }

  /** A comma that the pass drops although it is part of a string. */
  predicate DropsFromString(s: string, i: nat)
    requires i < |s|
  {
    IsTrailing(s, i) && !QuoteAfter(s, i).Plain?
  }

  lemma {:induction false} SparedMeaning(s: string, i: nat)
    requires i <= |s|
    ensures StringsSpared(QuoteAfter(s, i), s, i) <==> forall k :: i <= k < |s| ==> !DropsFromString(s, k)
    decreases |s| - i
  {
    if i < |s| {
      SparedMeaning(s, i + 1);
      assert QuoteAfter(s, i + 1) == QuoteStep(QuoteAfter(s, i), s[i]);
      assert DropsFromString(s, i) <==> IsTrailing(s, i) && !QuoteAfter(s, i).Plain?;
    }
    hide QuoteAfter, IsTrailing, DropsFromString;
  }

  /** What strings hold survives the comma pass, and only commas outside strings go, exactly when
      the text is ASCII and no comma inside a string stands, blanks apart, before a closing
      bracket. Strings of either kind count, since the next pass turns the one into the other. */
  lemma {:induction false} StripOnlyRemovesExactly(s: string)
    ensures OnlyDropsOutsideCommas(s) <==> Ascii(s) && forall i :: 0 <= i < |s| ==> !DropsFromString(s, i)
  {
    EssenceKeepsHigh(Plain, s);
    EssenceKeepsHigh(Plain, Strip(s));
    StripDoublesHigh(s, 0);
    StripAddsNoComma(s, 0);
    NoHighIsAscii(s);
    assert s[0..] == s;
    hide Essence, HighPlaced, HighCount, StripFrom, CommaCount;
    if Ascii(s) {
      StripOfAscii(Plain, s, 0);
      SparedMeaning(s, 0);
    }
  }

  /** For instance the string value of `{"a":",}"}` loses its comma. */
  lemma StringLosesComma(s: string)
    requires s == ['{', '"', 'a', '"', ':', '"', ',', '}', '"', '}']
    ensures Ascii(s) && DropsFromString(s, 6) && !OnlyDropsOutsideCommas(s)
  {
    hide OnlyDropsOutsideCommas, Strip;
    assert QuoteAfter(s, 0) == QuoteAfter(s, 1) == Plain;
    assert QuoteAfter(s, 2) == QuoteAfter(s, 3) == Double(false);
    assert QuoteAfter(s, 4) == QuoteAfter(s, 5) == Plain;
    assert NextSolid(s, 7) == Some('}');
    hide QuoteAfter;
    StripOnlyRemovesExactly(s);
  }

  /** And so does the single-quoted value of `{'a':'[1,]'}`. */
  lemma SingleQuotedLosesComma(s: string)
    requires s == ['{', '\'', 'a', '\'', ':', '\'', '[', '1', ',', ']', '\'', '}']
    ensures Ascii(s) && DropsFromString(s, 8) && !OnlyDropsOutsideCommas(s)
  {
    hide OnlyDropsOutsideCommas, Strip;
    assert QuoteAfter(s, 0) == QuoteAfter(s, 1) == Plain;
    assert QuoteAfter(s, 2) == QuoteAfter(s, 3) == Single(false);
    assert QuoteAfter(s, 4) == QuoteAfter(s, 5) == Plain;
    assert QuoteAfter(s, 6) == QuoteAfter(s, 7) == Single(false);
    assert NextSolid(s, 9) == Some(']');
    hide QuoteAfter;
    StripOnlyRemovesExactly(s);
  }

  // ------------------------------------------------------------------- both passes together

  /** The text as it should come out: delimiters as double quotes, commas outside strings aside. */
  function Meaning(q: Quote, s: string): seq<Placed>
    decreases |s|
  {
    if s == "" then []
    else
      var c := if Delimits(q, s[0]) then '"' else s[0];
      (if s[0] == ',' && q.Plain? then [] else [Placed(c, !q.Plain?)]) + Meaning(QuoteStep(q, s[0]), s[1..])
  }

  /** The text as a scanner for double-quoted strings reads it, commas outside strings aside. */
  function Scanned(q: Scan, s: string): seq<Placed>
    decreases |s|
  {
    if s == "" then []
    else (if s[0] == ',' && !q.inString then [] else [Placed(s[0], q.inString)]) + Scanned(ScanStep(q, s[0]), s[1..])
  }

  function Converted(q: Quote, e: seq<Placed>): seq<Placed>
    decreases |e|
  {
    if e == [] then []
    else [e[0].(c := if Delimits(q, e[0].c) then '"' else e[0].c)] + Converted(QuoteStep(q, e[0].c), e[1..])
  }

  /** An unprotected double quote in a single-quoted string lies ahead. */
  predicate BareAhead(q: Quote, s: string)
    decreases |s|
  {
    s != "" && ((q == Single(false) && s[0] == '"') || BareAhead(QuoteStep(q, s[0]), s[1..]))
  }

  predicate BareIn(q: Quote, e: seq<Placed>)
    decreases |e|
  {
    e != [] && ((q == Single(false) && e[0].c == '"') || BareIn(QuoteStep(q, e[0].c), e[1..]))
  }

  lemma {:induction false} EssenceTellsAll(q: Quote, s: string)
    ensures Meaning(q, s) == Converted(q, Essence(q, s))
    ensures BareAhead(q, s) <==> BareIn(q, Essence(q, s))
    decreases |s|
  {
    assert QuoteStep(Plain, ',') == Plain;
    hide QuoteStep, Delimits;
    if s != "" {
      var next := QuoteStep(q, s[0]);
      EssenceTellsAll(next, s[1..]);
      var rest := Essence(next, s[1..]);
      assert ([Placed(s[0], !q.Plain?)] + rest)[1..] == rest && [] + rest == rest;
      assert [] + Meaning(next, s[1..]) == Meaning(next, s[1..]);
    }
  }

  lemma {:induction false} BareAheadMeans(s: string, k: nat)
    requires k <= |s|
    ensures BareAhead(QuoteAfter(s, k), s[k..]) <==> exists j :: k <= j < |s| && IsBareDouble(s, j)
    decreases |s| - k
  {
    if k < |s| {
      BareAheadMeans(s, k + 1);
      assert s[k..][1..] == s[k + 1..] && QuoteAfter(s, k + 1) == QuoteStep(QuoteAfter(s, k), s[k]);
      assert IsBareDouble(s, k) <==> QuoteAfter(s, k) == Single(false) && s[k] == '"';
    }
    hide QuoteAfter, IsBareDouble;
  }

  lemma {:induction false} UnquoteScans(s: string, k: nat)
    requires k <= |s| && forall j :: 0 <= j < |s| ==> !IsBareDouble(s, j)
    ensures Scanned(After(Unquote(s), 0, k), Unquote(s)[k..]) == Meaning(QuoteAfter(s, k), s[k..])
    decreases |s| - k
  {
    if k < |s| {
      UnquoteScans(s, k + 1);
      StringsAgree(s, k);
      var u := Unquote(s);
      assert u[k..][1..] == u[k + 1..] && s[k..][1..] == s[k + 1..] && u[k..][0] == u[k] == Unquoted(s, k);
      assert After(u, 0, k + 1) == ScanStep(After(u, 0, k), u[k]);
      assert QuoteAfter(s, k + 1) == QuoteStep(QuoteAfter(s, k), s[k]);
      hide After, QuoteAfter, Unquote;
    }
  }

  /** The two passes of the repair keep the strings of the text exactly when it is ASCII, no comma
      inside a string stands before a closing bracket, and no single-quoted string holds an
      unprotected double quote. The JSON parser then sees the text itself: every character in order
      and inside or outside strings as before, with double quotes for delimiters, commas outside
      strings aside. */
  lemma {:induction false} PassesKeepStringsExactly(s: string)
    ensures OnlyDropsOutsideCommas(s) && KeepsStrings(Strip(s))
       <==> Ascii(s) && forall i :: 0 <= i < |s| ==> !DropsFromString(s, i) && !IsBareDouble(s, i)
    ensures OnlyDropsOutsideCommas(s) && KeepsStrings(Strip(s)) ==> Scanned(START, Unquote(Strip(s))) == Meaning(Plain, s)
  {
    var t := Strip(s);
    StripOnlyRemovesExactly(s);
    UnquoteKeepsStringsExactly(t);
    if OnlyDropsOutsideCommas(s) {
      EssenceTellsAll(Plain, s);
      EssenceTellsAll(Plain, t);
      BareAheadMeans(s, 0);
      BareAheadMeans(t, 0);
      assert s[0..] == s && t[0..] == t;
      hide IsBareDouble, DropsFromString, KeepsStrings, BareAhead, BareIn, Meaning, Converted, Essence, Strip, Ascii;
      if KeepsStrings(t) {
        UnquoteScans(t, 0);
        assert Unquote(t)[0..] == Unquote(t) && After(Unquote(t), 0, 0) == START;
      }
    }
  }

  /** For instance `'"'` is a string for the pass, and an empty string followed by an open one for
      the scanner that reads the result. */
  lemma BareDoubleBreaksString(s: string)
    requires s == ['\'', '"', '\'']
    ensures IsBareDouble(s, 1) && !KeepsStrings(s)
  {
    assert QuoteAfter(s, 1) == Single(false);
    hide KeepsStrings, QuoteAfter;
    UnquoteKeepsStringsExactly(s);
  }
}
