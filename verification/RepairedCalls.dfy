/** Which calls extraction returns, said of the JSON parser and of regions of the text alone. */
module RepairedCalls {
  import opened Prelude
  import opened ToolRepair
  import opened ToolScan
  import opened ToolJson

  // ------------------------------------------------------------------------- the repair

  /** The value a piece of text gives: as it stands if it parses, so that it is never rewritten;
      else after both passes; else after quoting the bare keys of that. */
  ghost predicate Gives<V, C>(o: Oracle<V, C>, raw: string, v: V) {
    var fixed := Unquote(Strip(raw));
    || o.parse(raw) == Some(v)
    || (o.parse(raw) == None && o.parse(fixed) == Some(v))
    || (o.parse(raw) == None && o.parse(fixed) == None && o.parse(o.quoteKeys(fixed)) == Some(v))
  }

  /** The piece of text that counts: the shortest balanced one from the first opening bracket. */
  ghost predicate Piece(text: string, from: nat, end: nat) {
    |text| <= MAX_REPAIR_INPUT && ShortestBalanced(text, from, end)
  }

  lemma PieceIsRegion(text: string, from: nat, end: nat)
    ensures Piece(text, from, end) <==> |text| <= MAX_REPAIR_INPUT && Region(text) == Some(Pair(from, end))
  {
    RegionIsShortest(text, from, end);
    hide Region, DepthFirstZero;
  }

  ghost predicate TextGives<V, C>(o: Oracle<V, C>, text: string, v: V) {
    exists from: nat, end: nat :: Piece(text, from, end) && Gives(o, text[from..end], v)
  }

  /** A text of at most 64 KiB gives `v` exactly if its first balanced piece does. */
  lemma RepairExactly<V, C>(o: Oracle<V, C>, text: string, v: V)
    ensures Repair(o, text) == Some(v) <==> TextGives(o, text, v)
  {
    if Region(text).Some? { PieceIsRegion(text, Region(text).value.first, Region(text).value.second); }
    forall from: nat, end: nat | Piece(text, from, end) ensures Region(text) == Some(Pair(from, end)) {
      PieceIsRegion(text, from, end);
    }
    hide Region, Piece, Unquote, Strip;
  }

  // ----------------------------------------------------------------- reading at one place

  /** The text gives a value that reads as the call. */
  ghost predicate Reads<V, C>(o: Oracle<V, C>, text: string, wrapped: bool, v: V, c: C) {
    TextGives(o, text, v) && o.call(v, wrapped) == Some(c)
  }

  lemma CallAtExactly<V, C>(o: Oracle<V, C>, text: string, wrapped: bool, c: C, len: nat)
    ensures CallAt(o, text, wrapped) == Some(Pair(c, len))
       <==> exists v :: Reads(o, text, wrapped, v, c) && len == Blob(text, o.size(v))
  {
    hide Repair, Blob, TextGives;
    forall v ensures Repair(o, text) == Some(v) <==> TextGives(o, text, v) { RepairExactly(o, text, v); }
    if CallAt(o, text, wrapped) == Some(Pair(c, len)) {
      var v := Repair(o, text).value;
      assert TextGives(o, text, v) && Reads(o, text, wrapped, v, c);
    }
    forall v | Reads(o, text, wrapped, v, c) && len == Blob(text, o.size(v))
      ensures CallAt(o, text, wrapped) == Some(Pair(c, len))
    {
      assert TextGives(o, text, v);
    }
  }

  // --------------------------------------------------------------------------- extraction

  /** The text is one call, read without the wrapper, whose span is nine tenths of the text. */
  ghost predicate OneCall<V, C>(o: Oracle<V, C>, text: string, v: V, c: C) {
    Reads(o, text, false, v, c) && 10 * Blob(text, o.size(v)) >= 9 * |text|
  }

  lemma OneCallExactly<V, C>(o: Oracle<V, C>, text: string)
    ensures (exists v, c :: OneCall(o, text, v, c))
       <==> CallAt(o, text, false).Some? && FillsText(CallAt(o, text, false).value.second, text)
    ensures forall v, c :: OneCall(o, text, v, c) ==> CallAt(o, text, false) == Some(Pair(c, Blob(text, o.size(v))))
  {
    hide CallAt, Blob, Reads;
    if CallAt(o, text, false).Some? {
      var r := CallAt(o, text, false).value;
      CallAtExactly(o, text, false, r.first, r.second);
      if FillsText(r.second, text) {
        var v :| Reads(o, text, false, v, r.first) && r.second == Blob(text, o.size(v));
        assert OneCall(o, text, v, r.first);
      }
    }
    forall v, c | OneCall(o, text, v, c) ensures CallAt(o, text, false) == Some(Pair(c, Blob(text, o.size(v)))) {
      CallAtExactly(o, text, false, c, Blob(text, o.size(v)));
    }
  }

  /** Nothing is read from a text of more than 128 KiB, and a text that is one call gives that call
      alone. */
  lemma OneCallAlone<V, C>(o: Oracle<V, C>, text: string, v: V, c: C)
    ensures |text| > 128 * 1024 ==> Extract(o, text) == []
    ensures OneCall(o, text, v, c) ==> Extract(o, text) == [Found(0, Blob(text, o.size(v)), c)]
  {
    OneCallExactly(o, text);
    if OneCall(o, text, v, c) { ReadTextIsShort(o, text, v); }
    hide CallAt, Blob, Reads, ScanFrom, OneCall, TextGives;
  }

  /** A call read from the start of the text, without the wrapper, is returned first, with or
      without a marker. */
  lemma CallAtStartComesFirst<V, C>(o: Oracle<V, C>, text: string, v: V, c: C)
    requires Reads(o, text, false, v, c)
    ensures |Extract(o, text)| >= 1 && Extract(o, text)[0] == Found(0, Blob(text, o.size(v)), c)
  {
    var first := Found(0, Blob(text, o.size(v)), c);
    CallAtExactly(o, text, false, c, first.len);
    ReadTextIsShort(o, text, v);
    hide CallAt, Blob, Reads, ScanFrom;
    ScanKeeps(o, text, first.len, [first]);
    assert [first] <= Extract(o, text);
  }

  lemma ReadTextIsShort<V, C>(o: Oracle<V, C>, text: string, v: V)
    requires TextGives(o, text, v)
    ensures |text| <= MAX_TEXT
  {
    hide Gives, ShortestBalanced;
  }

  /** Place `p`, which gives `v`, is answered for by a call that was returned: its span holds `p`,
      and if that span starts clean, it is the call read from `v`, or `p` lies inside its region. */
  ghost predicate ReturnedFor<V, C>(o: Oracle<V, C>, text: string, f: Found<C>, p: nat, v: V)
    requires p <= |text|
  {
    && f.at <= p < f.at + f.len <= |text|
    && (CleanAt(text, f.at) ==>
          || (exists wrapped :: o.call(v, wrapped) == Some(f.call))
          || (Region(text[f.at..]).Some?
              && f.at + Region(text[f.at..]).value.first <= p < f.at + Region(text[f.at..]).value.second))
  }

  lemma AnswersReturns<V, C>(o: Oracle<V, C>, text: string, f: Found<C>, p: nat, v: V)
    requires p <= |text| && Answers(o, text, f, p) && Repair(o, text[p..]) == Some(v)
    ensures ReturnedFor(o, text, f, p, v)
  {
    hide Region, Repair, CleanAt, SameRegion, Blob;
    if CleanAt(text, f.at) && SameRegion(text, p, f.at)
       && exists wrapped :: CallAt(o, text[p..], wrapped).Some? && CallAt(o, text[p..], wrapped).value.first == f.call {
      var wrapped :| CallAt(o, text[p..], wrapped).Some? && CallAt(o, text[p..], wrapped).value.first == f.call;
      assert o.call(v, wrapped) == Some(f.call);
    }
  }

  /** Repaired calls are found. Wherever a marker starts and the first balanced piece behind it
      gives a value, as it stands or repaired, from which a call can be read, a call is
      returned for that place, unless 64 calls were returned or the text is one call. */
  lemma RepairedCallIsFound<V(!new), C(!new)>(o: Oracle<V, C>, text: string, p: nat, v: V, c: C)
    requires |text| <= MAX_TEXT && p < |text| && MarkerAt(text, p, MARKERS) && Reads(o, text[p..], true, v, c)
    requires forall v, c :: !OneCall(o, text, v, c)
    ensures |Extract(o, text)| == MAX_CALLS || exists f :: f in Extract(o, text) && ReturnedFor(o, text, f, p, v)
  {
    OneCallExactly(o, text);
    hide OneCall, MarkerAt, MARKERS, Extract, TextGives, Blob, ReturnedFor, Answers;
    assert TextGives(o, text[p..], v);
    RepairExactly(o, text[p..], v);
    hide Repair;
    CallAtExactly(o, text[p..], true, c, Blob(text[p..], o.size(v)));
    hide CallAt, Reads;
    EveryCallIsFound(o, text, p);
    if |Extract(o, text)| != MAX_CALLS {
      var f :| f in Extract(o, text) && Answers(o, text, f, p);
      AnswersReturns(o, text, f, p, v);
    }
  }

  /** Every call returned was read at its place, and from a value that the first balanced piece
      there gives. */
  lemma ReturnedCallsWereRead<V(!new), C>(o: Oracle<V, C>, text: string, f: Found<C>)
    requires f in Extract(o, text)
    ensures f.at + f.len <= |text|
    ensures exists wrapped, v :: Reads(o, text[f.at..], wrapped, v, f.call) && f.len == Blob(text[f.at..], o.size(v))
  {
    ExtractedInSequence(o, text);
    hide Extract, CallAt, Reads, Blob;
    assert ReadThere(o, text, f);
    var wrapped :| CallAt(o, text[f.at..], wrapped) == Some(Pair(f.call, f.len));
    CallAtExactly(o, text[f.at..], wrapped, f.call, f.len);
  }

  /** A piece that does not parse as it stands, but does after both passes, gives the value of what
      the passes make of it. If they keep its strings, the parser has then seen that very piece: its
      characters in order, inside and outside strings as they were, with double quotes for
      delimiters, commas outside strings aside. */
  lemma RepairedPieceKeepsStrings<V, C>(o: Oracle<V, C>, raw: string, v: V)
    requires o.parse(raw) == None && o.parse(Unquote(Strip(raw))) == Some(v)
    requires Ascii(raw) && forall i :: 0 <= i < |raw| ==> !DropsFromString(raw, i) && !IsBareDouble(raw, i)
    ensures Gives(o, raw, v)
    ensures exists seen :: o.parse(seen) == Some(v) && Scanned(START, seen) == Meaning(Plain, raw)
  {
    PassesKeepStringsExactly(raw);
  }

  /** For instance `{'a':1,}` is read as the object `{"a":1}`. */
  lemma ObjectRepaired<V, C>(o: Oracle<V, C>, raw: string, v: V)
    requires raw == ['{', '\'', 'a', '\'', ':', '1', ',', '}']
    requires o.parse(raw) == None && o.parse(['{', '"', 'a', '"', ':', '1', '}']) == Some(v)
    ensures Gives(o, raw, v)
  {
    var t := ['{', '\'', 'a', '\'', ':', '1', '}'];
    StripOfObject(raw);
    UnquoteOfObject(t);
  }

  lemma StripOfObject(raw: string)
    requires raw == ['{', '\'', 'a', '\'', ':', '1', ',', '}']
    ensures Strip(raw) == ['{', '\'', 'a', '\'', ':', '1', '}']
  {
    assert NextSolid(raw, 7) == Some('}');
    forall i | 0 <= i < 8 ensures IsTrailing(raw, i) <==> i == 6 {}
    hide IsTrailing, NextSolid;
    assert StripFrom(raw, 8) == "";
    assert StripFrom(raw, 6) == StripFrom(raw, 7) == ['}'];
    assert StripFrom(raw, 5) == ['1', '}'];
    assert StripFrom(raw, 4) == [':', '1', '}'];
    assert StripFrom(raw, 3) == ['\'', ':', '1', '}'];
    assert StripFrom(raw, 2) == ['a', '\'', ':', '1', '}'];
    assert StripFrom(raw, 1) == ['\'', 'a', '\'', ':', '1', '}'];
  }

  lemma UnquoteOfObject(t: string)
    requires t == ['{', '\'', 'a', '\'', ':', '1', '}']
    ensures Unquote(t) == ['{', '"', 'a', '"', ':', '1', '}']
  {
    assert QuoteAfter(t, 1) == Plain;
    assert QuoteAfter(t, 3) == Single(false);
    assert QuoteAfter(t, 5) == Plain;
    assert QuoteAfter(t, 6) == Plain;
    forall k | 0 <= k < 7 ensures Unquote(t)[k] == ['{', '"', 'a', '"', ':', '1', '}'][k] {}
  }

  // --------------------------------------------------------------- what the first pass drops

  /** A comma with nothing but blanks between it and a closing bracket, said of positions. */
  ghost predicate CommaBeforeCloser(s: string, i: nat) {
    i < |s| && s[i] == ',' && exists j :: i < j < |s| && IsCloser(s[j]) && forall m :: i < m < j ==> IsBlank(s[m])
  }

  lemma {:induction false} NextSolidMeans(s: string, i: nat)
    requires i <= |s|
    ensures (NextSolid(s, i).Some? && IsCloser(NextSolid(s, i).value))
       <==> exists j :: i <= j < |s| && IsCloser(s[j]) && forall m :: i <= m < j ==> IsBlank(s[m])
    decreases |s| - i
  {
    if i < |s| && IsBlank(s[i]) { NextSolidMeans(s, i + 1); }
  }

  lemma TrailingMeans(s: string, i: nat)
    requires i < |s|
    ensures IsTrailing(s, i) <==> CommaBeforeCloser(s, i)
  {
    NextSolidMeans(s, i + 1);
    hide NextSolid, IsBlank, IsCloser;
  }

  ghost predicate Picks(s: string, i: nat, kept: seq<nat>, out: string) {
    && |kept| == |out|
    && (forall a :: 0 <= a < |kept| ==> i <= kept[a] < |s| && out[a] == s[kept[a]])
    && (forall a, b :: 0 <= a < b < |kept| ==> kept[a] < kept[b])
    && (forall k: nat :: i <= k < |s| ==> (k in kept <==> !CommaBeforeCloser(s, k)))
  }

  lemma PickOneMore(s: string, i: nat, kept: seq<nat>, out: string)
    requires i < |s| && Picks(s, i + 1, kept, out) && !CommaBeforeCloser(s, i)
    ensures Picks(s, i, [i] + kept, [s[i]] + out)
  {
    hide CommaBeforeCloser;
    var more, text := [i] + kept, [s[i]] + out;
    forall a | 0 <= a < |more| ensures i <= more[a] < |s| && text[a] == s[more[a]] {
      if a > 0 { assert more[a] == kept[a - 1] && text[a] == out[a - 1]; }
    }
    forall a, b | 0 <= a < b < |more| ensures more[a] < more[b] {
      assert more[b] == kept[b - 1] && (a > 0 ==> more[a] == kept[a - 1]);
    }
    forall k: nat | i <= k < |s| ensures k in more <==> !CommaBeforeCloser(s, k) {
      assert k in more <==> k == i || k in kept;
    }
  }

  lemma {:induction false} StripPicks(s: string, i: nat) returns (kept: seq<nat>)
    requires i <= |s| && Ascii(s)
    ensures Picks(s, i, kept, StripFrom(s, i))
    decreases |s| - i
  {
    if i == |s| {
      kept := [];
    } else {
      var rest := StripPicks(s, i + 1);
      TrailingMeans(s, i);
      kept := if IsTrailing(s, i) then rest else [i] + rest;
      assert StripFrom(s, i) == if IsTrailing(s, i) then StripFrom(s, i + 1) else [s[i]] + StripFrom(s, i + 1);
      hide IsTrailing, CommaBeforeCloser, StripFrom, Ascii;
      if !CommaBeforeCloser(s, i) { PickOneMore(s, i, rest, StripFrom(s, i + 1)); }
    }
  }

  /** The first pass drops exactly the commas that only blanks separate from a closing bracket, and
      leaves everything else in order, if the text is ASCII. */
  lemma StripDropsExactly(s: string) returns (kept: seq<nat>)
    requires Ascii(s)
    ensures Picks(s, 0, kept, Strip(s))
  {
    kept := StripPicks(s, 0);
  }
}
