/** The value of a Content-Length line, said of its bytes: white space, a plus sign or none, zeros,
    the number in decimal, white space. */
module HeaderValue {
  import opened Prelude
  import opened Framing
  import opened FrameCodec
  import opened FramePrinter
  import opened HeaderLines

  predicate Solid(b: Byte) {
    IsDigit(b) || b == 43
  }

  /** Only UTF-8 encodings of white space, any number of them. */
  ghost predicate SpaceOnly(s: Bytes)
    decreases |s|
  {
    s == [] || exists k :: 0 <= k < |UNICODE_SPACES| && 0 < |UNICODE_SPACES[k]| && UNICODE_SPACES[k] <= s
                           && SpaceOnly(s[|UNICODE_SPACES[k]|..])
  }

  function Zeros(k: nat): Bytes {
    if k == 0 then [] else Zeros(k - 1) + [48]
  }

  function Numeral(plus: bool, zeros: nat, n: nat): Bytes {
    (if plus then [43] else []) + Zeros(zeros) + Decimal(n)
  }

  ghost predicate Spells(rest: Bytes, n: nat) {
    exists a, plus, zeros: nat, b :: SpaceOnly(a) && SpaceOnly(b) && rest == a + Numeral(plus, zeros, n) + b
  }

  // ---------------------------------------------------------------- the white-space table

  /** Both ends of an encoding tell how long it is. */
  lemma SpaceShape(k: nat)
    requires k < |UNICODE_SPACES|
    ensures var u := UNICODE_SPACES[k];
            && 1 <= |u| <= 3 && !Solid(u[0]) && !Solid(Last(u))
            && (|u| == 1 <==> u[0] < 128) && (|u| == 2 <==> u[0] == 0xC2)
            && (|u| == 1 <==> Last(u) < 128) && (|u| == 3 ==> u[1] != 0xC2)
  {
  }

  lemma {:induction false} FrontFrom(s: Bytes, j: nat, k: nat)
    requires j <= k < |UNICODE_SPACES| && UNICODE_SPACES[k] <= s
    ensures SpaceAtFront(s, j) == |UNICODE_SPACES[k]|
    decreases k - j
  {
    SpaceShape(k);
    SpaceShape(j);
    hide UNICODE_SPACES;
    if UNICODE_SPACES[j] <= s {
      assert UNICODE_SPACES[j][0] == s[0] == UNICODE_SPACES[k][0];
    } else {
      FrontFrom(s, j + 1, k);
    }
  }

  lemma {:induction false} BackFrom(s: Bytes, j: nat, k: nat)
    requires j <= k < |UNICODE_SPACES|
    requires |UNICODE_SPACES[k]| <= |s| && s[|s| - |UNICODE_SPACES[k]|..] == UNICODE_SPACES[k]
    ensures SpaceAtBack(s, j) == |UNICODE_SPACES[k]|
    decreases k - j
  {
    SpaceShape(k);
    SpaceShape(j);
    hide UNICODE_SPACES;
    var u, v := UNICODE_SPACES[j], UNICODE_SPACES[k];
    if |u| <= |s| && s[|s| - |u|..] == u {
      assert Last(u) == s[|s| - 1] == Last(v);
      if |u| == 2 { assert u[0] == s[|s| - 2]; }
      if |v| == 2 { assert v[0] == s[|s| - 2]; }
      if |u| == 3 { assert u[1] == s[|s| - 2]; }
      if |v| == 3 { assert v[1] == s[|s| - 2]; }
    } else {
      BackFrom(s, j + 1, k);
    }
  }

  lemma {:induction false} FrontFinds(s: Bytes, j: nat) returns (k: nat)
    requires j <= |UNICODE_SPACES| && SpaceAtFront(s, j) > 0
    ensures k < |UNICODE_SPACES| && UNICODE_SPACES[k] <= s && SpaceAtFront(s, j) == |UNICODE_SPACES[k]|
    decreases |UNICODE_SPACES| - j
  {
    hide UNICODE_SPACES;
    if UNICODE_SPACES[j] <= s { k := j; } else { k := FrontFinds(s, j + 1); }
  }

  lemma {:induction false} BackFinds(s: Bytes, j: nat) returns (k: nat)
    requires j <= |UNICODE_SPACES| && SpaceAtBack(s, j) > 0
    ensures k < |UNICODE_SPACES| && SpaceAtBack(s, j) == |UNICODE_SPACES[k]|
    ensures s[|s| - SpaceAtBack(s, j)..] == UNICODE_SPACES[k]
    decreases |UNICODE_SPACES| - j
  {
    hide UNICODE_SPACES;
    if |UNICODE_SPACES[j]| <= |s| && s[|s| - |UNICODE_SPACES[j]|..] == UNICODE_SPACES[j] {
      k := j;
    } else {
      k := BackFinds(s, j + 1);
    }
  }

  lemma {:induction false} NoSpaceAt(s: Bytes, k: nat)
    requires s != [] && Solid(s[0]) && Solid(Last(s)) && k <= |UNICODE_SPACES|
    ensures SpaceAtFront(s, k) == 0 && SpaceAtBack(s, k) == 0
    decreases |UNICODE_SPACES| - k
  {
    if k < |UNICODE_SPACES| {
      SpaceShape(k);
      NoSpaceAt(s, k + 1);
      var u := UNICODE_SPACES[k];
      hide UNICODE_SPACES;
      if |u| <= |s| { assert s[|s| - |u|..][|u| - 1] == Last(s) && s[..|u|][0] == s[0]; }
    }
  }

  // ------------------------------------------------------------------- white space alone

  lemma OneSpace(k: nat, more: Bytes)
    requires k < |UNICODE_SPACES| && SpaceOnly(more)
    ensures SpaceOnly(UNICODE_SPACES[k] + more)
  {
    SpaceShape(k);
    hide UNICODE_SPACES;
    var s := UNICODE_SPACES[k] + more;
    assert UNICODE_SPACES[k] <= s && s[|UNICODE_SPACES[k]|..] == more;
  }

  lemma FirstSpace(s: Bytes) returns (k: nat, more: Bytes)
    requires SpaceOnly(s) && s != []
    ensures k < |UNICODE_SPACES| && |UNICODE_SPACES[k]| > 0 && s == UNICODE_SPACES[k] + more && SpaceOnly(more)
  {
    k :| k < |UNICODE_SPACES| && 0 < |UNICODE_SPACES[k]| && UNICODE_SPACES[k] <= s && SpaceOnly(s[|UNICODE_SPACES[k]|..]);
    more := s[|UNICODE_SPACES[k]|..];
  }

  lemma {:induction false} SpaceJoin(a: Bytes, b: Bytes)
    requires SpaceOnly(a) && SpaceOnly(b)
    ensures SpaceOnly(a + b)
    decreases |a|
  {
    hide UNICODE_SPACES, SpaceOnly;
    if a == [] {
      assert a + b == b;
    } else {
      var k, more := FirstSpace(a);
      SpaceJoin(more, b);
      OneSpace(k, more + b);
      assert a + b == UNICODE_SPACES[k] + (more + b);
    }
  }

  lemma Associate(a: Bytes, b: Bytes, c: Bytes)
    ensures (a + b) + c == a + (b + c) && a + [] == [] + a == a
  {
  }

  lemma {:induction false} LastSpace(s: Bytes) returns (k: nat, less: Bytes)
    requires SpaceOnly(s) && s != []
    ensures k < |UNICODE_SPACES| && |UNICODE_SPACES[k]| > 0 && s == less + UNICODE_SPACES[k] && SpaceOnly(less)
    decreases |s|
  {
    var first, more := FirstSpace(s);
    assert SpaceOnly([]);
    hide *;
    if more == [] {
      k, less := first, [];
      Associate(UNICODE_SPACES[first], [], []);
    } else {
      var middle;
      k, middle := LastSpace(more);
      OneSpace(first, middle);
      less := UNICODE_SPACES[first] + middle;
      Associate(UNICODE_SPACES[first], middle, UNICODE_SPACES[k]);
    }
  }

  lemma SpaceByte(b: Byte)
    requires IsSpace(b)
    ensures SpaceOnly([b])
  {
    assert SpaceOnly([]);
    var k := if b == 9 then 0 else if b == 10 then 1 else if b == 12 then 3 else if b == 13 then 4 else 5;
    assert UNICODE_SPACES[k] == [b];
    OneSpace(k, []);
    hide SpaceOnly;
    assert UNICODE_SPACES[k] + [] == [b];
  }

  lemma {:induction false} AsciiSpaceOnly(s: Bytes)
    requires AllSpace(s)
    ensures SpaceOnly(s)
  {
    if s != [] {
      AsciiSpaceOnly(s[1..]);
      SpaceByte(s[0]);
      hide SpaceOnly;
      SpaceJoin([s[0]], s[1..]);
      assert s == [s[0]] + s[1..];
    }
  }

  // ---------------------------------------------------------------------------- trimming

  /** Trimming ends, or takes one encoding from the front or the back. */
  lemma TrimStep(s: Bytes) returns (k: nat, t: Bytes, ended: bool)
    ensures ended ==> TrimUnicode(s) == s
    ensures !ended ==> k < |UNICODE_SPACES| && |t| < |s| && TrimUnicode(s) == TrimUnicode(t)
                       && (s == UNICODE_SPACES[k] + t || s == t + UNICODE_SPACES[k])
  {
    var front, back := SpaceAtFront(s, 0), SpaceAtBack(s, 0);
    ended, k, t := front == 0 && back == 0, 0, s;
    hide UNICODE_SPACES, SpaceAtFront, SpaceAtBack;
    if front > 0 {
      k := FrontFinds(s, 0);
      t := s[front..];
      assert s == s[..front] + t && s[..front] == UNICODE_SPACES[k];
    } else if back > 0 {
      k := BackFinds(s, 0);
      t := s[..|s| - back];
      assert s == t + s[|s| - back..];
    }
  }

  lemma Regroup(u: Bytes, a: Bytes, core: Bytes, b: Bytes)
    ensures u + (a + core + b) == (u + a) + core + b
    ensures (a + core + b) + u == a + core + (b + u)
  {
  }

  lemma {:induction false} TrimUnicodeParts(s: Bytes) returns (a: Bytes, b: Bytes)
    ensures s == a + TrimUnicode(s) + b && SpaceOnly(a) && SpaceOnly(b)
    decreases |s|
  {
    assert SpaceOnly([]);
    hide *;
    var k, t, ended := TrimStep(s);
    if ended {
      a, b := [], [];
    } else {
      var x, y := TrimUnicodeParts(t);
      var u := UNICODE_SPACES[k];
      Regroup(u, x, TrimUnicode(s), y);
      if s == u + t {
        OneSpace(k, x);
        a, b := u + x, y;
      } else {
        OneSpace(k, []);
        assert u + [] == u;
        SpaceJoin(y, u);
        a, b := x, y + u;
      }
    }
  }

  lemma {:induction false} TrimUnicodeIs(a: Bytes, core: Bytes, b: Bytes)
    requires SpaceOnly(a) && SpaceOnly(b) && core != [] && Solid(core[0]) && Solid(Last(core))
    ensures TrimUnicode(a + core + b) == core
    decreases |a| + |b|
  {
    hide UNICODE_SPACES, SpaceOnly;
    var s := a + core + b;
    if a != [] {
      var k, more := FirstSpace(a);
      assert s == UNICODE_SPACES[k] + (more + core + b);
      FrontFrom(s, 0, k);
      TrimUnicodeIs(more, core, b);
    } else if b != [] {
      var k, less := LastSpace(b);
      assert s == (a + core + less) + UNICODE_SPACES[k];
      BackFrom(s, 0, k);
      assert s[0] == core[0];
      SolidFront(s, 0);
      TrimUnicodeIs(a, core, less);
    } else {
      assert s == core;
      NoSpaceAt(core, 0);
    }
  }

  lemma {:induction false} SolidFront(s: Bytes, k: nat)
    requires s != [] && Solid(s[0]) && k <= |UNICODE_SPACES|
    ensures SpaceAtFront(s, k) == 0
    decreases |UNICODE_SPACES| - k
  {
    if k < |UNICODE_SPACES| {
      SpaceShape(k);
      SolidFront(s, k + 1);
      hide UNICODE_SPACES;
      assert UNICODE_SPACES[k][0] != s[0];
    }
  }

  // ----------------------------------------------------------------------------- numbers

  ghost predicate Digits(s: Bytes) {
    forall i :: 0 <= i < |s| ==> IsDigit(s[i])
  }

  lemma DigitsPush(s: Bytes, d: Byte)
    requires Digits(s) && IsDigit(d)
    ensures Digits(s + [d]) && DigitsValue(s + [d]) == 10 * DigitsValue(s) + (d as int - 48)
  {
    assert (s + [d])[..|s|] == s;
  }

  lemma {:induction false} ZerosDigits(zeros: nat)
    ensures Digits(Zeros(zeros)) && DigitsValue(Zeros(zeros)) == 0
  {
    if zeros > 0 {
      ZerosDigits(zeros - 1);
      DigitsPush(Zeros(zeros - 1), 48);
    }
  }

  lemma {:induction false} ValueOfDigits(zeros: nat, n: nat)
    ensures Digits(Zeros(zeros) + Decimal(n)) && DigitsValue(Zeros(zeros) + Decimal(n)) == n
  {
    if n < 10 {
      ZerosDigits(zeros);
      DigitsPush(Zeros(zeros), 48 + n);
    } else {
      ValueOfDigits(zeros, n / 10);
      DigitsPush(Zeros(zeros) + Decimal(n / 10), 48 + n % 10);
      assert Zeros(zeros) + Decimal(n) == (Zeros(zeros) + Decimal(n / 10)) + [48 + n % 10];
    }
  }

  lemma DecimalPush(v: nat, d: Byte)
    requires IsDigit(d)
    ensures v > 0 ==> Decimal(10 * v + (d as int - 48)) == Decimal(v) + [d]
    ensures Decimal(d as int - 48) == [d]
  {
    assert (10 * v + (d as int - 48)) / 10 == v && (10 * v + (d as int - 48)) % 10 == d as int - 48;
  }

  /** A digit string is a number in decimal behind some zeros. */
  lemma {:induction false} DigitsOfValue(s: Bytes) returns (zeros: nat)
    requires s != [] && Digits(s)
    ensures s == Zeros(zeros) + Decimal(DigitsValue(s))
  {
    var d, less := Last(s), Front(s);
    assert s == less + [d] && IsDigit(d) && Digits(less);
    assert Zeros(0) == [] && DigitsValue([]) == 0;
    DigitsPush(less, d);
    DecimalPush(DigitsValue(less), d);
    if less == [] {
      hide *;
      zeros := 0;
      assert s == [] + [d];
    } else {
      zeros := DigitsOfValue(less);
      ZerosAtEnd(zeros);
      hide *;
      if DigitsValue(less) == 0 {
        zeros := zeros + 1;
      } else {
        assert s == Zeros(zeros) + (Decimal(DigitsValue(less)) + [d]);
      }
    }
  }

  lemma ZerosAtEnd(zeros: nat)
    ensures Zeros(zeros + 1) == Zeros(zeros) + Decimal(0)
  {
  }

  lemma NumeralParses(plus: bool, zeros: nat, n: nat)
    ensures var s := Numeral(plus, zeros, n);
            s != [] && Solid(s[0]) && Solid(Last(s)) && (n <= U64_MAX ==> ParseU64(s) == Some(n))
  {
    ValueOfDigits(zeros, n);
    var s, digits := Numeral(plus, zeros, n), Zeros(zeros) + Decimal(n);
    assert Decimal(n) != [] && IsDigit(digits[0]) && IsDigit(Last(digits));
    assert s == (if plus then [43] + digits else digits);
    assert plus ==> s[1..] == digits;
    assert Last(s) == Last(digits);
    hide Decimal, Zeros, Numeral;
  }

  lemma ParsesAsDigits(digits: Bytes, n: nat) returns (zeros: nat)
    requires ParseDigits(digits) == Some(n)
    ensures n <= U64_MAX && digits == Zeros(zeros) + Decimal(n)
  {
    assert Digits(digits);
    zeros := DigitsOfValue(digits);
  }

  lemma ParsesAsNumeral(s: Bytes, n: nat) returns (plus: bool, zeros: nat)
    requires ParseU64(s) == Some(n)
    ensures n <= U64_MAX && s == Numeral(plus, zeros, n)
  {
    hide ParseDigits, Zeros, Decimal;
    plus := s != [] && s[0] == 43;
    var digits := if plus then s[1..] else s;
    assert s == (if plus then [43] else []) + digits;
    zeros := ParsesAsDigits(digits, n);
    assert s == (if plus then [43] else []) + Zeros(zeros) + Decimal(n);
  }

  /** The value of a line is `n` exactly if `n` is a 64-bit number and what follows the colon spells
      it: white space of any kind around, perhaps a plus sign, any number of leading zeros. */
  lemma ValueExactly(rest: Bytes, n: nat)
    ensures ParseU64(TrimUnicode(Trim(rest))) == Some(n) <==> n <= U64_MAX && Spells(rest, n)
  {
    hide ParseU64, TrimUnicode, Trim, SpaceOnly, AllSpace, Numeral, IsSpace;
    if ParseU64(TrimUnicode(Trim(rest))) == Some(n) {
      var lead, tail := TrimParts(rest);
      AsciiSpaceOnly(lead);
      AsciiSpaceOnly(tail);
      var a, b := TrimUnicodeParts(Trim(rest));
      var plus, zeros := ParsesAsNumeral(TrimUnicode(Trim(rest)), n);
      SpaceJoin(lead, a);
      SpaceJoin(b, tail);
      assert rest == (lead + a) + Numeral(plus, zeros, n) + (b + tail);
    }
    if n <= U64_MAX && Spells(rest, n) {
      var a, plus, zeros: nat, b :| SpaceOnly(a) && SpaceOnly(b) && rest == a + Numeral(plus, zeros, n) + b;
      NumeralParses(plus, zeros, n);
      AsciiTrimLeavesCore(rest, a, Numeral(plus, zeros, n), b);
    }
  }

  /** Trimming bytes first takes nothing that trimming characters would keep. */
  lemma AsciiTrimLeavesCore(rest: Bytes, a: Bytes, core: Bytes, b: Bytes)
    requires SpaceOnly(a) && SpaceOnly(b) && core != [] && Solid(core[0]) && Solid(Last(core)) && rest == a + core + b
    ensures TrimUnicode(Trim(rest)) == core
  {

    hide SpaceOnly, TrimUnicode;
    var a' := StartTrimmed(a, core + b);
    var b' := EndTrimmed(a' + core, b);
    assert rest == a + (core + b) && TrimStart(rest) == a' + core + b;
    TrimUnicodeIs(a', core, b');
  }

  lemma {:induction false} StartTrimmed(a: Bytes, t: Bytes) returns (less: Bytes)
    requires SpaceOnly(a) && t != [] && Solid(t[0])
    ensures SpaceOnly(less) && TrimStart(a + t) == less + t
    decreases |a|
  {
    hide SpaceOnly, UNICODE_SPACES;
    if a == [] || !IsSpace(a[0]) {
      less := a;
    } else {
      var k, more := FirstSpace(a);
      SpaceShape(k);
      assert UNICODE_SPACES[k] == [a[0]] && (a + t)[1..] == more + t;
      less := StartTrimmed(more, t);
    }
  }

  lemma {:induction false} EndTrimmed(t: Bytes, b: Bytes) returns (less: Bytes)
    requires SpaceOnly(b) && t != [] && Solid(Last(t))
    ensures SpaceOnly(less) && TrimEnd(t + b) == t + less
    decreases |b|
  {
    hide SpaceOnly, UNICODE_SPACES;
    if b == [] || !IsSpace(Last(b)) {
      less := b;
    } else {
      var k, more := LastSpace(b);
      SpaceShape(k);
      assert UNICODE_SPACES[k] == [Last(b)] && Front(t + b) == t + more;
      less := EndTrimmed(t, more);
    }
  }

  /** The value of a line is `n` exactly if its first colon is followed by a spelling of `n`. */
  lemma LineValueExactly(raw: Bytes, n: nat)
    ensures LineValue(raw) == Some(n)
       <==> n <= U64_MAX && exists name, rest :: raw == name + [COLON] + rest && COLON !in name && Spells(rest, n)
  {
    hide ParseU64, TrimUnicode, Trim, Spells;
    if COLON in raw {
      var c := IndexOf(raw, COLON, 0).value;
      var before, behind := raw[..c], raw[c + 1..];
      assert raw == before + [COLON] + behind && COLON !in before;
      ValueExactly(behind, n);
      forall name, rest | raw == name + [COLON] + rest && COLON !in name ensures rest == behind {
        assert raw[|name|] == COLON;
        forall j | 0 <= j < |name| ensures raw[j] != COLON { assert raw[j] == name[j]; }
        IndexOfIs(raw, COLON, |name|);
      }
    }
  }

  /** The name counts in any mixture of capital and small letters, and no other name counts. */
  lemma AnyLetterCase(name: Bytes)
    ensures NamesLength(name)
       <==> |name| == 14
            && forall i :: 0 <= i < 14 ==> name[i] == LENGTH_NAME[i] || (i != 7 && name[i] == LENGTH_NAME[i] - 32)
  {
    if |name| == 14 {
      forall i | 0 <= i < 14
        ensures Lower(name[i]) == LENGTH_NAME[i]
           <==> name[i] == LENGTH_NAME[i] || (i != 7 && name[i] == LENGTH_NAME[i] - 32)
      {
      }
    }
  }
}
