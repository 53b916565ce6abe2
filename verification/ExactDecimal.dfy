/** Reading a JSON number text as an exact unsigned integer, without rounding. */
module ExactDecimal {
  import opened Prelude

  const MAX_U64 := 18446744073709551615
  const I64_LIMIT := 9223372036854775808

  // ---------- number texts ----------

  predicate Digit(c: char) { '0' <= c <= '9' }

  predicate Digits(s: string) { forall k :: 0 <= k < |s| ==> Digit(s[k]) }

  predicate Zeros(s: string) { forall k :: 0 <= k < |s| ==> s[k] == '0' }

  datatype Exponent = Exponent(mark: char, sign: string, digits: string)

  /** The parts of a number as section 6 of RFC 8259 builds it; no fraction is the empty one. */
  datatype Number = Number(negative: bool, integer: string, fraction: string, exponent: Option<Exponent>) {
    predicate Valid() {
      && integer != "" && Digits(integer) && (|integer| > 1 ==> integer[0] != '0') && Digits(fraction)
      && (exponent.Some? ==>
            exponent.value.mark in "eE" && exponent.value.sign in ["", "+", "-"] &&
            exponent.value.digits != "" && Digits(exponent.value.digits))
    }

    function Coefficient(): string { integer + if fraction == "" then "" else "." + fraction }

    function Tail(): string {
      if exponent.None? then "" else [exponent.value.mark] + (exponent.value.sign + exponent.value.digits)
    }

    function Text(): string { (if negative then "-" else "") + (Coefficient() + Tail()) }

    function Power(): int {
      if exponent.None? then 0
      else if exponent.value.sign == "-" then 0 - DigitsValue(exponent.value.digits)
      else DigitsValue(exponent.value.digits)
    }

    /** The number is `Significand * 10^Scale`. */
    function Significand(): int {
      if negative then 0 - DigitsValue(integer + fraction) else DigitsValue(integer + fraction)
    }

    function Scale(): int { Power() - |fraction| }

    /** Its exact value is the integer `v`. */
    predicate Denotes(v: nat) { Equals(Significand(), Scale(), v) }
  }

  function DigitsValue(s: string): nat {
    if s == "" then 0
    else 10 * DigitsValue(s[..|s| - 1]) + if Digit(s[|s| - 1]) then s[|s| - 1] as int - '0' as int else 0
  }

  function Pow10(k: nat): nat { if k == 0 then 1 else 10 * Pow10(k - 1) }

  /** `c * 10^scale == v`, exactly. */
  predicate Equals(c: int, scale: int, v: nat) {
    if scale >= 0 then c * Pow10(scale) == v else c == v * Pow10(-scale)
  }

  // ---------- digit strings ----------

  lemma {:induction false} PowAdds(a: nat, b: nat)
    ensures Pow10(a + b) == Pow10(a) * Pow10(b)
  {
    if a > 0 {
      PowAdds(a - 1, b);
      assert Pow10(a + b) == 10 * Pow10(a - 1 + b);
      assert 10 * (Pow10(a - 1) * Pow10(b)) == (10 * Pow10(a - 1)) * Pow10(b);
    }
  }

  lemma {:induction false} PowGrows(a: nat, b: nat)
    requires a <= b
    ensures 1 <= Pow10(a) <= Pow10(b)
  {
    if a < b {
      PowGrows(a, b - 1);
    } else if a > 0 {
      PowGrows(a - 1, b - 1);
    }
  }

  lemma {:induction false} MulGap(a: nat, b: nat, m: nat)
    requires a < b
    ensures a * m + m <= b * m
  {
    assert b * m == (b - 1) * m + m;
    if a < b - 1 {
      MulGap(a, b - 1, m);
    }
  }

  lemma {:induction false} ValueConcat(a: string, b: string)
    ensures DigitsValue(a + b) == DigitsValue(a) * Pow10(|b|) + DigitsValue(b)
  {
    if b == "" {
      assert a + b == a;
    } else {
      var init := b[..|b| - 1];
      ValueConcat(a, init);
      assert (a + b)[..|a + b| - 1] == a + init;
      assert 10 * (DigitsValue(a) * Pow10(|init|)) == DigitsValue(a) * (10 * Pow10(|init|));
    }
  }

  lemma {:induction false} ValueBelow(s: string)
    ensures DigitsValue(s) < Pow10(|s|)
  {
    if s != "" {
      ValueBelow(s[..|s| - 1]);
    }
  }

  lemma {:induction false} ZerosAreNothing(s: string)
    requires Digits(s)
    ensures Zeros(s) <==> DigitsValue(s) == 0
  {
    if s != "" {
      ZerosAreNothing(s[..|s| - 1]);
      assert Zeros(s) <==> Zeros(s[..|s| - 1]) && s[|s| - 1] == '0';
    }
  }

  /** Without a leading zero, the length bounds the value from below. */
  lemma {:induction false} ValueAbove(s: string)
    requires Digits(s) && s != "" && s[0] != '0'
    ensures DigitsValue(s) >= Pow10(|s| - 1)
  {
    if |s| > 1 {
      ValueAbove(s[..|s| - 1]);
    }
  }

  /** Drop leading zeros. */
  method TrimZeros(s: string) returns (r: string)
    requires Digits(s)
    ensures Digits(r) && |r| <= |s| && DigitsValue(r) == DigitsValue(s)
    ensures r != "" ==> r[0] != '0'
  {
    var k := 0;
    while k < |s| && s[k] == '0'
      invariant k <= |s| && Zeros(s[..k])
    {
      k := k + 1;
    }
    ZerosAreNothing(s[..k]);
    ValueConcat(s[..k], s[k..]);
    assert s[..k] + s[k..] == s;
    return s[k..];
  }

  // ---------- splitting ----------

  /** Split at the first character of `marks`. */
  method SplitOnce(s: string, marks: string) returns (found: bool, before: string, after: string)
    ensures found ==>
      exists k :: 0 <= k < |s| && s[k] in marks && before == s[..k] && after == s[k + 1..] && Free(before, marks)
    ensures !found ==> before == s && after == "" && Free(s, marks)
  {
    for k := 0 to |s|
      invariant Free(s[..k], marks)
    {
      if s[k] in marks {
        return true, s[..k], s[k + 1..];
      }
    }
    assert s[..|s|] == s;
    return false, s, "";
  }

  predicate Free(s: string, marks: string) { forall k :: 0 <= k < |s| ==> s[k] !in marks }

  /** Text built around its only mark is split there. */
  method SplitAt(s: string, marks: string, ghost left: string, ghost mark: string, ghost right: string)
    returns (before: string, after: string)
    requires s == left + (mark + right) && Free(left, marks)
    requires (|mark| == 1 && mark[0] in marks) || (mark == "" && right == "")
    ensures before == left && after == right
  {
    var found;
    found, before, after := SplitOnce(s, marks);
    if mark != "" {
      assert s[|left|] == mark[0];
      if found {
        assert s[|left| + 1..] == right;
      }
    } else {
      assert s == left;
    }
  }

  /** A signed decimal in 64 bits. */
  method ParseI64(s: string, ghost sign: string, ghost digits: string) returns (r: Option<int>)
    requires s == sign + digits && sign in ["", "+", "-"] && digits != "" && Digits(digits)
    ensures var value := if sign == "-" then 0 - DigitsValue(digits) else DigitsValue(digits);
      r == if -I64_LIMIT <= value < I64_LIMIT then Some(value) else None
  {
    var negative := s[0] == '-';
    var unsigned := if s[0] == '-' || s[0] == '+' then s[1..] else s;
    assert Digit(digits[0]);
    assert unsigned == digits;
    var magnitude: int := DigitsValue(unsigned);
    var value := if negative then 0 - magnitude else magnitude;
    return if -I64_LIMIT <= value < I64_LIMIT then Some(value) else None;
  }

  // ---------- scaling ----------

  /** Scale up by appending zeros; more than twenty digits are too many for 64 bits. */
  method ScaleUp(significant: string, scale: nat) returns (r: Option<nat>)
    requires Digits(significant) && significant != "" && significant[0] != '0'
    ensures forall v: nat :: r == Some(v) <==> v <= MAX_U64 && v == DigitsValue(significant) * Pow10(scale)
  {
    var c := DigitsValue(significant);
    if |significant| + scale > 20 {
      ValueAbove(significant);
      PowAdds(|significant| - 1, scale);
      PowGrows(20, |significant| - 1 + scale);
      assert Pow10(20) == 100000000000000000000 by { TwentyDigits(); }
      if c > Pow10(|significant| - 1) {
        MulGap(Pow10(|significant| - 1), c, Pow10(scale));
      }
      return None;
    }
    var zeros := seq(scale, _ => '0');
    ValueConcat(significant, zeros);
    ZerosAreNothing(zeros);
    var value := DigitsValue(significant + zeros);
    return if value <= MAX_U64 then Some(value) else None;
  }

  lemma TwentyDigits()
    ensures Pow10(20) == 100000000000000000000
  {
    PowAdds(10, 10);
    PowAdds(5, 5);
    assert Pow10(5) == 100000;
  }

  /** Scale down by removing zeros; anything else removed is a fraction. */
  method ScaleDown(significant: string, removed: nat) returns (r: Option<nat>)
    requires Digits(significant) && significant != "" && significant[0] != '0' && removed > 0
    ensures forall v: nat :: r == Some(v) <==> v <= MAX_U64 && DigitsValue(significant) == v * Pow10(removed)
  {
    ValueAbove(significant);
    PowGrows(0, |significant| - 1);
    if removed > |significant| {
      TooSmall(significant, removed);
      return None;
    }
    var retained := |significant| - removed;
    ghost var kept, dropped := significant[..retained], significant[retained..];
    assert significant == kept + dropped;
    ValueConcat(kept, dropped);
    ValueBelow(dropped);
    ZerosAreNothing(dropped);
    forall v: nat
      ensures DigitsValue(significant) == v * Pow10(removed) <==> v == DigitsValue(kept) && DigitsValue(dropped) == 0
    {
      DivisionIsUnique(v, DigitsValue(kept), DigitsValue(dropped), Pow10(removed));
    }
    if exists k :: retained <= k < |significant| && significant[k] != '0' {
      assert !Zeros(dropped);
      return None;
    }
    assert Zeros(dropped);
    // Were nothing retained, the value would read as zero.
    var value := DigitsValue(significant[..retained]);
    return if value <= MAX_U64 then Some(value) else None;
  }

  /** Fewer digits than are taken away leave a proper fraction. */
  lemma TooSmall(s: string, removed: nat)
    requires removed > |s| && DigitsValue(s) > 0
    ensures forall v: nat :: DigitsValue(s) != v * Pow10(removed)
  {
    ValueBelow(s);
    PowGrows(|s|, removed);
    forall v: nat ensures DigitsValue(s) != v * Pow10(removed) {
      if v >= 1 {
        MulGap(0, v, Pow10(removed));
      }
    }
  }

  lemma DivisionIsUnique(a: nat, b: nat, s: nat, m: nat)
    requires s < m
    ensures a * m == b * m + s <==> a == b && s == 0
  {
    if a < b {
      MulGap(a, b, m);
    } else if b < a {
      MulGap(b, a, m);
    }
  }

  // ---------- the whole text ----------

  /** The signless parts: what the sign leaves, what the exponent mark leaves, what the point leaves. */
  method Dissect(encoded: string, ghost n: Number)
    returns (negative: bool, power: Option<int>, integer: string, fraction: string)
    requires n.Valid() && encoded == n.Text()
    ensures negative == n.negative && integer == n.integer && fraction == n.fraction
    ensures power == if -I64_LIMIT <= n.Power() < I64_LIMIT then Some(n.Power()) else None
  {
    assert Digit(n.integer[0]) && n.Coefficient()[0] == n.integer[0];
    negative := encoded[0] == '-';
    var unsigned := if negative then encoded[1..] else encoded;
    assert unsigned == n.Coefficient() + n.Tail();
    ghost var mark := if n.exponent.None? then "" else [n.exponent.value.mark];
    ghost var rest := if n.exponent.None? then "" else n.exponent.value.sign + n.exponent.value.digits;
    var coefficient, exponent := SplitAt(unsigned, "eE", n.Coefficient(), mark, rest);
    if exponent == "" {
      assert n.exponent.None?;
      power := Some(0);
    } else {
      power := ParseI64(exponent, n.exponent.value.sign, n.exponent.value.digits);
    }
    assert Free(n.integer, ".");
    integer, fraction := SplitAt(coefficient, ".", n.integer, if n.fraction == "" then "" else ".", n.fraction);
  }

  /**
   Read a number text exactly: the result is `v` when and only when the number denotes the
   integer `v`, `v` fits 64 bits, and the written exponent does.
   */
  method ParseExactUnsigned(encoded: string, ghost n: Number) returns (r: Option<nat>)
    requires n.Valid() && encoded == n.Text() && |encoded| < I64_LIMIT
    ensures forall v: nat :: r == Some(v) <==> v <= MAX_U64 && -I64_LIMIT <= n.Power() < I64_LIMIT && n.Denotes(v)
  {
    var negative, power, integer, fraction := Dissect(encoded, n);
    if power.None? {
      return None;
    }
    assert |integer + fraction| <= |encoded|;
    var significant := TrimZeros(integer + fraction);
    if significant == "" {
      ZeroDenotesZero(n);
      return Some(0);
    }
    ValueAbove(significant);
    PowGrows(0, |significant| - 1);
    if negative {
      NegativeDenotesNothing(n);
      return None;
    }
    var scale := power.value - |fraction|;
    if scale < -I64_LIMIT {
      TooSmall(significant, -scale);
      return None;
    }
    if scale >= 0 {
      r := ScaleUp(significant, scale);
    } else {
      r := ScaleDown(significant, -scale);
    }
  }

  lemma ZeroDenotesZero(n: Number)
    requires n.Significand() == 0
    ensures forall v: nat :: n.Denotes(v) <==> v == 0
  {
    var s := n.Scale();
    if s < 0 {
      PowGrows(0, -s);
    }
  }

  lemma NegativeDenotesNothing(n: Number)
    requires n.Significand() < 0
    ensures forall v: nat :: !n.Denotes(v)
  {
    var s := n.Scale();
    if s >= 0 {
      PowGrows(0, s);
      assert n.Significand() * Pow10(s) < 0;
    }
  }
}
