/** safeint.h: checked arithmetic on any integral type, with C++ division. */
module SafeInt {
  import opened Bytes

  /** std::numeric_limits of an integral type: `digits` value bits, sign bit apart. */
  datatype IntType = IntType(signed: bool, digits: nat)

  function Pow2(n: nat): (p: nat)
    ensures p >= 1
  {
    if n == 0 then 1 else 2 * Pow2(n - 1)
  }

  lemma {:induction false} Pow2Grows(m: nat, n: nat)
    requires m <= n
    ensures Pow2(m) <= Pow2(n)
  {
    if m < n {
      Pow2Grows(m, n - 1);
    }
  }

  function MaxOf(t: IntType): int { Pow2(t.digits) - 1 }
  function MinOf(t: IntType): int { if t.signed then 0 - Pow2(t.digits) else 0 }

  predicate Fits(t: IntType, v: int) { MinOf(t) <= v <= MaxOf(t) }

  /** A type of one more value bit holds exactly the values whose halves, rounded down, the narrower one holds; no
      value bits hold zero, and with a sign bit minus one. */
  lemma FitsByHalving(signed: bool, digits: nat, v: int)
    ensures Fits(IntType(signed, digits + 1), v) <==> Fits(IntType(signed, digits), v / 2)
    ensures Fits(IntType(signed, 0), v) <==> v == 0 || (signed && v == -1)
  {
  }

  function Abs(a: int): nat { if a < 0 then -a else a }

  /** Division rounding toward zero. */
  function Div(a: int, b: int): int
    requires b != 0
  {
    var q := Abs(a) / Abs(b);
    if (a < 0) == (b < 0) then q else -q
  }

  /** The remainder is smaller than the divisor and has the sign of the dividend. */
  lemma DivTruncates(a: int, b: int)
    requires b != 0
    ensures var r := a - Div(a, b) * b; Abs(r) < Abs(b) && (r == 0 || (r < 0 <==> a < 0))
  {
    var q := Abs(a) / Abs(b);
    DivBounds(Abs(a), Abs(b));
    SignedProduct(q, b);
    assert Div(a, b) * b == if a < 0 then -(q * Abs(b)) else q * Abs(b);
    hide Div;
  }

  lemma SignedProduct(q: int, b: int)
    ensures (-q) * b == -(q * b)
    ensures q * Abs(b) == if b < 0 then -(q * b) else q * b
  {
  }

  // ----- the comparisons of the guards -----

  lemma DivBounds(a: nat, b: int)
    requires b > 0
    ensures (a / b) * b <= a < (a / b) * b + b
  {
  }

  /** x > a / b exactly when x * b > a. */
  lemma QuotientExceeded(x: int, a: nat, b: int)
    requires b > 0 && x >= 0
    ensures x > a / b <==> x * b > a
  {
    DivBounds(a, b);
    var q := a / b;
    if x > q {
      assert x * b >= (q + 1) * b;
    } else {
      assert x * b <= q * b;
    }
  }

  // ----- the operations; None stands for a thrown exception -----

  function SafeAdd(t: IntType, a: int, b: int): (r: Option<int>)
    requires Fits(t, a) && Fits(t, b)
    ensures r == if Fits(t, a + b) then Some(a + b) else None
  {
    if a > 0 && b > 0 && MaxOf(t) - a < b then None
    else if a < 0 && b < 0 && MinOf(t) - a > b then None
    else Some(a + b)
  }

  function SafeSub(t: IntType, a: int, b: int): (r: Option<int>)
    requires Fits(t, a) && Fits(t, b)
    ensures r == if Fits(t, a - b) then Some(a - b) else None
  {
    if b > 0 && a < MinOf(t) + b then None
    else if b < 0 && a > MaxOf(t) + b then None
    else Some(a - b)
  }

  function SafeMul(t: IntType, a: int, b: int): Option<int>
    requires Fits(t, a) && Fits(t, b)
  {
    if a > 0 && b > 0 && a > Div(MaxOf(t), b) then None
    else if a < 0 && b < 0 && a < Div(MaxOf(t), b) then None
    else if a > 0 && b < 0 && b < Div(MinOf(t), a) then None
    else if a < 0 && b > 0 && a < Div(MinOf(t), b) then None
    else Some(a * b)
  }

  /** The product comes back exactly when it is representable, for every width and signedness. */
  lemma SafeMulIsExact(t: IntType, a: int, b: int)
    requires Fits(t, a) && Fits(t, b)
    ensures SafeMul(t, a, b) == if Fits(t, a * b) then Some(a * b) else None
  {
    ProductSign(a, b);
    if a > 0 && b > 0 {
      QuotientExceeded(a, MaxOf(t), b);
    } else if a < 0 && b < 0 {
      QuotientExceeded(-a, MaxOf(t), -b);
    } else if a > 0 && b < 0 {
      QuotientExceeded(-b, -MinOf(t), a);
    } else if a < 0 && b > 0 {
      QuotientExceeded(-a, -MinOf(t), b);
    }
    hide Pow2;
  }

  lemma ProductSign(a: int, b: int)
    ensures (-a) * (-b) == a * b && (-a) * b == -(a * b) && (-b) * a == -(a * b)
    ensures a == 0 || b == 0 ==> a * b == 0
    ensures (a > 0 && b > 0) || (a < 0 && b < 0) ==> a * b > 0
    ensures (a > 0 && b < 0) || (a < 0 && b > 0) ==> a * b < 0
  {
  }

  /** The expressions the guards evaluate stay inside the type themselves. */
  lemma GuardsDoNotOverflow(t: IntType, a: int, b: int)
    requires Fits(t, a) && Fits(t, b)
    ensures a > 0 ==> Fits(t, MaxOf(t) - a)
    ensures a < 0 ==> Fits(t, MinOf(t) - a)
    ensures b > 0 ==> Fits(t, MinOf(t) + b)
    ensures b < 0 ==> Fits(t, MaxOf(t) + b)
    ensures b != 0 ==> Fits(t, Div(MaxOf(t), b))
    ensures b > 0 ==> Fits(t, Div(MinOf(t), b))
  {
    if b != 0 {
      ShrinksUnder(MaxOf(t), Abs(b));
      ShrinksUnder(Abs(MinOf(t)), Abs(b));
    }
  }

  lemma ShrinksUnder(a: nat, b: int)
    requires b > 0
    ensures 0 <= a / b <= a
  {
    DivBounds(a, b);
    MulAtLeast(a / b, b);
  }

  lemma MulAtLeast(q: nat, b: int)
    requires b > 0
    ensures q <= q * b
  {
    assert q * b == q + q * (b - 1);
  }

  /** in_range_17, branch by branch. */
  function InRange17(to: IntType, from: IntType, value: int): bool
    requires Fits(from, value)
  {
    if to.signed && from.signed then
      to.digits > from.digits || (MinOf(to) <= value <= MaxOf(to))
    else if to.signed && !from.signed then
      to.digits > from.digits || value <= MaxOf(to)
    else if !to.signed && from.signed then
      value >= 0 && (to.digits >= from.digits || value <= MaxOf(to))
    else
      to.digits > from.digits || value <= MaxOf(to)
  }

  /** Exact for every pair of types; and wherever a limit of To is cast to From, it fits From. */
  lemma InRange17IsExact(to: IntType, from: IntType, value: int)
    requires Fits(from, value)
    ensures InRange17(to, from, value) <==> Fits(to, value)
    ensures to.digits <= from.digits ==> Fits(from, MaxOf(to))
    ensures to.digits <= from.digits && to.signed && from.signed ==> Fits(from, MinOf(to))
  {
    if to.digits <= from.digits {
      Pow2Grows(to.digits, from.digits);
    }
    if from.digits <= to.digits {
      Pow2Grows(from.digits, to.digits);
    }
  }

  function SafeCastOr(to: IntType, from: IntType, value: int, default: int): (r: int)
    requires Fits(from, value) && Fits(to, default)
    ensures r == if Fits(to, value) then value else default
  {
    InRange17IsExact(to, from, value);
    if InRange17(to, from, value) then value else default
  }
}
