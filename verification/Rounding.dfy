/**
 * The two rounding modes the arithmetic uses, on exact quotients of paise.
 * `HalfUp` sends a tie away from zero; `HalfEven` sends it to the even neighbour.
 */
module Rounding {

  function Abs(x: int): nat {
    if x < 0 then -x else x
  }

  function HalfUp(n: int, d: int): int
    requires d != 0
    decreases d < 0, n < 0
  {
    if d < 0 then HalfUp(-n, -d)
    else if n < 0 then -HalfUp(-n, d)
    else n / d + (if 2 * (n % d) >= d then 1 else 0)
  }

  function HalfEven(n: int, d: int): int
    requires d > 0
  {
    var q, r := n / d, n % d;
    if 2 * r < d || (2 * r == d && q % 2 == 0) then q else q + 1
  }

  lemma NegateFactor(a: int, b: int)
    ensures (-a) * b == -(a * b) && a * (-b) == -(a * b)
  {
  }

  lemma Distribute(a: int, b: int, c: int)
    ensures (a + b) * c == a * c + b * c
  {
  }

  /** Rounding moves a quotient by at most half of the divisor. */
  lemma {:induction false} HalfUpIsNearest(n: int, d: int)
    requires d != 0
    ensures 2 * Abs(HalfUp(n, d) * d - n) <= Abs(d)
    decreases d < 0, n < 0
  {
    if d < 0 {
      HalfUpIsNearest(-n, -d);
      NegateFactor(HalfUp(n, d), -d);
    } else if n < 0 {
      HalfUpIsNearest(-n, d);
      NegateFactor(HalfUp(-n, d), d);
    } else {
      Distribute(n / d, 1, d);
    }
  }

  /** And a tie goes away from zero. */
  lemma {:induction false} HalfUpTiesGoOut(n: int, d: int)
    requires d != 0
    ensures 2 * Abs(HalfUp(n, d) * d - n) == Abs(d) ==> Abs(HalfUp(n, d) * d) > Abs(n)
    decreases d < 0, n < 0
  {
    if d < 0 {
      HalfUpTiesGoOut(-n, -d);
      NegateFactor(HalfUp(n, d), -d);
    } else if n < 0 {
      HalfUpTiesGoOut(-n, d);
      NegateFactor(HalfUp(-n, d), d);
    } else {
      NaturalTiesGoUp(n, d);
    }
  }

  lemma NaturalTiesGoUp(n: nat, d: int)
    requires d > 0
    ensures 2 * Abs(HalfUp(n, d) * d - n) == d ==> HalfUp(n, d) * d > n
  {
    Distribute(n / d, 1, d);
  }

  lemma HalfUpIsMonotone(n: int, m: int, d: int)
    requires d > 0 && n <= m
    ensures HalfUp(n, d) <= HalfUp(m, d)
  {
    if 0 <= n {
      HalfUpOfNaturals(n, m, d);
    } else if m < 0 {
      HalfUpOfNaturals(-m, -n, d);
    } else {
      HalfUpOfNaturals(0, -n, d);
      HalfUpOfNaturals(0, m, d);
    }
  }

  lemma PositiveFactor(k: int, n: int)
    requires n > 0
    ensures k >= 1 ==> k * n >= n
    ensures k <= -1 ==> k * n <= -n
  {
  }

  lemma QuotientOrder(q: int, r: int, u: int, v: int, d: int)
    requires 0 <= r < d && 0 <= v < d && q * d + r <= u * d + v
    ensures q < u || (q == u && r <= v)
  {
    PositiveFactor(q - u, d);
    Distribute(q - u, u, d);
  }

  lemma HalfUpOfNaturals(n: nat, m: nat, d: int)
    requires d > 0 && n <= m
    ensures 0 <= HalfUp(n, d) <= HalfUp(m, d)
  {
    QuotientOrder(n / d, n % d, m / d, m % d, d);
    QuotientOrder(0, 0, n / d, n % d, d);
  }

  lemma HalfEvenIsNearest(n: int, d: int)
    requires d > 0
    ensures 2 * Abs(HalfEven(n, d) * d - n) <= d
  {
    var q, r := n / d, n % d;
    assert n == q * d + r;
    Distribute(q, 1, d);
  }

  lemma HalfEvenTiesAreEven(n: int, d: int)
    requires d > 0
    ensures 2 * Abs(HalfEven(n, d) * d - n) == d ==> HalfEven(n, d) % 2 == 0
  {
    var q, r := n / d, n % d;
    assert n == q * d + r;
    Distribute(q, 1, d);
  }

  /** The nearest whole number, and of two the even one, is what `HalfEven` gives. */
  lemma HalfEvenIs(n: int, d: int, q: int)
    requires d > 0
    requires 2 * Abs(q * d - n) <= d && (2 * Abs(q * d - n) == d ==> q % 2 == 0)
    ensures HalfEven(n, d) == q
  {
    var h := HalfEven(n, d);
    HalfEvenIsNearest(n, d);
    HalfEvenTiesAreEven(n, d);
    Distribute(h - q, q, d);
    AtMostOneApart(h - q, d, h * d - n, q * d - n);
  }

  /** Two whole numbers that near to one quotient are neighbours at most, and then both a half away. */
  lemma AtMostOneApart(k: int, d: int, a: int, b: int)
    requires d > 0 && k * d == a - b && 2 * Abs(a) <= d && 2 * Abs(b) <= d
    ensures -1 <= k <= 1
    ensures k != 0 ==> 2 * Abs(a) == d && 2 * Abs(b) == d
  {
    PositiveFactor(k, d);
    if k >= 2 {
      PositiveFactor(k - 1, d);
      Distribute(k - 1, 1, d);
    } else if k <= -2 {
      PositiveFactor(k + 1, d);
      Distribute(k + 1, -1, d);
    }
  }

  /** Where `HalfEven` first exceeds a bound: past the midpoint, or on it when the bound is odd. */
  lemma HalfEvenExceeds(n: int, d: int, bound: int)
    requires d > 0
    ensures HalfEven(n, d) > bound
       <==> 2 * n > (2 * bound + 1) * d || (2 * n == (2 * bound + 1) * d && bound % 2 == 1)
  {
    TwiceProduct(bound, d);
    AgainstMidpoint(n / d, n % d, bound, d, (n / d) * d, bound * d);
  }

  /** Comparing `q * d + r` with the midpoint `bound * d + d / 2`, both products given. */
  lemma AgainstMidpoint(q: int, r: int, bound: int, d: int, qd: int, bd: int)
    requires 0 <= r < d && qd == q * d && bd == bound * d
    ensures q > bound ==> qd >= bd + d
    ensures q < bound ==> qd <= bd - d
    ensures q == bound ==> qd == bd
  {
    Distribute(q - bound, bound, d);
    PositiveFactor(q - bound, d);
  }

  lemma TimesMonotone(a: int, b: int, c: nat)
    requires a <= b
    ensures a * c <= b * c
  {
  }

  lemma TwiceProduct(a: int, n: int)
    ensures (2 * a + 1) * n == 2 * (a * n) + n
  {
  }

  /** A total judged by its rounded `n`-th part: what is taken off it when that part exceeds a limit. */
  function ExcessOver(total: int, n: int, limit: int): int
    requires n > 0
  {
    if HalfEven(total, n) > limit then (HalfEven(total, n) - limit) * n else 0
  }

  lemma ExcessSign(total: int, n: int, limit: int)
    requires n > 0
    ensures ExcessOver(total, n, limit) > 0 <==> HalfEven(total, n) > limit
    ensures ExcessOver(total, n, limit) >= 0
  {
    PositiveFactor(HalfEven(total, n) - limit, n);
  }

  lemma ExcessIsNear(total: int, n: int, limit: int)
    requires n > 0
    ensures ExcessOver(total, n, limit) != 0 ==> 2 * Abs(total - ExcessOver(total, n, limit) - limit * n) <= n
  {
    HalfEvenIsNearest(total, n);
    Distribute(HalfEven(total, n) - limit, limit, n);
  }
}
