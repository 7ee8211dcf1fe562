/** How the tax stated for a whole bill is shared out over the bill's lines. */
module Tax {
  import opened Domain
  import opened Sums
  import opened Rounding

  datatype TaxError = ZeroSubtotal

  /** A line's pro-rata share of the tax, rounded half up to whole paise. */
  function Rounded(tax: int, subtotal: int): int -> int
    requires subtotal != 0
  {
    (amount: int) => HalfUp(amount * tax, subtotal)
  }

  /** The first line with the greatest amount. */
  function Largest(amounts: seq<int>): (k: nat)
    requires amounts != []
    ensures k < |amounts|
    ensures forall i :: 0 <= i < |amounts| ==> amounts[i] <= amounts[k]
    ensures forall i :: 0 <= i < k ==> amounts[i] < amounts[k]
  {
    var n := |amounts| - 1;
    if n == 0 then 0
    else
      var best := Largest(amounts[..n]);
      if amounts[best] < amounts[n] then n else best
  }

  function SharesBy(rounding: int -> int, amounts: seq<int>): (shares: seq<int>)
    ensures |shares| == |amounts|
  {
    seq(|amounts|, i requires 0 <= i < |amounts| => rounding(amounts[i]))
  }

  /** Shares rounded one by one, with whatever that left over put on the largest line. */
  function ApportionedBy(rounding: int -> int, amounts: seq<int>, tax: int): (shares: seq<int>)
    requires amounts != []
    ensures |shares| == |amounts|
  {
    var shares := SharesBy(rounding, amounts);
    var k := Largest(amounts);
    shares[k := shares[k] + (tax - Sum(shares))]
  }

  function Apportioned(amounts: seq<int>, tax: int): (r: Result<seq<int>, TaxError>)
    ensures r.Failure? <==> amounts != [] && Sum(amounts) == 0
    ensures r.Success? ==> |r.value| == |amounts|
  {
    if amounts == [] then Success([])
    else if Sum(amounts) == 0 then Failure(ZeroSubtotal)
    else Success(ApportionedBy(Rounded(tax, Sum(amounts)), amounts, tax))
  }

  method ApportionTax(amounts: seq<int>, totalTax: int) returns (r: Result<seq<int>, TaxError>)
    ensures r == Apportioned(amounts, totalTax)
  {
    if amounts == [] {
      return Success([]);
    }
    var subtotal := Sum(amounts);
    if subtotal == 0 {
      return Failure(ZeroSubtotal);
    }
    if totalTax == 0 {
      NoTaxNoShares(amounts);
      return Success(seq(|amounts|, _ => 0));
    }

    var shares := new int[|amounts|];
    ghost var rounded := SharesBy(Rounded(totalTax, subtotal), amounts);
    for i := 0 to |amounts|
      invariant shares[..i] == rounded[..i]
    {
      shares[i] := HalfUp(amounts[i] * totalTax, subtotal);
    }
    assert shares[..] == rounded;

    var residue := totalTax - Sum(shares[..]);
    var largest := Largest(amounts);
    if residue != 0 {
      shares[largest] := shares[largest] + residue;
    }
    assert shares[..] == rounded[largest := rounded[largest] + residue];
    return Success(shares[..]);
  }

  lemma NoTaxNoShares(amounts: seq<int>)
    requires amounts != [] && Sum(amounts) != 0
    ensures Apportioned(amounts, 0) == Success(seq(|amounts|, _ => 0))
  {
    var zeros := seq(|amounts|, _ => 0);
    forall i | 0 <= i < |amounts|
      ensures HalfUp(amounts[i] * 0, Sum(amounts)) == 0
    {
      HalfUpIsNearest(0, Sum(amounts));
      assert amounts[i] * 0 == 0;
    }
    assert SharesBy(Rounded(0, Sum(amounts)), amounts) == zeros;
    ZerosSum(|amounts|);
    assert zeros[Largest(amounts) := 0] == zeros;
  }

  lemma ZerosSum(n: nat)
    ensures Sum(seq(n, _ => 0)) == 0
  {
    if n > 0 {
      assert seq(n, _ => 0)[..n - 1] == seq(n - 1, _ => 0);
      ZerosSum(n - 1);
    }
  }

  /** The shares add back up to the stated tax exactly, whatever the rounding is. */
  lemma SharesSumToTax(rounding: int -> int, amounts: seq<int>, tax: int)
    requires amounts != []
    ensures Sum(ApportionedBy(rounding, amounts, tax)) == tax
  {
    var shares := SharesBy(rounding, amounts);
    var k := Largest(amounts);
    SumByUpdate((x: int) => x, shares, k, shares[k] + (tax - Sum(shares)));
  }

  /** Off the largest line, a share is its own rounded quotient. */
  lemma SmallerShareIs(amounts: seq<int>, tax: int, i: nat)
    requires i < |amounts| && Sum(amounts) != 0 && i != Largest(amounts)
    ensures Apportioned(amounts, tax).value[i] == HalfUp(amounts[i] * tax, Sum(amounts))
  {
  }

  /** Every line but the largest is within half a paisa of its exact share, and of two the farther from zero. */
  lemma SmallerSharesAreNearest(amounts: seq<int>, tax: int, i: nat)
    requires i < |amounts| && Sum(amounts) != 0
    requires i != Largest(amounts)
    ensures var share, subtotal := Apportioned(amounts, tax).value[i], Sum(amounts);
      && 2 * Abs(share * subtotal - amounts[i] * tax) <= Abs(subtotal)
      && (2 * Abs(share * subtotal - amounts[i] * tax) == Abs(subtotal) ==>
            Abs(share * subtotal) > Abs(amounts[i] * tax))
  {
    SmallerShareIs(amounts, tax, i);
    RoundedIsNearest(Apportioned(amounts, tax).value[i], amounts[i], tax, Sum(amounts));
  }

  lemma RoundedIsNearest(share: int, amount: int, tax: int, subtotal: int)
    requires subtotal != 0 && share == HalfUp(amount * tax, subtotal)
    ensures 2 * Abs(share * subtotal - amount * tax) <= Abs(subtotal)
    ensures 2 * Abs(share * subtotal - amount * tax) == Abs(subtotal) ==> Abs(share * subtotal) > Abs(amount * tax)
  {
    HalfUpIsNearest(amount * tax, subtotal);
    HalfUpTiesGoOut(amount * tax, subtotal);
  }

  function Others(amounts: seq<int>): (others: seq<int>)
    requires amounts != []
    ensures |others| == |amounts| - 1
  {
    amounts[..Largest(amounts)] + amounts[Largest(amounts) + 1..]
  }

  /** What the largest line ends up with: the tax less what every other line rounded to. */
  lemma LargestShareIsTheRest(amounts: seq<int>, tax: int)
    requires amounts != [] && Sum(amounts) != 0
    ensures Apportioned(amounts, tax).value[Largest(amounts)]
         == tax - SumBy(Rounded(tax, Sum(amounts)), Others(amounts))
  {
    var subtotal := Sum(amounts);
    var k := Largest(amounts);
    var f := Rounded(tax, subtotal);
    var shares := SharesBy(f, amounts);
    SumByCongruent((x: int) => x, shares, f, amounts);
    SumByRemove(f, amounts, k);
  }

  lemma ErrorsAdd(e1: int, b1: int, e2: int, b2: int)
    requires 2 * Abs(e1) <= b1 && 2 * Abs(e2) <= b2
    ensures 2 * Abs(e1 + e2) <= b1 + b2
  {
  }

  /** Each line rounds by at most half a paisa, so `n` lines round by at most `n` halves. */
  lemma {:induction false} RoundingErrorAccumulates(lines: seq<int>, tax: int, subtotal: int)
    requires subtotal != 0
    ensures 2 * Abs(SumBy(Rounded(tax, subtotal), lines) * subtotal - Sum(lines) * tax)
         <= |lines| * Abs(subtotal)
  {
    if lines != [] {
      var n := |lines| - 1;
      var share := Rounded(tax, subtotal)(lines[n]);
      var shares, amounts := SumBy(Rounded(tax, subtotal), lines[..n]), Sum(lines[..n]);
      RoundingErrorAccumulates(lines[..n], tax, subtotal);
      HalfUpIsNearest(lines[n] * tax, subtotal);
      ErrorsAdd(shares * subtotal - amounts * tax, n * Abs(subtotal),
                share * subtotal - lines[n] * tax, Abs(subtotal));
      Distribute(shares, share, subtotal);
      Distribute(amounts, lines[n], tax);
      Distribute(n, 1, Abs(subtotal));
    }
  }

  /** The largest line absorbs the residue, which is at most half a paisa per other line. */
  lemma LargestShareError(amounts: seq<int>, tax: int)
    requires amounts != [] && Sum(amounts) != 0
    ensures 2 * Abs(Apportioned(amounts, tax).value[Largest(amounts)] * Sum(amounts)
                    - amounts[Largest(amounts)] * tax)
         <= |Others(amounts)| * Abs(Sum(amounts))
  {
    var others := Others(amounts);
    LargestShareIsTheRest(amounts, tax);
    RoundingErrorAccumulates(others, tax, Sum(amounts));
    SumByRemove((x: int) => x, amounts, Largest(amounts));
    ErrorOfTheRest(Sum(amounts), tax, Sum(others), SumBy(Rounded(tax, Sum(amounts)), others), |others|,
                   amounts[Largest(amounts)], Apportioned(amounts, tax).value[Largest(amounts)]);
  }

  lemma ErrorOfTheRest(subtotal: int, tax: int, amounts: int, shares: int, n: nat, amount: int, share: int)
    requires share == tax - shares && amount == subtotal - amounts
    requires 2 * Abs(shares * subtotal - amounts * tax) <= n * Abs(subtotal)
    ensures 2 * Abs(share * subtotal - amount * tax) <= n * Abs(subtotal)
  {
    Distribute(share, shares, subtotal);
    Distribute(amount, amounts, tax);
  }

  predicate SameSign(tax: int, subtotal: int) {
    (tax >= 0 && subtotal > 0) || (tax <= 0 && subtotal < 0)
  }

  /**
   * Off the largest line shares keep the order of the charges when tax and subtotal have one sign,
   * and reverse it when they have opposite signs.
   */
  lemma SmallerSharesKeepOrder(amounts: seq<int>, tax: int, i: nat, j: nat)
    requires i < |amounts| && j < |amounts| && Sum(amounts) != 0
    requires i != Largest(amounts) && j != Largest(amounts)
    requires amounts[i] <= amounts[j]
    ensures var shares := Apportioned(amounts, tax).value;
      && (SameSign(tax, Sum(amounts)) ==> shares[i] <= shares[j])
      && (SameSign(-tax, Sum(amounts)) ==> shares[i] >= shares[j])
  {
    SmallerShareIs(amounts, tax, i);
    SmallerShareIs(amounts, tax, j);
    HalfUpKeepsOrder(amounts[i], amounts[j], tax, Sum(amounts));
  }

  lemma HalfUpKeepsOrder(a: int, b: int, tax: int, subtotal: int)
    requires a <= b && subtotal != 0
    ensures SameSign(tax, subtotal) ==> HalfUp(a * tax, subtotal) <= HalfUp(b * tax, subtotal)
    ensures SameSign(-tax, subtotal) ==> HalfUp(a * tax, subtotal) >= HalfUp(b * tax, subtotal)
  {
    ProductOrder(a, b, tax);
    if a * tax <= b * tax {
      QuotientOrderKept(a * tax, b * tax, subtotal);
    }
    if b * tax <= a * tax {
      QuotientOrderKept(b * tax, a * tax, subtotal);
    }
  }

  lemma QuotientOrderKept(n: int, m: int, d: int)
    requires n <= m && d != 0
    ensures if d > 0 then HalfUp(n, d) <= HalfUp(m, d) else HalfUp(n, d) >= HalfUp(m, d)
  {
    if d > 0 {
      HalfUpIsMonotone(n, m, d);
    } else {
      HalfUpIsMonotone(-m, -n, -d);
    }
  }

  lemma ProductOrder(a: int, b: int, tax: int)
    requires a <= b
    ensures tax >= 0 ==> a * tax <= b * tax
    ensures tax <= 0 ==> a * tax >= b * tax
  {
    if tax >= 0 {
      TimesMonotone(a, b, tax);
    } else {
      TimesMonotone(a, b, -tax);
      NegateFactor(a, tax);
      NegateFactor(b, tax);
    }
  }

  /**
   * Charges are not negative, yet a share can be: exactly when the other lines between them
   * round to more than the tax there is to share.
   */
  lemma SharesNonNegativeExactly(amounts: seq<int>, tax: nat)
    requires Sum(amounts) > 0 && amounts != []
    requires forall i :: 0 <= i < |amounts| ==> amounts[i] >= 0
    ensures (forall i :: 0 <= i < |amounts| ==> Apportioned(amounts, tax).value[i] >= 0)
       <==> SumBy(Rounded(tax, Sum(amounts)), Others(amounts)) <= tax
  {
    LargestShareIsTheRest(amounts, tax);
    forall i | 0 <= i < |amounts| && i != Largest(amounts)
      ensures Apportioned(amounts, tax).value[i] >= 0
    {
      SmallerSharesAreNonNegative(amounts, tax, i);
    }
  }

  lemma SmallerSharesAreNonNegative(amounts: seq<int>, tax: nat, i: nat)
    requires i < |amounts| && Sum(amounts) > 0 && i != Largest(amounts) && amounts[i] >= 0
    ensures Apportioned(amounts, tax).value[i] >= 0
  {
    SmallerShareIs(amounts, tax, i);
    TimesMonotone(0, amounts[i], tax);
    HalfUpOfNaturals(0, amounts[i] * tax, Sum(amounts));
  }

  /** A largest line worth half a paisa of tax per other line keeps every share non-negative. */
  lemma LargeEnoughLineKeepsSharesNonNegative(amounts: seq<int>, tax: nat)
    requires Sum(amounts) > 0 && amounts != []
    requires forall i :: 0 <= i < |amounts| ==> amounts[i] >= 0
    requires 2 * (amounts[Largest(amounts)] * tax) >= |Others(amounts)| * Sum(amounts)
    ensures forall i :: 0 <= i < |amounts| ==> Apportioned(amounts, tax).value[i] >= 0
  {
    LargestShareError(amounts, tax);
    LargestShareIsTheRest(amounts, tax);
    SharesNonNegativeExactly(amounts, tax);
    NegativeFactorIsFar(Apportioned(amounts, tax).value[Largest(amounts)], Sum(amounts));
  }

  lemma NegativeFactorIsFar(share: int, subtotal: int)
    requires subtotal > 0
    ensures share < 0 ==> share * subtotal <= -subtotal
  {
  }

  /** Four equal lines sharing two paise: three round up to one each and the first goes to -1. */
  lemma AShareCanBeNegative()
    ensures Apportioned([10000, 10000, 10000, 10000], 2) == Success([-1, 1, 1, 1])
  {
    var amounts := [10000, 10000, 10000, 10000];
    SumOfFour(10000, 10000, 10000, 10000);
    var shares := SharesBy(Rounded(2, 40000), amounts);
    assert HalfUp(10000 * 2, 40000) == 1;
    assert shares == [1, 1, 1, 1];
    SumOfFour(1, 1, 1, 1);
    assert Largest(amounts) == 0;
    assert shares[0 := 1 + (2 - 4)] == [-1, 1, 1, 1];
  }

  lemma SumOfFour(a: int, b: int, c: int, d: int)
    ensures Sum([a, b, c, d]) == a + b + c + d
  {
    var f := (x: int) => x;
    assert [a, b, c, d] == ((([] + [a]) + [b]) + [c]) + [d];
    SumByPush(f, [], a);
    SumByPush(f, [] + [a], b);
    SumByPush(f, ([] + [a]) + [b], c);
    SumByPush(f, (([] + [a]) + [b]) + [c], d);
  }
}
