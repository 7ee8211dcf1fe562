/** The reconciliation guard every extraction passes through, and the tax paired with its lines. */
module Bills {
  import opened Domain
  import opened Sums
  import opened Rounding
  import opened Evidence
  import opened Tax

  datatype ReconciliationStatus = Balanced | Mismatch | Unverifiable

  datatype Reconciliation = Reconciliation(
    status: ReconciliationStatus,
    extractedTotal: int,
    statedSubtotal: Option<int>,
    difference: Option<int>)

  function Reconcile(lineAmounts: seq<int>, stated: Option<int>, tolerance: int := 0): Reconciliation {
    var extracted := Sum(lineAmounts);
    if stated.None? then
      Reconciliation(Unverifiable, extracted, None, None)
    else
      var difference := extracted - stated.value;
      if Abs(difference) <= tolerance then
        Reconciliation(Balanced, extracted, stated, Some(0))
      else
        Reconciliation(Mismatch, extracted, stated, Some(difference))
  }

  datatype ExtractionStatus = Extracted | NeedsInput

  datatype ExtractionResult = ExtractionResult(
    status: ExtractionStatus,
    items: seq<ExtractedItem>,
    statedSubtotal: Option<int>,
    statedTotal: Option<int>,
    reconciliation: Option<Reconciliation>)

  function NeedsInputResult(items: seq<ExtractedItem>, check: Reconciliation, subtotal: Option<int>): ExtractionResult {
    ExtractionResult(NeedsInput, items, subtotal, None, Some(check))
  }

  /** Build a result behind the guard. `components` replaces what is summed when a bill itemises. */
  function FromItems(items: seq<ExtractedItem>, subtotal: Option<int>, total: Option<int>,
                     components: Option<seq<int>>): ExtractionResult {
    var amounts := if components.Some? then components.value else Amounts(items);
    var check := Reconcile(amounts, subtotal);
    if check.status.Mismatch? then
      NeedsInputResult(items, check, subtotal)
    else
      ExtractionResult(Extracted, items, subtotal, total, Some(check))
  }

  /** A line with the share of bill-level tax that is added on top of it. */
  datatype Charge = Charge(item: ExtractedItem, taxShare: int)

  function ClaimableOf(): Charge -> int {
    (c: Charge) => c.item.gross + c.taxShare
  }

  function Untaxed(items: seq<ExtractedItem>): (charges: seq<Charge>)
    ensures |charges| == |items|
  {
    seq(|items|, i requires 0 <= i < |items| => Charge(items[i], 0))
  }

  function Taxed(items: seq<ExtractedItem>, shares: seq<int>): (charges: seq<Charge>)
    requires |items| == |shares|
    ensures |charges| == |items|
  {
    seq(|items|, i requires 0 <= i < |items| => Charge(items[i], shares[i]))
  }

  /** The lines with their tax: shares when the stated total exceeds the stated subtotal, else none. */
  function WithTaxShares(result: ExtractionResult): Result<seq<Charge>, TaxError> {
    var items := result.items;
    if items == [] then
      Success([])
    else if result.statedSubtotal.None? || result.statedTotal.None? then
      Success(Untaxed(items))
    else
      var tax := result.statedTotal.value - result.statedSubtotal.value;
      if tax <= 0 then
        Success(Untaxed(items))
      else
        var shares := Apportioned(Amounts(items), tax);
        if shares.Failure? then Failure(shares.error)
        else Success(Taxed(items, shares.value))
  }

  lemma UntaxedTotal(items: seq<ExtractedItem>)
    ensures SumBy(ClaimableOf(), Untaxed(items)) == Sum(Amounts(items))
  {
    SumByCongruent(ClaimableOf(), Untaxed(items), (x: int) => x, Amounts(items));
  }

  lemma TaxedTotal(items: seq<ExtractedItem>, shares: seq<int>)
    requires |items| == |shares|
    ensures SumBy(ClaimableOf(), Taxed(items, shares)) == Sum(Amounts(items)) + Sum(shares)
  {
    var charges := Taxed(items, shares);
    var gross := (c: Charge) => c.item.gross;
    var share := (c: Charge) => c.taxShare;
    SumByAdds(gross, share, ClaimableOf(), charges);
    SumByCongruent(gross, charges, (x: int) => x, Amounts(items));
    SumByCongruent(share, charges, (x: int) => x, shares);
  }

  /**
   * The guard compares what is summed, the components when a bill itemises and else the lines, with
   * the stated subtotal. It accepts when there is none or they are equal, and then the result is the
   * items with both totals; otherwise it keeps the items for a person, without the total.
   */
  lemma GuardAcceptsExactly(items: seq<ExtractedItem>, subtotal: Option<int>, total: Option<int>,
                            components: Option<seq<int>>)
    ensures var r := FromItems(items, subtotal, total, components);
      var summed := if components.Some? then Sum(components.value) else Sum(Amounts(items));
      && (r.status.Extracted? <==> subtotal.None? || summed == subtotal.value)
      && r.items == items && r.statedSubtotal == subtotal
      && r.statedTotal == (if r.status.Extracted? then total else None)
      && r.reconciliation.Some? && r.reconciliation.value.extractedTotal == summed
      && r.reconciliation.value.statedSubtotal == subtotal
      && r.reconciliation.value.difference == (if subtotal.None? then None else Some(summed - subtotal.value))
      && (r.reconciliation.value.status.Unverifiable? <==> subtotal.None?)
  {
  }

  /** A line's own share of a bill's tax: the tax is shared by amount, and none is shared when there is none. */
  predicate IsShareOf(share: int, items: seq<ExtractedItem>, tax: int, i: nat)
    requires i < |items|
  {
    var amounts := Amounts(items);
    if tax <= 0 then share == 0
    else if Sum(amounts) == 0 then false
    else if i == Largest(amounts) then share == tax - SumBy(Rounded(tax, Sum(amounts)), Others(amounts))
    else share == HalfUp(items[i].gross * tax, Sum(amounts))
  }

  /** The tax a bill states: by how much its total exceeds its subtotal, when it states both. */
  function TaxStated(result: ExtractionResult): nat {
    if result.statedSubtotal.Some? && result.statedTotal.Some?
    then Max(result.statedTotal.value - result.statedSubtotal.value, 0) else 0
  }

  /** The charges are the items in order, each with its own share of the tax beyond the subtotal. */
  lemma LinesCarryTheirOwnShares(result: ExtractionResult)
    ensures var items := result.items;
      var tax := TaxStated(result);
      var charges := WithTaxShares(result);
      && (charges.Failure? <==> items != [] && tax > 0 && Sum(Amounts(items)) == 0)
      && (charges.Success? ==>
            && |charges.value| == |items|
            && forall i :: 0 <= i < |items| ==>
                 charges.value[i].item == items[i] && IsShareOf(charges.value[i].taxShare, items, tax, i))
  {
    var items := result.items;
    if items != [] && result.statedSubtotal.Some? && result.statedTotal.Some? {
      var amounts, tax := Amounts(items), result.statedTotal.value - result.statedSubtotal.value;
      if tax > 0 && Sum(amounts) != 0 {
        LargestShareIsTheRest(amounts, tax);
        forall i | 0 <= i < |items| && i != Largest(amounts)
          ensures Apportioned(amounts, tax).value[i] == HalfUp(items[i].gross * tax, Sum(amounts))
        {
          SmallerShareIs(amounts, tax, i);
        }
      }
    }
  }

  /** A document whose lines miss its stated subtotal never becomes an accepted extraction. */
  lemma MissedSubtotalNeedsInput(items: seq<ExtractedItem>, subtotal: int, total: Option<int>)
    ensures FromItems(items, Some(subtotal), total, None).status.Extracted?
       <==> Sum(Amounts(items)) == subtotal
  {
  }

  predicate ClaimsExactly(charges: Result<seq<Charge>, TaxError>, total: int) {
    charges.Success? && SumBy(ClaimableOf(), charges.value) == total
  }

  /**
   * What an accepted bill's lines can claim adds up to the total it states, exactly when the total
   * equals the subtotal, or exceeds a subtotal that is not zero. A larger total over a zero
   * subtotal cannot be apportioned; a smaller total is ignored.
   */
  lemma BillIsConserved(items: seq<ExtractedItem>, subtotal: int, total: int)
    requires FromItems(items, Some(subtotal), Some(total), None).status.Extracted?
    ensures ClaimsExactly(WithTaxShares(FromItems(items, Some(subtotal), Some(total), None)), total)
       <==> total == subtotal || (total > subtotal && subtotal != 0)
  {
    MissedSubtotalNeedsInput(items, subtotal, Some(total));
    UntaxedTotal(items);
    AcceptedBillCharges(items, subtotal, total);
    if items != [] && total > subtotal && subtotal != 0 {
      TaxedLinesReachTheTotal(items, total - subtotal);
    }
  }

  /** What the lines of an accepted bill are charged, by what its totals say. */
  lemma AcceptedBillCharges(items: seq<ExtractedItem>, subtotal: int, total: int)
    requires Sum(Amounts(items)) == subtotal
    ensures WithTaxShares(FromItems(items, Some(subtotal), Some(total), None))
         == if items == [] || total <= subtotal then Success(Untaxed(items))
            else if subtotal == 0 then Failure(ZeroSubtotal)
            else Success(Taxed(items, Apportioned(Amounts(items), total - subtotal).value))
  {
  }

  lemma TaxedLinesReachTheTotal(items: seq<ExtractedItem>, tax: int)
    requires items != [] && Sum(Amounts(items)) != 0
    ensures Apportioned(Amounts(items), tax).Success?
    ensures SumBy(ClaimableOf(), Taxed(items, Apportioned(Amounts(items), tax).value)) == Sum(Amounts(items)) + tax
  {
    var amounts := Amounts(items);
    SharesSumToTax(Rounded(tax, Sum(amounts)), amounts, tax);
    TaxedTotal(items, Apportioned(amounts, tax).value);
  }
}
