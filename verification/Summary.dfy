/** The settlement summary, and what holds between it and the lines it sums. */
module Summary {
  import opened Domain
  import opened Sums
  import opened Policy
  import opened Engine

  datatype SettlementSummary = SettlementSummary(
    employeePaidGross: int,
    companyPaidMemo: int,
    disallowedTotal: int,
    netReimbursable: int,
    advanceDrawn: int,
    payable: int,
    recoverable: int)

  /** Whether a line takes part in the money. */
  predicate Counts(status: LineStatus) {
    !status.Rejected? && !status.Withdrawn? && !status.Memo?
  }

  function EmployeeGross(): LineOutcome -> int {
    (o: LineOutcome) => if o.line.paidBy.ByEmployee? && Counts(o.status) then o.line.Claimable() else 0
  }

  function CompanyMemo(): LineOutcome -> int {
    (o: LineOutcome) => if o.line.paidBy.ByCompany? then o.line.Claimable() else 0
  }

  function CountedDisallowed(): LineOutcome -> int {
    (o: LineOutcome) => if Counts(o.status) then o.disallowed else 0
  }

  function AllowedOf(): LineOutcome -> int {
    (o: LineOutcome) => o.allowed
  }

  function Summarise(outcomes: seq<LineOutcome>, advance: int): SettlementSummary {
    var gross := SumBy(EmployeeGross(), outcomes);
    var disallowed := SumBy(CountedDisallowed(), outcomes);
    var net := gross - disallowed;
    SettlementSummary(gross, SumBy(CompanyMemo(), outcomes), disallowed, net, advance,
                      Max(net - advance, 0), Max(advance - net, 0))
  }

  /** Payable and recoverable settle the net against the advance, and never both at once. */
  lemma SettlementBalances(outcomes: seq<LineOutcome>, advance: int)
    ensures var r := Summarise(outcomes, advance);
      && r.payable - r.recoverable == r.netReimbursable - advance
      && r.payable >= 0 && r.recoverable >= 0
      && (r.payable == 0 || r.recoverable == 0)
  {
  }

  // What a claim's lines contribute, read off the entries alone

  /** No line the company paid reaches the evaluator unsettled. */
  predicate CompanyLinesAreSettled(entries: seq<Entry>) {
    forall i :: 0 <= i < |entries| && entries[i].line.paidBy.ByCompany? ==> IsSettled(entries[i])
  }

  function UnsettledCompany(): Entry -> int {
    (e: Entry) => if e.line.paidBy.ByCompany? && !IsSettled(e) then e.line.Claimable() else 0
  }

  function UnsettledEmployee(): Entry -> int {
    (e: Entry) => if e.line.paidBy.ByEmployee? && !IsSettled(e) then e.line.Claimable() else 0
  }

  function CompanyClaimable(): Entry -> int {
    (e: Entry) => if e.line.paidBy.ByCompany? then e.line.Claimable() else 0
  }

  /** Every line's allowed and disallowed amounts add up to what it claims, or it is left out. */
  lemma OutcomeBalances(e: Entry, s: Settings, already: int)
    ensures var o := OutcomeOf(e, s, already);
      && o.line == e.line
      && o.allowed >= 0
      && (Counts(o.status) <==> !IsSettled(e))
      && (IsSettled(e) ==> o.allowed == 0 && o.disallowed == 0)
      && (!IsSettled(e) ==> o.allowed + o.disallowed == e.line.Claimable())
  {
    AllowedIsWhatRemains(e.line, s, already);
  }

  lemma EveryOutcomeBalances(entries: seq<Entry>, s: Settings, start: map<int, int>, i: nat)
    requires i < |entries|
    ensures var o := Outcomes(entries, s, start)[i];
      && o.line == entries[i].line
      && o.allowed >= 0
      && (Counts(o.status) <==> !IsSettled(entries[i]))
      && (IsSettled(entries[i]) ==> o.allowed == 0 && o.disallowed == 0)
      && (!IsSettled(entries[i]) ==> o.allowed + o.disallowed == entries[i].line.Claimable())
  {
    var day := entries[i].line.date;
    OutcomeBalances(entries[i], s, if day.Some? then Already(entries, s, start, day.value, i) else 0);
  }

  lemma GrossOfEntries(entries: seq<Entry>, s: Settings, start: map<int, int>)
    ensures SumBy(EmployeeGross(), Outcomes(entries, s, start)) == SumBy(UnsettledEmployee(), entries)
    ensures SumBy(CompanyMemo(), Outcomes(entries, s, start)) == SumBy(CompanyClaimable(), entries)
  {
    var outcomes := Outcomes(entries, s, start);
    forall i | 0 <= i < |entries|
      ensures EmployeeGross()(outcomes[i]) == UnsettledEmployee()(entries[i])
      ensures CompanyMemo()(outcomes[i]) == CompanyClaimable()(entries[i])
    {
      EveryOutcomeBalances(entries, s, start, i);
    }
    SumByCongruent(EmployeeGross(), outcomes, UnsettledEmployee(), entries);
    SumByCongruent(CompanyMemo(), outcomes, CompanyClaimable(), entries);
  }

  function Unsettled(): Entry -> int {
    (e: Entry) => if !IsSettled(e) then e.line.Claimable() else 0
  }

  function Accounted(): LineOutcome -> int {
    (o: LineOutcome) => o.allowed + (if Counts(o.status) then o.disallowed else 0)
  }

  function Nothing(): Entry -> int {
    (e: Entry) => 0
  }

  /** Money is conserved: what counted lines claim is what they are allowed plus what they are not. */
  lemma AllowedAndDisallowedAddUp(entries: seq<Entry>, s: Settings, start: map<int, int>)
    ensures SumBy(AllowedOf(), Outcomes(entries, s, start)) + SumBy(CountedDisallowed(), Outcomes(entries, s, start))
         == SumBy(UnsettledEmployee(), entries) + SumBy(UnsettledCompany(), entries)
  {
    var outcomes := Outcomes(entries, s, start);
    forall i | 0 <= i < |entries|
      ensures Accounted()(outcomes[i]) == Unsettled()(entries[i])
    {
      EveryOutcomeBalances(entries, s, start, i);
    }
    SumByAdds(AllowedOf(), CountedDisallowed(), Accounted(), outcomes);
    SumByCongruent(Accounted(), outcomes, Unsettled(), entries);
    SumByAdds(UnsettledEmployee(), UnsettledCompany(), Unsettled(), entries);
  }

  /**
   * The net is the sum of what every line was allowed, less whatever the company paid on lines that
   * drafting did not set aside. Drafting sets all of them aside.
   */
  lemma NetIsWhatWasAllowed(entries: seq<Entry>, s: Settings, start: map<int, int>, advance: int)
    ensures Summarise(Outcomes(entries, s, start), advance).netReimbursable
         == SumBy(AllowedOf(), Outcomes(entries, s, start)) - SumBy(UnsettledCompany(), entries)
    ensures CompanyLinesAreSettled(entries) ==>
              Summarise(Outcomes(entries, s, start), advance).netReimbursable
              == SumBy(AllowedOf(), Outcomes(entries, s, start)) >= 0
  {
    GrossOfEntries(entries, s, start);
    AllowedAndDisallowedAddUp(entries, s, start);
    AllowedIsNonNegative(entries, s, start);
    if CompanyLinesAreSettled(entries) {
      SumByCongruent(UnsettledCompany(), entries, Nothing(), entries);
      ZeroTotal(entries);
    }
  }

  lemma ZeroTotal(entries: seq<Entry>)
    ensures SumBy(Nothing(), entries) == 0
  {
    if entries != [] {
      ZeroTotal(entries[..|entries| - 1]);
    }
  }

  lemma AllowedIsNonNegative(entries: seq<Entry>, s: Settings, start: map<int, int>)
    ensures SumBy(AllowedOf(), Outcomes(entries, s, start)) >= 0
  {
    forall i | 0 <= i < |entries|
      ensures 0 <= AllowedOf()(Outcomes(entries, s, start)[i])
    {
      EveryOutcomeBalances(entries, s, start, i);
    }
    SumByAtMost(Nothing(), entries, AllowedOf(), Outcomes(entries, s, start));
    ZeroTotal(entries);
  }

  // The closed form of the meal accumulator

  function MealOn(s: Settings, day: int): Entry -> int {
    (e: Entry) => if !IsSettled(e) && IsCapped(e.line, s) && IsOn(e, day) then Worth(e.line, s) else 0
  }

  /** What a day's meals would come to without a cap. */
  function DayWorth(entries: seq<Entry>, s: Settings, day: int): int {
    SumBy(MealOn(s, day), entries)
  }

  /**
   * However a day's meals are ordered, what they are allowed between them is the smaller of the cap
   * and what they are worth.
   */
  lemma {:induction false} DayTotalClosedForm(entries: seq<Entry>, s: Settings, day: int, n: nat)
    requires n <= |entries| && s.cityClass in s.params.mealLimits
    ensures Already(entries, s, map[], day, n) == Min(Cap(s), DayWorth(entries[..n], s, day))
    ensures DayWorth(entries[..n], s, day) >= 0
  {
    if n > 0 {
      DayTotalClosedForm(entries, s, day, n - 1);
      var e := entries[n - 1];
      assert entries[..n][..n - 1] == entries[..n - 1];
      if IsOn(e, day) && e.line.head.Meals? && !IsSettled(e) {
        var already := Already(entries, s, map[], day, n - 1);
        CappedMealFillsTheCap(e.line, s, already);
        AllowedIsWhatRemains(e.line, s, already);
      }
    }
  }

  /** What a line was allowed as a meal of a day. */
  function MealGot(day: int): LineOutcome -> int {
    (o: LineOutcome) => if o.line.head.Meals? && o.line.date == Some(day) then o.allowed else 0
  }

  /** A day's running total is what the day's earlier meals were allowed. */
  lemma {:induction false} AlreadyIsWhatMealsGot(entries: seq<Entry>, s: Settings, day: int, n: nat)
    requires n <= |entries|
    ensures Already(entries, s, map[], day, n) == SumBy(MealGot(day), Outcomes(entries, s, map[])[..n])
  {
    if n > 0 {
      var outcomes := Outcomes(entries, s, map[]);
      AlreadyIsWhatMealsGot(entries, s, day, n - 1);
      assert outcomes[..n] == outcomes[..n - 1] + [outcomes[n - 1]];
      SumByPush(MealGot(day), outcomes[..n - 1], outcomes[n - 1]);
      EveryOutcomeBalances(entries, s, map[], n - 1);
    }
  }

  /** What a line that is no capped meal is allowed. */
  function Solo(s: Settings): Entry -> int {
    (e: Entry) => if IsSettled(e) || IsCapped(e.line, s) then 0 else Evaluated(e.line, s, 0).allowed
  }

  /** The capped days from `lo` up to `hi`, each at the smaller of its worth and the cap. */
  function CappedTotal(entries: seq<Entry>, s: Settings, lo: int, hi: int): int
    decreases hi - lo
  {
    if hi <= lo then 0
    else CappedTotal(entries, s, lo, hi - 1) + Min(Cap(s), DayWorth(entries, s, hi - 1))
  }

  predicate DaysWithin(entries: seq<Entry>, lo: int, hi: int) {
    forall i :: 0 <= i < |entries| && entries[i].line.date.Some? ==> lo <= entries[i].line.date.value < hi
  }

  lemma {:induction false} AlreadyOfPrefix(entries: seq<Entry>, s: Settings, start: map<int, int>, day: int, m: nat,
                                           n: nat)
    requires n <= m <= |entries|
    ensures Already(entries[..m], s, start, day, n) == Already(entries, s, start, day, n)
    decreases n
  {
    if n > 0 {
      AlreadyOfPrefix(entries, s, start, day, m, n - 1);
    }
  }

  lemma OutcomesOfPrefix(entries: seq<Entry>, s: Settings, start: map<int, int>, m: nat)
    requires m <= |entries|
    ensures Outcomes(entries[..m], s, start) == Outcomes(entries, s, start)[..m]
  {
    forall i | 0 <= i < m
      ensures Outcomes(entries[..m], s, start)[i] == Outcomes(entries, s, start)[i]
    {
      if entries[i].line.date.Some? {
        AlreadyOfPrefix(entries, s, start, entries[i].line.date.value, m, i);
      }
    }
  }

  /** Adding a line changes the capped total only on the line's own day. */
  lemma {:induction false} CappedTotalGrows(entries: seq<Entry>, e: Entry, s: Settings, lo: int, hi: int)
    ensures CappedTotal(entries + [e], s, lo, hi) - CappedTotal(entries, s, lo, hi)
         == if !IsSettled(e) && IsCapped(e.line, s) && lo <= e.line.date.value < hi
            then Min(Cap(s), DayWorth(entries, s, e.line.date.value) + Worth(e.line, s))
                 - Min(Cap(s), DayWorth(entries, s, e.line.date.value))
            else 0
    decreases hi - lo
  {
    if lo < hi {
      CappedTotalGrows(entries, e, s, lo, hi - 1);
      SumByPush(MealOn(s, hi - 1), entries, e);
    }
  }

  /** The whole claim: lines on their own, plus each capped day at its worth or the cap. */
  lemma {:induction false} TotalAllowedClosedForm(entries: seq<Entry>, s: Settings, lo: int, hi: int)
    requires DaysWithin(entries, lo, hi)
    ensures SumBy(AllowedOf(), Outcomes(entries, s, map[])) == SumBy(Solo(s), entries) + CappedTotal(entries, s, lo, hi)
  {
    if entries == [] {
      NoLinesNoMeals(s, lo, hi);
    } else {
      var n := |entries| - 1;
      var front, e := entries[..n], entries[n];
      assert entries == front + [e];
      TotalAllowedClosedForm(front, s, lo, hi);
      OutcomesOfPrefix(entries, s, map[], n);
      SumByPush(Solo(s), front, e);
      CappedTotalGrows(front, e, s, lo, hi);
      LastLineAllowed(entries, s);
    }
  }

  lemma NoLinesNoMeals(s: Settings, lo: int, hi: int)
    ensures CappedTotal([], s, lo, hi) == 0
    decreases hi - lo
  {
    if lo < hi {
      NoLinesNoMeals(s, lo, hi - 1);
    }
  }

  lemma LastLineAllowed(entries: seq<Entry>, s: Settings)
    requires entries != []
    ensures var n := |entries| - 1; var e := entries[n];
      Outcomes(entries, s, map[])[n].allowed
      == if !IsSettled(e) && IsCapped(e.line, s)
         then Min(Cap(s), DayWorth(entries[..n], s, e.line.date.value) + Worth(e.line, s))
              - Min(Cap(s), DayWorth(entries[..n], s, e.line.date.value))
         else Solo(s)(e)
  {
    var n := |entries| - 1;
    var e := entries[n];
    if !IsSettled(e) {
      if IsCapped(e.line, s) {
        DayTotalClosedForm(entries, s, e.line.date.value, n);
        CappedMealFillsTheCap(e.line, s, Already(entries, s, map[], e.line.date.value, n));
      } else {
        UncappedIgnoresTheDay(e.line, s,
                              if e.line.date.Some? then Already(entries, s, map[], e.line.date.value, n) else 0);
      }
    }
  }

  // Order

  function DayAfter(entries: seq<Entry>): (hi: int)
    ensures forall i :: 0 <= i < |entries| && entries[i].line.date.Some? ==> entries[i].line.date.value < hi
  {
    if entries == [] then 0
    else
      var n := |entries| - 1;
      Max(DayAfter(entries[..n]), if entries[n].line.date.Some? then entries[n].line.date.value + 1 else 0)
  }

  function FirstDay(entries: seq<Entry>): (lo: int)
    ensures forall i :: 0 <= i < |entries| && entries[i].line.date.Some? ==> lo <= entries[i].line.date.value
  {
    if entries == [] then 0
    else
      var n := |entries| - 1;
      Min(FirstDay(entries[..n]), if entries[n].line.date.Some? then entries[n].line.date.value else 0)
  }

  lemma {:induction false} CappedTotalIgnoresOrder(entries: seq<Entry>, others: seq<Entry>, s: Settings, lo: int,
                                                   hi: int)
    requires multiset(entries) == multiset(others)
    ensures CappedTotal(entries, s, lo, hi) == CappedTotal(others, s, lo, hi)
    decreases hi - lo
  {
    if lo < hi {
      CappedTotalIgnoresOrder(entries, others, s, lo, hi - 1);
      SumByPermutation(MealOn(s, hi - 1), entries, others);
    }
  }

  /**
   * The order the lines were taken in leaves no trace in the money: any two orders of the same lines
   * give every day the same meal total and the claim the same summary.
   */
  lemma SummaryIgnoresOrder(entries: seq<Entry>, others: seq<Entry>, s: Settings, advance: int)
    requires multiset(entries) == multiset(others)
    ensures Summarise(Outcomes(entries, s, map[]), advance) == Summarise(Outcomes(others, s, map[]), advance)
  {
    var lo, hi := FirstDay(entries), DayAfter(entries);
    forall i | 0 <= i < |others| && others[i].line.date.Some?
      ensures lo <= others[i].line.date.value < hi
    {
      assert others[i] in multiset(others);
      assert others[i] in entries;
    }
    TotalAllowedClosedForm(entries, s, lo, hi);
    TotalAllowedClosedForm(others, s, lo, hi);
    CappedTotalIgnoresOrder(entries, others, s, lo, hi);
    SumByPermutation(Solo(s), entries, others);
    GrossOfEntries(entries, s, map[]);
    GrossOfEntries(others, s, map[]);
    AllowedAndDisallowedAddUp(entries, s, map[]);
    AllowedAndDisallowedAddUp(others, s, map[]);
    SumByPermutation(UnsettledEmployee(), entries, others);
    SumByPermutation(UnsettledCompany(), entries, others);
    SumByPermutation(CompanyClaimable(), entries, others);
  }

  lemma DayTotalsIgnoreOrder(entries: seq<Entry>, others: seq<Entry>, s: Settings, day: int)
    requires multiset(entries) == multiset(others) && s.cityClass in s.params.mealLimits
    ensures Already(entries, s, map[], day, |entries|) == Already(others, s, map[], day, |others|) <= Cap(s)
  {
    DayTotalClosedForm(entries, s, day, |entries|);
    DayTotalClosedForm(others, s, day, |others|);
    assert entries[..|entries|] == entries && others[..|others|] == others;
    SumByPermutation(MealOn(s, day), entries, others);
  }

  /** One line's own amount does depend on the order: the meal that comes second meets the cap. */
  lemma LineAmountsDependOnOrder(s: Settings, meal: Line, day: int)
    requires s.cityClass in s.params.mealLimits && s.params.mealLimits[s.cityClass] == 150000
    requires meal.head.Meals? && meal.date == Some(day) && meal.taxShare == 0 && !IsCaught(meal, s)
    ensures var lunch, dinner := Entry(meal.(gross := 100000), None), Entry(meal.(gross := 90000), None);
      && Outcomes([lunch, dinner], s, map[])[0].allowed == 100000
      && Outcomes([dinner, lunch], s, map[])[1].allowed == 60000
  {
    var lunch, dinner := Entry(meal.(gross := 100000), None), Entry(meal.(gross := 90000), None);
    assert IsCaught(lunch.line, s) == IsCaught(dinner.line, s) == IsCaught(meal, s);
    assert Already([lunch, dinner], s, map[], day, 0) == 0;
    CappedMealFillsTheCap(lunch.line, s, 0);
    CappedMealFillsTheCap(dinner.line, s, 0);
    assert Already([dinner, lunch], s, map[], day, 0) == 0;
    assert Already([dinner, lunch], s, map[], day, 1) == 90000;
    CappedMealFillsTheCap(lunch.line, s, 90000);
  }

  // Withdrawal

  /** The same line, left as it was or withdrawn. */
  predicate KeptOrWithdrawn(e: Entry, e': Entry) {
    e'.line == e.line && (e'.preset == e.preset || e'.preset == Some(LineStatus.Withdrawn))
  }

  predicate Withdrawing(entries: seq<Entry>, entries': seq<Entry>) {
    |entries'| == |entries| && forall i :: 0 <= i < |entries| ==> KeptOrWithdrawn(entries[i], entries'[i])
  }

  lemma {:induction false} CappedTotalShrinks(entries: seq<Entry>, entries': seq<Entry>, s: Settings, lo: int, hi: int)
    requires Withdrawing(entries, entries')
    ensures CappedTotal(entries', s, lo, hi) <= CappedTotal(entries, s, lo, hi)
    decreases hi - lo
  {
    if lo < hi {
      CappedTotalShrinks(entries, entries', s, lo, hi - 1);
      SumByAtMost(MealOn(s, hi - 1), entries', MealOn(s, hi - 1), entries);
    }
  }

  /**
   * Withdrawing lines never raises the total allowed, although a withdrawn meal frees its part of
   * the day's cap for the day's other meals.
   */
  lemma WithdrawalNeverRaisesTheAllowed(entries: seq<Entry>, entries': seq<Entry>, s: Settings)
    requires Withdrawing(entries, entries')
    ensures SumBy(AllowedOf(), Outcomes(entries', s, map[])) <= SumBy(AllowedOf(), Outcomes(entries, s, map[]))
  {
    var lo, hi := FirstDay(entries), DayAfter(entries);
    assert DaysWithin(entries', lo, hi);
    TotalAllowedClosedForm(entries, s, lo, hi);
    TotalAllowedClosedForm(entries', s, lo, hi);
    CappedTotalShrinks(entries, entries', s, lo, hi);
    forall i | 0 <= i < |entries|
      ensures Solo(s)(entries'[i]) <= Solo(s)(entries[i])
    {
      AllowedIsWhatRemains(entries[i].line, s, 0);
    }
    SumByAtMost(Solo(s), entries', Solo(s), entries);
  }

  /** So no withdrawal raises the net or the payable amount, or lowers what is recoverable. */
  lemma WithdrawalNeverRaisesTheNet(entries: seq<Entry>, entries': seq<Entry>, s: Settings, advance: int)
    requires Withdrawing(entries, entries') && CompanyLinesAreSettled(entries)
    ensures var before := Summarise(Outcomes(entries, s, map[]), advance);
      var after := Summarise(Outcomes(entries', s, map[]), advance);
      && 0 <= after.netReimbursable <= before.netReimbursable
      && after.payable <= before.payable
      && after.recoverable >= before.recoverable
  {
    WithdrawalNeverRaisesTheAllowed(entries, entries', s);
    NetIsWhatWasAllowed(entries, s, map[], advance);
    NetIsWhatWasAllowed(entries', s, map[], advance);
  }
}
