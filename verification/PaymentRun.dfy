/** Which payment run a verified claim makes, on the Gregorian calendar. */
module PaymentRun {
  import opened Domain
  import opened Rounding
  import opened Sorting

  datatype Date = Date(year: int, month: int, day: int)

  predicate IsLeap(year: int) {
    year % 4 == 0 && (year % 100 != 0 || year % 400 == 0)
  }

  function MonthLength(year: int, month: int): (n: int)
    ensures 28 <= n <= 31
  {
    if month == 2 then (if IsLeap(year) then 29 else 28)
    else if month == 4 || month == 6 || month == 9 || month == 11 then 30
    else 31
  }

  predicate IsDate(d: Date) {
    && d.year >= 1
    && 1 <= d.month <= 12
    && 1 <= d.day <= MonthLength(d.year, d.month)
  }

  predicate NotAfter(a: Date, b: Date) {
    || a.year < b.year
    || (a.year == b.year && (a.month < b.month || (a.month == b.month && a.day <= b.day)))
  }

  // Sorted run days

  function SortDays(days: seq<int>): (r: seq<int>)
    ensures days != [] ==> r != []
  {
    var order := SortedIndices(days, (_: nat) => true, |days|);
    assert days != [] ==> 0 in order;
    seq(|order|, k requires 0 <= k < |order| => days[order[k]])
  }

  predicate IsSorted(days: seq<int>) {
    forall i, j :: 0 <= i < j < |days| ==> days[i] <= days[j]
  }

  lemma SortDaysIsSorted(days: seq<int>)
    ensures IsSorted(SortDays(days))
    ensures forall day :: day in SortDays(days) <==> day in days
  {
    var order := SortedIndices(days, (_: nat) => true, |days|);
    forall a, b | 0 <= a < b < |order|
      ensures SortDays(days)[a] <= SortDays(days)[b]
    {
      assert Before(days, order[a], order[b]);
    }
    forall i | 0 <= i < |days|
      ensures days[i] in SortDays(days)
    {
      assert i in order;
      var k :| 0 <= k < |order| && order[k] == i;
      assert SortDays(days)[k] == days[i];
    }
  }

  // The next run

  /** The configured run days; none configured means the tenth and the twenty-fifth. */
  function RunDays(configured: seq<int>): (days: seq<int>)
    ensures days != []
  {
    if configured == [] then [10, 25] else configured
  }

  /** The first listed day from `day` on that the month has. */
  function FirstFrom(days: seq<int>, day: int, length: int): Option<int> {
    if days == [] then None
    else if days[0] >= day && days[0] <= length then Some(days[0])
    else FirstFrom(days[1..], day, length)
  }

  datatype CalendarError = DayOutOfRange

  function FirstOfNextMonth(d: Date): Date {
    Date(if d.month == 12 then d.year + 1 else d.year, if d.month == 12 then 1 else d.month + 1, 1)
  }

  /** Fails when the first run day does not exist in the month it is asked for. */
  function NextPaymentRun(after: Date, configured: seq<int>): Result<Date, CalendarError> {
    var days := SortDays(RunDays(configured));
    var fit := FirstFrom(days, after.day, MonthLength(after.year, after.month));
    if fit.Some? then
      Success(after.(day := fit.value))
    else
      var next := FirstOfNextMonth(after).(day := days[0]);
      if IsDate(next) then Success(next) else Failure(DayOutOfRange)
  }

  predicate IsRunDate(d: Date, configured: seq<int>) {
    IsDate(d) && d.day in RunDays(configured)
  }

  lemma {:induction false} FirstFromIsLeast(days: seq<int>, day: int, length: int)
    requires IsSorted(days)
    ensures var r := FirstFrom(days, day, length);
      && (r.Some? ==> r.value in days && day <= r.value <= length)
      && (forall d :: d in days && day <= d <= length ==> r.Some? && r.value <= d)
  {
    if days != [] {
      FirstFromIsLeast(days[1..], day, length);
      assert forall d :: d in days ==> d == days[0] || d in days[1..];
      assert forall d :: d in days[1..] ==> days[0] <= d;
    }
  }

  function SmallestRunDay(configured: seq<int>): int {
    SortDays(RunDays(configured))[0]
  }

  lemma SmallestIsSmallest(configured: seq<int>)
    ensures SmallestRunDay(configured) in RunDays(configured)
    ensures forall day :: day in RunDays(configured) ==> SmallestRunDay(configured) <= day
  {
    SortDaysIsSorted(RunDays(configured));
    assert SmallestRunDay(configured) in SortDays(RunDays(configured));
  }

  /**
   * What is found is the least run date that is not before the given date. It is refused exactly
   * when no run day is left in the month and the next month lacks the smallest one.
   */
  lemma NextRunIsLeast(after: Date, configured: seq<int>)
    requires IsDate(after)
    ensures var r := NextPaymentRun(after, configured);
      && (r.Success? ==>
            && IsRunDate(r.value, configured) && NotAfter(after, r.value)
            && forall d :: IsRunDate(d, configured) && NotAfter(after, d) ==> NotAfter(r.value, d))
      && (r.Failure? <==>
            && !IsDate(FirstOfNextMonth(after).(day := SmallestRunDay(configured)))
            && forall day :: day in RunDays(configured) ==> !(after.day <= day <= MonthLength(after.year, after.month)))
  {
    SortDaysIsSorted(RunDays(configured));
    SmallestIsSmallest(configured);
    FirstFromIsLeast(SortDays(RunDays(configured)), after.day, MonthLength(after.year, after.month));
  }

  /** Run days whose smallest every month has. */
  predicate EveryMonthHasARun(configured: seq<int>) {
    1 <= SmallestRunDay(configured) <= 28
  }

  lemma NextRunIsFound(after: Date, configured: seq<int>)
    requires IsDate(after) && EveryMonthHasARun(configured)
    ensures NextPaymentRun(after, configured).Success?
  {
    NextRunIsLeast(after, configured);
  }

  /** A run date is its own next run, and a later date never makes an earlier run. */
  lemma NextRunIsAClosure(a: Date, b: Date, configured: seq<int>)
    requires IsDate(a) && IsDate(b) && EveryMonthHasARun(configured)
    ensures NextPaymentRun(a, configured).Success? && NextPaymentRun(b, configured).Success?
    ensures NotAfter(a, NextPaymentRun(a, configured).value)
    ensures NotAfter(a, b) ==> NotAfter(NextPaymentRun(a, configured).value, NextPaymentRun(b, configured).value)
    ensures NextPaymentRun(NextPaymentRun(a, configured).value, configured) == NextPaymentRun(a, configured)
  {
    NextRunIsFound(a, configured);
    NextRunIsFound(b, configured);
    NextRunIsLeast(a, configured);
    NextRunIsLeast(b, configured);
    var r := NextPaymentRun(a, configured).value;
    NextRunIsFound(r, configured);
    NextRunIsLeast(r, configured);
  }

  // Waiting

  function DaysBeforeYear(year: int): int {
    365 * (year - 1) + (year - 1) / 4 - (year - 1) / 100 + (year - 1) / 400
  }

  function DaysBeforeMonth(year: int, month: int): int
    decreases month
  {
    if month <= 1 then 0 else DaysBeforeMonth(year, month - 1) + MonthLength(year, month - 1)
  }

  /** The day number of a date, the first of January of year 1 being day 1. */
  function Ordinal(d: Date): int {
    DaysBeforeYear(d.year) + DaysBeforeMonth(d.year, d.month) + d.day
  }

  lemma YearLength(year: int)
    requires year >= 1
    ensures DaysBeforeYear(year + 1) - DaysBeforeYear(year) == if IsLeap(year) then 366 else 365
  {
    QuotientSteps(year, 4);
    QuotientSteps(year, 100);
    QuotientSteps(year, 400);
    LeapTurns(year);
    assert year + 1 - 1 == year;
  }

  lemma QuotientSteps(year: int, n: int)
    requires year >= 1 && n >= 2
    ensures year / n == (year - 1) / n + (if year % n == 0 then 1 else 0)
  {
    var q, r := year / n, year % n;
    assert year == q * n + r;
    if r == 0 {
      QuotientIs(year - 1, n, q - 1, n - 1);
    } else {
      QuotientIs(year - 1, n, q, r - 1);
    }
  }

  lemma QuotientIs(x: int, n: int, q: int, r: int)
    requires n >= 2 && 0 <= r < n && x == q * n + r
    ensures x / n == q
  {
    var d := x / n - q;
    assert x == (x / n) * n + x % n;
    Distribute(x / n, -q, n);
    NegateFactor(q, n);
    assert d * n == r - x % n;
    assert -n < d * n < n;
    SmallMultiple(d, n);
  }

  lemma SmallMultiple(d: int, n: int)
    requires n >= 2 && -n < d * n < n
    ensures d == 0
  {
    if d >= 1 {
      TimesMonotone(1, d, n);
    } else if d <= -1 {
      TimesMonotone(d, -1, n);
    }
  }

  /** A year divisible by 400 is divisible by 100, and one divisible by 100 by 4. */
  lemma LeapTurns(year: int)
    ensures year % 400 == 0 ==> year % 100 == 0
    ensures year % 100 == 0 ==> year % 4 == 0
  {
  }

  lemma MonthsMakeTheYear(year: int)
    ensures DaysBeforeMonth(year, 12) + MonthLength(year, 12) == if IsLeap(year) then 366 else 365
  {
    assert DaysBeforeMonth(year, 4) == 31 + MonthLength(year, 2) + 31;
    assert DaysBeforeMonth(year, 7) == DaysBeforeMonth(year, 4) + 91;
    assert DaysBeforeMonth(year, 10) == DaysBeforeMonth(year, 7) + 92;
    assert DaysBeforeMonth(year, 12) == DaysBeforeMonth(year, 10) + 61;
  }

  /** The last day of a month is followed by the first of the next, year ends included. */
  lemma MonthsFollowOn(d: Date)
    requires IsDate(d)
    ensures Ordinal(FirstOfNextMonth(d)) == Ordinal(d) + MonthLength(d.year, d.month) - d.day + 1
  {
    if d.month == 12 {
      YearLength(d.year);
      MonthsMakeTheYear(d.year);
    }
  }

  // Dates in order

  lemma {:induction false} MonthsGrow(year: int, month: int, later: int)
    requires 1 <= month < later
    ensures DaysBeforeMonth(year, month) + MonthLength(year, month) <= DaysBeforeMonth(year, later)
    decreases later
  {
    if month + 1 < later {
      MonthsGrow(year, month, later - 1);
    }
  }

  /** A date's day number lies within its year. */
  lemma DayIsInItsYear(d: Date)
    requires IsDate(d)
    ensures DaysBeforeYear(d.year) < Ordinal(d) <= DaysBeforeYear(d.year + 1)
  {
    MonthsMakeTheYear(d.year);
    YearLength(d.year);
    if d.month < 12 {
      MonthsGrow(d.year, d.month, 12);
    }
    if d.month > 1 {
      MonthsGrow(d.year, 1, d.month);
    }
  }

  lemma {:induction false} YearsGrow(year: int, later: int)
    requires 1 <= year <= later
    ensures DaysBeforeYear(year) <= DaysBeforeYear(later)
    decreases later
  {
    if year < later {
      YearsGrow(year, later - 1);
      YearLength(later - 1);
    }
  }

  lemma EarlierHasASmallerNumber(a: Date, b: Date)
    requires IsDate(a) && IsDate(b) && NotAfter(a, b) && a != b
    ensures Ordinal(a) < Ordinal(b)
  {
    if a.year < b.year {
      DayIsInItsYear(a);
      DayIsInItsYear(b);
      YearsGrow(a.year + 1, b.year);
    } else if a.month < b.month {
      MonthsGrow(a.year, a.month, b.month);
    }
  }

  /** Dates come in the order of their day numbers. */
  lemma NotAfterExactly(a: Date, b: Date)
    requires IsDate(a) && IsDate(b)
    ensures NotAfter(a, b) <==> Ordinal(a) <= Ordinal(b)
  {
    if a != b {
      if NotAfter(a, b) {
        EarlierHasASmallerNumber(a, b);
      } else {
        EarlierHasASmallerNumber(b, a);
      }
    }
  }

  /** The months have the calendar's lengths, February one day more when its year has 366. */
  lemma MonthLengthsAre(year: int, month: int)
    requires year >= 1 && 1 <= month <= 12
    ensures MonthLength(year, month)
         == [31, if DaysBeforeYear(year + 1) - DaysBeforeYear(year) == 366 then 29 else 28,
             31, 30, 31, 30, 31, 31, 30, 31, 30, 31][month - 1]
  {
    YearLength(year);
  }

  /** Runs on the tenth and the twenty-fifth: no claim waits more than fifteen days for one. */
  lemma WaitIsAtMostFifteenDays(after: Date)
    requires IsDate(after)
    ensures NextPaymentRun(after, []).Success?
    ensures 0 <= Ordinal(NextPaymentRun(after, []).value) - Ordinal(after) <= 15
  {
    assert RunDays([])[0] == 10 && RunDays([])[1] == 25;
    SmallestIsSmallest([]);
    NextRunIsFound(after, []);
    NextRunIsLeast(after, []);
    var r := NextPaymentRun(after, []).value;
    MonthsFollowOn(after);
    if after.day <= 10 {
      assert IsRunDate(after.(day := 10), []);
    } else if after.day <= 25 {
      assert IsRunDate(after.(day := 25), []);
    } else {
      assert r == FirstOfNextMonth(after).(day := 10);
    }
  }
}
