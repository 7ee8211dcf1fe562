/** Evaluating a claim's lines, oldest first, with the running meal total of each day. */
module Engine {
  import opened Domain
  import opened Policy
  import opened Sorting

  /** A line with the status drafting or a withdrawal has already settled for it, if any. */
  datatype Entry = Entry(line: Line, preset: Option<LineStatus>)

  predicate IsSettled(e: Entry) {
    e.preset.Some? && (e.preset.value.Rejected? || e.preset.value.Memo? || e.preset.value.Withdrawn?)
  }

  function Entries(lines: seq<Line>, presets: map<nat, LineStatus>): (entries: seq<Entry>)
    ensures |entries| == |lines|
    ensures forall i :: 0 <= i < |lines| ==> entries[i].line == lines[i]
  {
    seq(|lines|, i requires 0 <= i < |lines| =>
      Entry(lines[i], if i in presets then Some(presets[i]) else None))
  }

  function RejectedOutcome(line: Line): LineOutcome {
    LineOutcome(line, LineStatus.Rejected, 0, 0, [Decision(ThirdPartyClaimant, Reject, 0)])
  }

  function MemoOutcome(line: Line): LineOutcome {
    LineOutcome(line, LineStatus.Memo, 0, 0, [Decision(AirCompanyBorne, Inform, 0)])
  }

  function WithdrawnOutcome(line: Line): LineOutcome {
    LineOutcome(line, LineStatus.Withdrawn, 0, 0, [Decision(LineWithdrawn, Inform, 0)])
  }

  function OutcomeOf(e: Entry, s: Settings, already: int): LineOutcome {
    if !IsSettled(e) then Evaluated(e.line, s, already)
    else if e.preset.value.Rejected? then RejectedOutcome(e.line)
    else if e.preset.value.Memo? then MemoOutcome(e.line)
    else WithdrawnOutcome(e.line)
  }

  // The specification: what the day's earlier lines were allowed decides what a meal is allowed

  function Get(meals: map<int, int>, day: int): int {
    if day in meals then meals[day] else 0
  }

  predicate IsOn(e: Entry, day: int) {
    e.line.date == Some(day)
  }

  /** What a line adds to its day's running meal total. */
  function Fed(e: Entry, s: Settings, already: int): int {
    if IsSettled(e) || !e.line.head.Meals? then 0 else Max(Evaluated(e.line, s, already).allowed, 0)
  }

  /** A day's running meal total before line `n`, the day's lines taken in their order on the claim. */
  function Already(entries: seq<Entry>, s: Settings, start: map<int, int>, day: int, n: nat): int
    requires n <= |entries|
  {
    if n == 0 then Get(start, day)
    else
      var already := Already(entries, s, start, day, n - 1);
      if IsOn(entries[n - 1], day) then already + Fed(entries[n - 1], s, already) else already
  }

  function OutcomeAt(entries: seq<Entry>, s: Settings, start: map<int, int>, i: nat): LineOutcome
    requires i < |entries|
  {
    var day := entries[i].line.date;
    OutcomeOf(entries[i], s, if day.Some? then Already(entries, s, start, day.value, i) else 0)
  }

  function Outcomes(entries: seq<Entry>, s: Settings, start: map<int, int>): (outcomes: seq<LineOutcome>)
    ensures |outcomes| == |entries|
    ensures forall i :: 0 <= i < |entries| ==> outcomes[i] == OutcomeAt(entries, s, start, i)
  {
    seq(|entries|, i requires 0 <= i < |entries| => OutcomeAt(entries, s, start, i))
  }

  // Processing order

  /** The day number of the latest date there is; undated lines are processed with it. */
  const LATEST_DAY := 3652059

  function DayKey(line: Line): int {
    if line.date.Some? then line.date.value else LATEST_DAY
  }

  function DayKeys(lines: seq<Line>): (keys: seq<int>)
    ensures |keys| == |lines|
    ensures forall i :: 0 <= i < |lines| ==>
              keys[i] == if lines[i].date.Some? then lines[i].date.value else 3652059
  {
    seq(|lines|, i requires 0 <= i < |lines| => DayKey(lines[i]))
  }

  /** The line numbers oldest first, lines of one day in their order on the claim. */
  function ProcessingOrder(lines: seq<Line>): (order: seq<nat>)
    ensures Sorted(DayKeys(lines), order)
    ensures forall i :: i in order <==> 0 <= i < |lines|
  {
    SortedIndices(DayKeys(lines), (_: nat) => true, |lines|)
  }

  // The evaluator

  /** What rules need beyond the line: the policy settings and what has been allowed each day. */
  class EvaluationContext {
    const settings: Settings
    var mealsClaimedByDate: map<int, int>

    constructor (settings: Settings)
      ensures this.settings == settings && mealsClaimedByDate == map[]
    {
      this.settings := settings;
      mealsClaimedByDate := map[];
    }
  }

  /** The lines of `day` that are done are exactly those before line `n`. */
  ghost predicate Frontier(entries: seq<Entry>, done: set<nat>, day: int, n: nat) {
    && n <= |entries|
    && forall j :: 0 <= j < |entries| && IsOn(entries[j], day) ==> (j in done <==> j < n)
  }

  ghost predicate TotalsHold(entries: seq<Entry>, s: Settings, start: map<int, int>, done: set<nat>,
                             meals: map<int, int>) {
    forall day, n :: Frontier(entries, done, day, n) ==> Get(meals, day) == Already(entries, s, start, day, n)
  }

  /** The first `k` line numbers of a processing order. */
  function FirstOf(order: seq<nat>, k: nat): (done: set<nat>)
    requires k <= |order|
    ensures forall i :: i in done <==> i in order[..k]
  {
    if k == 0 then {}
    else
      assert order[..k] == order[..k - 1] + [order[k - 1]];
      FirstOf(order, k - 1) + {order[k - 1]}
  }

  /** A position of the order is among the first `k` exactly when it comes before `k`. */
  lemma DoneBefore(keys: seq<int>, order: seq<nat>, k: nat, p: nat)
    requires Sorted(keys, order) && k <= |order| && p < |order|
    ensures order[p] in FirstOf(order, k) <==> p < k
  {
    if p < k {
      assert order[..k][p] == order[p];
    } else {
      forall q | 0 <= q < k
        ensures order[..k][q] != order[p]
      {
        assert Before(keys, order[q], order[p]);
      }
    }
  }

  lemma AllAreDone(entries: seq<Entry>, order: seq<nat>)
    requires forall i :: i in order <==> 0 <= i < |entries|
    ensures forall i :: 0 <= i < |entries| ==> i in FirstOf(order, |order|)
    ensures forall day :: Frontier(entries, FirstOf(order, |order|), day, |entries|)
  {
    assert order[..|order|] == order;
  }

  /** One line's outcome; what a meal is allowed is added to its day's total for the meals after it. */
  method JudgeLine(line: Line, preset: Option<LineStatus>, context: EvaluationContext) returns (outcome: LineOutcome)
    modifies context
    ensures var e, meals := Entry(line, preset), old(context.mealsClaimedByDate);
      && outcome == OutcomeOf(e, context.settings, if line.date.Some? then Get(meals, line.date.value) else 0)
      && forall day :: Get(context.mealsClaimedByDate, day)
                    == if IsOn(e, day) then Get(meals, day) + Fed(e, context.settings, Get(meals, day))
                       else Get(meals, day)
  {
    if preset == Some(LineStatus.Rejected) {
      return RejectedOutcome(line);
    }
    if preset == Some(LineStatus.Memo) {
      return MemoOutcome(line);
    }
    if preset == Some(LineStatus.Withdrawn) {
      return WithdrawnOutcome(line);
    }
    var already := if line.date.Some? then Get(context.mealsClaimedByDate, line.date.value) else 0;
    outcome := Evaluated(line, context.settings, already);
    if outcome.allowed > 0 && line.date.Some? && line.head.Meals? {
      context.mealsClaimedByDate := context.mealsClaimedByDate[line.date.value := already + outcome.allowed];
    }
  }

  /** Processing oldest first comes to the same as taking every day's lines in their own order. */
  method EvaluateLines(lines: seq<Line>, context: EvaluationContext, presets: map<nat, LineStatus>)
    returns (result: seq<LineOutcome>)
    modifies context
    ensures result == Outcomes(Entries(lines, presets), context.settings, old(context.mealsClaimedByDate))
    ensures forall day :: Get(context.mealsClaimedByDate, day)
                       == Already(Entries(lines, presets), context.settings, old(context.mealsClaimedByDate), day,
                                  |lines|)
  {
    ghost var entries, s, start := Entries(lines, presets), context.settings, context.mealsClaimedByDate;
    ghost var done: set<nat> := {};
    var order := ProcessingOrder(lines);
    var outcomes: seq<Option<LineOutcome>> := seq(|lines|, _ => None);
    NothingDone(entries, s, start);

    for k := 0 to |order|
      invariant |outcomes| == |lines|
      invariant done == FirstOf(order, k)
      invariant forall i :: i in done ==> i < |lines| && outcomes[i] == Some(OutcomeAt(entries, s, start, i))
      invariant TotalsHold(entries, s, start, done, context.mealsClaimedByDate)
    {
      var index := order[k];
      ghost var before := context.mealsClaimedByDate;
      FrontierAtTurn(lines, entries, order, k, done);
      var outcome := JudgeLine(lines[index], if index in presets then Some(presets[index]) else None, context);
      outcomes := outcomes[index := Some(outcome)];
      TurnIsRight(entries, s, start, done, index, before);
      TotalsStillHold(entries, s, start, done, index, before, context.mealsClaimedByDate);
      done := done + {index};
    }

    AllAreDone(entries, order);
    result := seq(|outcomes|, i requires 0 <= i < |outcomes| && outcomes[i].Some? => outcomes[i].value);
  }

  lemma NothingDone(entries: seq<Entry>, s: Settings, start: map<int, int>)
    ensures TotalsHold(entries, s, start, {}, start)
  {
    forall day, n | Frontier(entries, {}, day, n)
      ensures Get(start, day) == Already(entries, s, start, day, n)
    {
      AlreadySkips(entries, s, start, day, 0, n);
    }
  }

  /** Lines of other days do not touch a day's total. */
  lemma {:induction false} AlreadySkips(entries: seq<Entry>, s: Settings, start: map<int, int>, day: int, m: nat,
                                        n: nat)
    requires m <= n <= |entries|
    requires forall j :: m <= j < n ==> !IsOn(entries[j], day)
    ensures Already(entries, s, start, day, n) == Already(entries, s, start, day, m)
    decreases n
  {
    if m < n {
      AlreadySkips(entries, s, start, day, m, n - 1);
    }
  }

  lemma AlreadyGrows(entries: seq<Entry>, s: Settings, start: map<int, int>, day: int, n: nat)
    requires n < |entries| && IsOn(entries[n], day)
    ensures var already := Already(entries, s, start, day, n);
      Already(entries, s, start, day, n + 1) == already + Fed(entries[n], s, already)
  {
  }

  /** When a line's turn comes, the lines of its day that are done are exactly those before it. */
  lemma FrontierAtTurn(lines: seq<Line>, entries: seq<Entry>, order: seq<nat>, k: nat, done: set<nat>)
    requires Sorted(DayKeys(lines), order) && (forall i :: i in order <==> 0 <= i < |lines|) && k < |order|
    requires |entries| == |lines| && forall i :: 0 <= i < |lines| ==> entries[i].line == lines[i]
    requires done == FirstOf(order, k)
    ensures order[k] !in done
    ensures forall day :: IsOn(entries[order[k]], day) ==> Frontier(entries, done, day, order[k])
  {
    DoneBefore(DayKeys(lines), order, k, k);
    forall day, j | IsOn(entries[order[k]], day) && 0 <= j < |entries| && IsOn(entries[j], day)
      ensures j in done <==> j < order[k]
    {
      SameDayTurn(lines, order, k, j);
    }
  }

  /** Of two lines of one day, the one that stands first on the claim is taken first. */
  lemma SameDayTurn(lines: seq<Line>, order: seq<nat>, k: nat, j: nat)
    requires Sorted(DayKeys(lines), order) && (forall i :: i in order <==> 0 <= i < |lines|) && k < |order|
    requires j < |lines| && lines[j].date == lines[order[k]].date
    ensures j in FirstOf(order, k) <==> j < order[k]
  {
    assert j in order;
    var p :| 0 <= p < |order| && order[p] == j;
    DoneBefore(DayKeys(lines), order, k, p);
    assert p < k ==> Before(DayKeys(lines), order[p], order[k]);
    assert k < p ==> Before(DayKeys(lines), order[k], order[p]);
  }

  /** A line judged on its day's total so far has the outcome specified for its place on the claim. */
  lemma TurnIsRight(entries: seq<Entry>, s: Settings, start: map<int, int>, done: set<nat>, index: nat,
                    before: map<int, int>)
    requires index < |entries| && TotalsHold(entries, s, start, done, before)
    requires forall day :: IsOn(entries[index], day) ==> Frontier(entries, done, day, index)
    ensures var e := entries[index];
      OutcomeOf(e, s, if e.line.date.Some? then Get(before, e.line.date.value) else 0)
      == OutcomeAt(entries, s, start, index)
  {
    if entries[index].line.date.Some? {
      assert Frontier(entries, done, entries[index].line.date.value, index);
    }
  }

  lemma TotalsStillHold(entries: seq<Entry>, s: Settings, start: map<int, int>, done: set<nat>, index: nat,
                        before: map<int, int>, after: map<int, int>)
    requires index < |entries| && index !in done
    requires TotalsHold(entries, s, start, done, before)
    requires forall day :: IsOn(entries[index], day) ==> Frontier(entries, done, day, index)
    requires forall day :: Get(after, day)
                        == if IsOn(entries[index], day) then Get(before, day) + Fed(entries[index], s, Get(before, day))
                           else Get(before, day)
    ensures TotalsHold(entries, s, start, done + {index}, after)
  {
    forall day, n | Frontier(entries, done + {index}, day, n)
      ensures Get(after, day) == Already(entries, s, start, day, n)
    {
      if IsOn(entries[index], day) {
        TurnTaken(entries, s, start, done, index, day, n);
      } else {
        assert Frontier(entries, done, day, n);
      }
    }
  }

  lemma TurnTaken(entries: seq<Entry>, s: Settings, start: map<int, int>, done: set<nat>, index: nat, day: int, n: nat)
    requires index < |entries| && index !in done && IsOn(entries[index], day)
    requires Frontier(entries, done, day, index) && Frontier(entries, done + {index}, day, n)
    ensures var already := Already(entries, s, start, day, index);
      Already(entries, s, start, day, n) == already + Fed(entries[index], s, already)
  {
    assert index in done + {index};
    AlreadySkips(entries, s, start, day, index + 1, n);
    AlreadyGrows(entries, s, start, day, index);
  }
}
