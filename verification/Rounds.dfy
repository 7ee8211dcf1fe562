/** One approval round: the shape its steps keep, and how far approvals can take it. */
module Rounds {
  import opened Domain
  import opened Lifecycle
  import opened Routing
  import opened Pipeline
  import opened Claims

  // The shape of a claim's steps

  predicate ComesBefore(a: Step, b: Step) {
    a.round < b.round || (a.round == b.round && a.sequence < b.sequence)
  }

  /**
   * Steps are stored round by round in increasing sequence, so no round has a sequence twice; and a
   * step is superseded exactly when its round has been returned.
   */
  ghost predicate RoundsHold(c: Claim) {
    && (forall i, j :: 0 <= i < j < |c.steps| ==> ComesBefore(c.steps[i], c.steps[j]))
    && (forall i :: 0 <= i < |c.steps| ==> 1 <= c.steps[i].round <= c.Round())
    && (forall i :: 0 <= i < |c.steps| ==> (c.steps[i].superseded <==> c.steps[i].round <= c.returnCount))
  }

  /** The steps of a round that are addressed to somebody, in order. */
  function Filled(steps: seq<Step>, round: nat): (filled: seq<nat>)
    ensures forall k :: 0 <= k < |filled| ==> filled[k] < |steps|
  {
    if steps == [] then []
    else
      var n := |steps| - 1;
      Filled(steps[..n], round) + (if steps[n].round == round && steps[n].approver.Some? then [n] else [])
  }

  lemma {:induction false} FilledIsExact(steps: seq<Step>, round: nat)
    ensures forall i, j :: 0 <= i < j < |Filled(steps, round)| ==> Filled(steps, round)[i] < Filled(steps, round)[j]
    ensures forall i :: i in Filled(steps, round)
                   <==> 0 <= i < |steps| && steps[i].round == round && steps[i].approver.Some?
  {
    if steps != [] {
      FilledIsExact(steps[..|steps| - 1], round);
    }
  }

  lemma {:induction false} FilledDependsOn(steps: seq<Step>, others: seq<Step>, round: nat)
    requires |steps| == |others|
    requires forall i :: 0 <= i < |steps| ==>
               && steps[i].round == others[i].round
               && (steps[i].approver.Some? <==> others[i].approver.Some?)
    ensures Filled(steps, round) == Filled(others, round)
  {
    if steps != [] {
      FilledDependsOn(steps[..|steps| - 1], others[..|others| - 1], round);
    }
  }

  function FilledSteps(c: Claim): (filled: seq<nat>)
    ensures forall k :: 0 <= k < |filled| ==> filled[k] < |c.steps|
  {
    Filled(c.steps, c.Round())
  }

  function RolesAsked(c: Claim): (roles: seq<Role>)
    ensures |roles| == |FilledSteps(c)|
    ensures forall k :: 0 <= k < |roles| ==> roles[k] == c.steps[FilledSteps(c)[k]].role
  {
    var filled := FilledSteps(c);
    seq(|filled|, k requires 0 <= k < |filled| => c.steps[filled[k]].role)
  }

  // The cursor machine: the roles a round asks, and how many have approved

  function StatusAt(roles: seq<Role>, done: nat): ClaimStatus
    requires done <= |roles|
  {
    if done == 0 then PendingApproval
    else if done == |roles| then Verified
    else if roles[done].Finance? then PendingFinance
    else PendingApproval
  }

  predicate MayApprove(roles: seq<Role>, done: nat)
    requires done < |roles|
  {
    MayFollow(StatusAt(roles, done), StatusAt(roles, done + 1))
  }

  predicate CanReach(roles: seq<Role>, done: nat)
    requires done <= |roles|
  {
    forall k :: 0 <= k < done ==> MayApprove(roles, k)
  }

  /** At least two people are asked, and Finance comes last and, beyond the first step, only last. */
  predicate Completable(roles: seq<Role>) {
    && |roles| >= 2
    && roles[|roles| - 1].Finance?
    && forall k :: 1 <= k < |roles| - 1 ==> !roles[k].Finance?
  }

  lemma CompletableExactly(roles: seq<Role>)
    requires roles != []
    ensures CanReach(roles, |roles|) <==> Completable(roles)
  {
    var n := |roles|;
    if CanReach(roles, n) {
      assert MayApprove(roles, n - 1);
      forall k | 1 <= k < n - 1
        ensures !roles[k].Finance?
      {
        assert MayApprove(roles, k);
      }
    }
  }

  /** Nobody but the last person asked is Finance. */
  predicate FinanceOnlyLast(roles: seq<Role>) {
    forall k :: 0 <= k < |roles| - 1 ==> !roles[k].Finance?
  }

  /** When Finance is asked last at most, only the last approval can be refused. */
  lemma OnlyTheLastIsRefused(roles: seq<Role>, done: nat)
    requires done < |roles| && FinanceOnlyLast(roles)
    ensures MayApprove(roles, done) <==> done < |roles| - 1 || Completable(roles)
  {
  }

  // A claim at a point of the machine

  /** Levels nobody fills were closed when the chain was written. */
  ghost predicate UnfilledAreClosed(c: Claim) {
    forall i :: 0 <= i < |c.steps| && c.steps[i].round == c.Round() && c.steps[i].approver.None? ==>
      c.steps[i].decision.Approved?
  }

  function DecisionAt(k: nat, done: nat, at: ApprovalDecision): ApprovalDecision {
    if k < done then ApprovalDecision.Approved else if k == done then at else Pending
  }

  /** The first `done` people asked have approved, the next one's decision is `at`, the rest wait. */
  ghost predicate Reached(c: Claim, done: nat, at: ApprovalDecision) {
    && RoundsHold(c)
    && UnfilledAreClosed(c)
    && done <= |FilledSteps(c)|
    && CanReach(RolesAsked(c), done)
    && forall k :: 0 <= k < |FilledSteps(c)| ==> c.steps[FilledSteps(c)[k]].decision == DecisionAt(k, done, at)
  }

  ghost predicate AtStep(c: Claim, done: nat) {
    Reached(c, done, Pending) && c.status == StatusAt(RolesAsked(c), done)
  }

  ghost predicate RejectedAt(c: Claim, done: nat) {
    && done < |FilledSteps(c)|
    && Reached(c, done, ApprovalDecision.Rejected)
    && c.status.Rejected?
  }

  ghost predicate BetweenRounds(c: Claim) {
    RoundsHold(c) && forall i :: 0 <= i < |c.steps| ==> c.steps[i].round < c.Round()
  }

  /** What every reachable claim satisfies. */
  ghost predicate Consistent(c: Claim) {
    match c.status
    case Draft => BetweenRounds(c)
    case PendingApproval => exists done :: AtStep(c, done)
    case PendingFinance => exists done :: AtStep(c, done)
    case Verified => exists done :: AtStep(c, done)
    case Rejected => exists done :: RejectedAt(c, done)
    case ScheduledForPayment => false
    case Paid => false
  }

  // The step a claim waits on is the cursor's

  /** From position `from` of the filled steps on, they wait; before it they do not. */
  ghost predicate WaitsFrom(c: Claim, from: nat) {
    && RoundsHold(c)
    && UnfilledAreClosed(c)
    && from <= |FilledSteps(c)|
    && forall k :: 0 <= k < |FilledSteps(c)| ==> (c.steps[FilledSteps(c)[k]].decision.Pending? <==> k >= from)
  }

  lemma WaitingIsFilled(c: Claim, from: nat, i: nat)
    requires WaitsFrom(c, from) && i < |c.steps| && IsWaiting(c.steps[i], c.Round())
    ensures exists k :: from <= k < |FilledSteps(c)| && FilledSteps(c)[k] == i
  {
    FilledIsExact(c.steps, c.Round());
    assert i in FilledSteps(c);
    var k :| 0 <= k < |FilledSteps(c)| && FilledSteps(c)[k] == i;
    assert k >= from;
  }

  lemma FilledWaits(c: Claim, from: nat, k: nat)
    requires WaitsFrom(c, from) && from <= k < |FilledSteps(c)|
    ensures IsWaiting(c.steps[FilledSteps(c)[k]], c.Round())
  {
    FilledIsExact(c.steps, c.Round());
    assert FilledSteps(c)[k] in FilledSteps(c);
  }

  lemma FilledInSequence(c: Claim, j: nat, k: nat)
    requires RoundsHold(c) && j < k < |FilledSteps(c)|
    ensures c.steps[FilledSteps(c)[j]].sequence < c.steps[FilledSteps(c)[k]].sequence
  {
    var filled := FilledSteps(c);
    FilledIsExact(c.steps, c.Round());
    assert filled[j] in filled && filled[k] in filled;
    assert ComesBefore(c.steps[filled[j]], c.steps[filled[k]]);
  }

  /** Above the steps before `m`, the least waiting step is the filled step `m`. */
  lemma NextWaiting(c: Claim, from: nat, floor: int, m: nat)
    requires WaitsFrom(c, from) && from <= m <= |FilledSteps(c)|
    requires m < |FilledSteps(c)| ==> floor < c.steps[FilledSteps(c)[m]].sequence
    requires forall k :: from <= k < m ==> c.steps[FilledSteps(c)[k]].sequence <= floor
    ensures LeastWaiting(c.steps, c.Round(), floor)
         == if m < |FilledSteps(c)| then Some(FilledSteps(c)[m]) else None
  {
    var filled := FilledSteps(c);
    forall i | 0 <= i < |c.steps| && IsWaiting(c.steps[i], c.Round()) && c.steps[i].sequence > floor
      ensures m < |filled| && (i == filled[m] || c.steps[filled[m]].sequence < c.steps[i].sequence)
    {
      WaitingIsFilled(c, from, i);
      var k :| from <= k < |filled| && filled[k] == i;
      if m < k {
        FilledInSequence(c, m, k);
      }
    }
    if m < |filled| {
      FilledWaits(c, from, m);
      LeastWaitingIs(c.steps, c.Round(), floor, filled[m]);
    } else {
      NothingWaits(c.steps, c.Round(), floor);
    }
  }

  lemma CursorIsCurrent(c: Claim, from: nat)
    requires WaitsFrom(c, from)
    ensures CurrentStep(c) == if from < |FilledSteps(c)| then Some(FilledSteps(c)[from]) else None
  {
    NextWaiting(c, from, -1, from);
  }

  /** Approving the cursor's step leads where the machine says. */
  lemma TargetIsNext(c: Claim, done: nat)
    requires WaitsFrom(c, done) && done < |FilledSteps(c)|
    ensures TargetStatus(c, FilledSteps(c)[done], ApprovalDecision.Approved) == StatusAt(RolesAsked(c), done + 1)
  {
    if done + 1 < |FilledSteps(c)| {
      FilledInSequence(c, done, done + 1);
    }
    NextWaiting(c, done, c.steps[FilledSteps(c)[done]].sequence, done + 1);
  }

  lemma RejectedWaits(c: Claim, done: nat)
    requires RejectedAt(c, done)
    ensures WaitsFrom(c, done + 1)
  {
  }

  // What each action does to it

  /** Two claims whose steps stand in the same places, addressed or not alike. */
  ghost predicate SamePlaces(c: Claim, c': Claim) {
    && c'.returnCount == c.returnCount && |c'.steps| == |c.steps|
    && forall i :: 0 <= i < |c.steps| ==> SamePlace(c.steps[i], c'.steps[i])
  }

  predicate SamePlace(a: Step, b: Step) {
    && b.round == a.round && b.sequence == a.sequence && b.role == a.role && b.superseded == a.superseded
    && (b.approver.Some? <==> a.approver.Some?)
  }

  lemma RoundsDependOnPlaces(c: Claim, c': Claim)
    requires RoundsHold(c) && SamePlaces(c, c')
    ensures RoundsHold(c')
  {
    forall i, j | 0 <= i < j < |c'.steps|
      ensures ComesBefore(c'.steps[i], c'.steps[j])
    {
      assert SamePlace(c.steps[i], c'.steps[i]) && SamePlace(c.steps[j], c'.steps[j]);
      assert ComesBefore(c.steps[i], c.steps[j]);
    }
    forall i | 0 <= i < |c'.steps|
      ensures 1 <= c'.steps[i].round <= c'.Round()
      ensures c'.steps[i].superseded <==> c'.steps[i].round <= c'.returnCount
    {
      assert SamePlace(c.steps[i], c'.steps[i]);
    }
  }

  lemma RolesDependOnPlaces(c: Claim, c': Claim)
    requires SamePlaces(c, c')
    ensures FilledSteps(c') == FilledSteps(c) && RolesAsked(c') == RolesAsked(c)
  {
    forall i | 0 <= i < |c.steps|
      ensures c'.steps[i].round == c.steps[i].round && (c'.steps[i].approver.Some? <==> c.steps[i].approver.Some?)
      ensures c'.steps[i].role == c.steps[i].role
    {
      assert SamePlace(c.steps[i], c'.steps[i]);
    }
    FilledDependsOn(c'.steps, c.steps, c.Round());
  }

  /** Marking the cursor's step changes nobody's place in the round. */
  lemma MarkingKeepsPlaces(c: Claim, at: nat, decision: ApprovalDecision, approver: Option<nat>, target: ClaimStatus)
    requires at < |c.steps| && c.steps[at].approver.Some? && !decision.Returned?
    ensures SamePlaces(c, Moved(c, at, decision, approver, target))
  {
  }

  lemma FilledIsAddressed(c: Claim, k: nat)
    requires k < |FilledSteps(c)|
    ensures c.steps[FilledSteps(c)[k]].approver.Some? && c.steps[FilledSteps(c)[k]].round == c.Round()
    ensures forall j :: 0 <= j < |FilledSteps(c)| && j != k ==> FilledSteps(c)[j] != FilledSteps(c)[k]
  {
    FilledIsExact(c.steps, c.Round());
    assert FilledSteps(c)[k] in FilledSteps(c);
  }

  lemma MarkingMovesTheCursor(c: Claim, done: nat, decision: ApprovalDecision, approver: Option<nat>,
                              target: ClaimStatus)
    requires Reached(c, done, Pending) && done < |FilledSteps(c)| && (decision.Approved? || decision.Rejected?)
    requires decision.Approved? ==> MayApprove(RolesAsked(c), done)
    ensures var c' := Moved(c, FilledSteps(c)[done], decision, approver, target);
      && FilledSteps(c') == FilledSteps(c)
      && RolesAsked(c') == RolesAsked(c)
      && (decision.Approved? ==> Reached(c', done + 1, Pending))
      && (decision.Rejected? ==> Reached(c', done, ApprovalDecision.Rejected))
  {
    var at := FilledSteps(c)[done];
    var c' := Moved(c, at, decision, approver, target);
    FilledIsAddressed(c, done);
    MarkingKeepsPlaces(c, at, decision, approver, target);
    RoundsDependOnPlaces(c, c');
    RolesDependOnPlaces(c, c');
    MarkedDecisions(c, done, decision, approver, target);
  }

  lemma MarkedDecisions(c: Claim, done: nat, decision: ApprovalDecision, approver: Option<nat>, target: ClaimStatus)
    requires done < |FilledSteps(c)| && UnfilledAreClosed(c) && !decision.Returned?
    requires c.steps[FilledSteps(c)[done]].approver.Some?
    requires forall k :: 0 <= k < |FilledSteps(c)| ==>
               c.steps[FilledSteps(c)[k]].decision == DecisionAt(k, done, Pending)
    requires forall j :: 0 <= j < |FilledSteps(c)| && j != done ==> FilledSteps(c)[j] != FilledSteps(c)[done]
    ensures var c' := Moved(c, FilledSteps(c)[done], decision, approver, target);
      && UnfilledAreClosed(c')
      && forall k :: 0 <= k < |FilledSteps(c)| ==> c'.steps[FilledSteps(c)[k]].decision == DecisionAt(k, done, decision)
  {
  }

  lemma ApprovalAdvances(c: Claim, done: nat, approver: Option<nat>)
    requires AtStep(c, done) && done < |FilledSteps(c)| && MayApprove(RolesAsked(c), done)
    ensures var c' := AfterDecision(c, FilledSteps(c)[done], ApprovalDecision.Approved, approver);
      AtStep(c', done + 1) && FilledSteps(c') == FilledSteps(c) && RolesAsked(c') == RolesAsked(c)
  {
    TargetIsNext(c, done);
    MarkingMovesTheCursor(c, done, ApprovalDecision.Approved, approver, StatusAt(RolesAsked(c), done + 1));
  }

  lemma RejectionHalts(c: Claim, done: nat, approver: Option<nat>)
    requires AtStep(c, done) && done < |FilledSteps(c)|
    ensures var c' := AfterDecision(c, FilledSteps(c)[done], ApprovalDecision.Rejected, approver);
      RejectedAt(c', done) && FilledSteps(c') == FilledSteps(c)
  {
    MarkingMovesTheCursor(c, done, ApprovalDecision.Rejected, approver, ClaimStatus.Rejected);
  }

  lemma ReturnReopens(c: Claim, at: nat, approver: Option<nat>)
    requires RoundsHold(c) && at < |c.steps|
    ensures BetweenRounds(AfterDecision(c, at, Returned, approver))
    ensures AfterDecision(c, at, Returned, approver).status.Draft?
  {
    var c' := AfterDecision(c, at, Returned, approver);
    assert forall i :: 0 <= i < |c.steps| ==>
      c'.steps[i].round == c.steps[i].round && c'.steps[i].sequence == c.steps[i].sequence;
  }

  /** Sequences counting from one, as every resolved chain has them. */
  predicate Numbered(chain: seq<ChainStep>) {
    forall k :: 0 <= k < |chain| ==> chain[k].sequence == k + 1
  }

  /** The roles of the levels somebody fills. */
  function AskedRoles(chain: seq<ChainStep>, staff: Staff): seq<Role> {
    if chain == [] then []
    else
      var n := |chain| - 1;
      AskedRoles(chain[..n], staff) + (if Assignee(chain[n], staff).Some? then [chain[n].role] else [])
  }

  function RolesAt(steps: seq<Step>, indices: seq<nat>): (roles: seq<Role>)
    requires forall k :: 0 <= k < |indices| ==> indices[k] < |steps|
    ensures |roles| == |indices|
    ensures forall k :: 0 <= k < |roles| ==> roles[k] == steps[indices[k]].role
  {
    seq(|indices|, k requires 0 <= k < |indices| => steps[indices[k]].role)
  }

  lemma {:induction false} NoneFilledYet(steps: seq<Step>, round: nat)
    requires forall i :: 0 <= i < |steps| ==> steps[i].round < round
    ensures Filled(steps, round) == []
  {
    if steps != [] {
      NoneFilledYet(steps[..|steps| - 1], round);
    }
  }

  lemma OneMoreFilled(steps: seq<Step>, step: Step, round: nat)
    requires step.round == round
    ensures RolesAt(steps + [step], Filled(steps + [step], round))
         == RolesAt(steps, Filled(steps, round)) + (if step.approver.Some? then [step.role] else [])
  {
    assert (steps + [step])[..|steps|] == steps;
  }

  lemma {:induction false} WrittenRolesAreAsked(before: seq<Step>, chain: seq<ChainStep>, staff: Staff, round: nat)
    requires forall i :: 0 <= i < |before| ==> before[i].round < round
    ensures var steps := before + WrittenChain(chain, staff, round);
      RolesAt(steps, Filled(steps, round)) == AskedRoles(chain, staff)
  {
    if chain == [] {
      assert before + WrittenChain(chain, staff, round) == before;
      NoneFilledYet(before, round);
    } else {
      var n := |chain| - 1;
      var steps := before + WrittenChain(chain[..n], staff, round);
      WrittenRolesAreAsked(before, chain[..n], staff, round);
      OneMoreFilled(steps, WrittenStep(chain[n], staff, round), round);
      assert before + WrittenChain(chain, staff, round) == steps + [WrittenStep(chain[n], staff, round)];
    }
  }

  lemma SubmissionKeepsRounds(c: Claim, draft: ClaimDraft, staff: Staff)
    requires BetweenRounds(c) && Numbered(draft.chain)
    ensures RoundsHold(AfterSubmit(c, draft, staff))
  {
  }

  lemma SubmissionOpens(c: Claim, draft: ClaimDraft, staff: Staff)
    requires BetweenRounds(c) && Numbered(draft.chain)
    ensures var c' := AfterSubmit(c, draft, staff);
      AtStep(c', 0) && RolesAsked(c') == AskedRoles(draft.chain, staff)
  {
    SubmissionKeepsRounds(c, draft, staff);
    SubmissionAsksItsChain(c, draft, staff);
    SubmissionLeavesAllWaiting(c, draft, staff);
  }

  lemma SubmissionAsksItsChain(c: Claim, draft: ClaimDraft, staff: Staff)
    requires BetweenRounds(c)
    ensures RolesAsked(AfterSubmit(c, draft, staff)) == AskedRoles(draft.chain, staff)
  {
    var c' := AfterSubmit(c, draft, staff);
    WrittenRolesAreAsked(c.steps, draft.chain, staff, c.Round());
    assert RolesAsked(c') == RolesAt(c'.steps, FilledSteps(c'));
  }

  lemma SubmissionLeavesAllWaiting(c: Claim, draft: ClaimDraft, staff: Staff)
    requires BetweenRounds(c)
    ensures var c' := AfterSubmit(c, draft, staff);
      && UnfilledAreClosed(c')
      && forall k :: 0 <= k < |FilledSteps(c')| ==> c'.steps[FilledSteps(c')[k]].decision == DecisionAt(k, 0, Pending)
  {
    var c' := AfterSubmit(c, draft, staff);
    forall i | 0 <= i < |c'.steps| && c'.steps[i].round == c'.Round() && c'.steps[i].approver.None?
      ensures c'.steps[i].decision.Approved?
    {
      AddressedIsPending(c, draft, staff, i);
    }
    forall k | 0 <= k < |FilledSteps(c')|
      ensures c'.steps[FilledSteps(c')[k]].decision.Pending?
    {
      WrittenAndFilledWaits(c, draft, staff, k);
    }
  }

  lemma WrittenAndFilledWaits(c: Claim, draft: ClaimDraft, staff: Staff, k: nat)
    requires BetweenRounds(c) && k < |FilledSteps(AfterSubmit(c, draft, staff))|
    ensures var c' := AfterSubmit(c, draft, staff); c'.steps[FilledSteps(c')[k]].decision.Pending?
  {
    var c' := AfterSubmit(c, draft, staff);
    FilledIsAddressed(c', k);
    AddressedIsPending(c, draft, staff, FilledSteps(c')[k]);
  }

  lemma AddressedIsPending(c: Claim, draft: ClaimDraft, staff: Staff, i: nat)
    requires BetweenRounds(c)
    requires i < |AfterSubmit(c, draft, staff).steps|
    requires AfterSubmit(c, draft, staff).steps[i].round == c.Round()
    ensures var step := AfterSubmit(c, draft, staff).steps[i];
      step.decision == if step.approver.Some? then Pending else ApprovalDecision.Approved
  {
  }

  // Every action keeps a claim consistent

  lemma ConsistentWhereItWaits(c: Claim) returns (done: nat)
    requires Consistent(c) && CurrentStep(c).Some? && !c.status.Rejected?
    ensures AtStep(c, done) && done < |FilledSteps(c)| && CurrentStep(c) == Some(FilledSteps(c)[done])
  {
    if c.status.Draft? {
      NothingWaits(c.steps, c.Round(), -1);
      assert false;
    }
    done :| AtStep(c, done);
    CursorIsCurrent(c, done);
  }

  lemma AtStepIsConsistent(c: Claim, done: nat)
    requires AtStep(c, done)
    ensures Consistent(c)
  {
  }

  lemma ApprovalKeepsConsistent(c: Claim, done: nat, approver: Option<nat>)
    requires AtStep(c, done) && done < |FilledSteps(c)|
    requires MayFollow(c.status, TargetStatus(c, FilledSteps(c)[done], ApprovalDecision.Approved))
    ensures Consistent(AfterDecision(c, FilledSteps(c)[done], ApprovalDecision.Approved, approver))
  {
    TargetIsNext(c, done);
    ApprovalAdvances(c, done, approver);
    AtStepIsConsistent(AfterDecision(c, FilledSteps(c)[done], ApprovalDecision.Approved, approver), done + 1);
  }

  /** Whoever decides, and whatever they read: an accepted approval, rejection or return keeps it. */
  lemma DecisionKeepsConsistent(c: Claim, expectedVersion: int, decision: ApprovalDecision, approver: Option<nat>)
    requires Consistent(c) && !decision.Pending?
    requires Decide(c, expectedVersion, decision, approver).Success?
    ensures Consistent(Decide(c, expectedVersion, decision, approver).value)
  {
    var at := CurrentStep(c).value;
    if c.status.Rejected? {
      assert false;
    }
    var done := ConsistentWhereItWaits(c);
    if decision.Approved? {
      ApprovalKeepsConsistent(c, done, approver);
    } else if decision.Rejected? {
      RejectionHalts(c, done, approver);
    } else {
      ReturnReopens(c, at, approver);
    }
  }

  lemma SubmissionKeepsConsistent(c: Claim, draft: ClaimDraft, staff: Staff)
    requires Consistent(c) && Numbered(draft.chain) && Submit(c, draft, staff).Success?
    ensures Consistent(Submit(c, draft, staff).value)
  {
    SubmissionOpens(c, draft, staff);
  }

  lemma FreshIsConsistent()
    ensures Consistent(FreshClaim())
  {
  }

  // Safety

  predicate IsCurrentRound(c: Claim, i: nat) {
    i < |c.steps| && c.steps[i].round == c.Round()
  }

  /**
   * A verified claim has every step of its round approved, by at least two people asked, the last of
   * them Finance: none of what verified it was a level closed for want of anybody to fill it.
   */
  lemma VerifiedMeansApproved(c: Claim)
    requires Consistent(c) && c.status.Verified?
    ensures forall i: nat :: IsCurrentRound(c, i) ==> c.steps[i].decision.Approved?
    ensures Completable(RolesAsked(c))
    ensures var last := FilledSteps(c)[|FilledSteps(c)| - 1];
      && c.steps[last].role.Finance? && c.steps[last].approver.Some? && c.steps[last].decision.Approved?
      && forall i: nat :: IsCurrentRound(c, i) && last < i ==> c.steps[i].approver.None?
  {
    var done: nat :| AtStep(c, done);
    VerifiedIsDone(c, done);
    FilledIsAddressed(c, done - 1);
    forall i: nat | IsCurrentRound(c, i) && c.steps[i].approver.Some?
      ensures c.steps[i].decision.Approved? && i <= FilledSteps(c)[done - 1]
    {
      FilledIsLast(c, i);
    }
  }

  lemma VerifiedIsDone(c: Claim, done: nat)
    requires AtStep(c, done) && c.status.Verified?
    ensures done == |FilledSteps(c)| > 0 && Completable(RolesAsked(c))
    ensures forall k :: 0 <= k < |FilledSteps(c)| ==> c.steps[FilledSteps(c)[k]].decision.Approved?
    ensures UnfilledAreClosed(c)
  {
    assert done == |RolesAsked(c)|;
    CompletableExactly(RolesAsked(c));
  }

  lemma FilledIsLast(c: Claim, i: nat)
    requires IsCurrentRound(c, i) && c.steps[i].approver.Some?
    ensures FilledSteps(c) != [] && i <= FilledSteps(c)[|FilledSteps(c)| - 1]
    ensures exists k :: 0 <= k < |FilledSteps(c)| && FilledSteps(c)[k] == i
  {
    FilledIsExact(c.steps, c.Round());
    assert i in FilledSteps(c);
  }

  /** No decision moves a verified or a rejected claim, nor one that is with its claimant. */
  lemma SettledClaimsRefuse(c: Claim, expectedVersion: int, decision: ApprovalDecision, approver: Option<nat>)
    requires Consistent(c) && (c.status.Verified? || c.status.Rejected? || c.status.Draft?)
    ensures Decide(c, expectedVersion, decision, approver).Failure?
  {
    if c.status.Verified? {
      var done :| AtStep(c, done);
      CursorIsCurrent(c, done);
    } else if c.status.Draft? {
      NothingWaits(c.steps, c.Round(), -1);
    }
  }

  /**
   * A rejected claim stays on the desk of whoever was next in line, and on nobody's when the step
   * rejected was the last one asked.
   */
  lemma RejectedClaimStaysOnADesk(c: Claim, done: nat, user: User)
    requires RejectedAt(c, done)
    ensures MyPendingStep(c, user).Some?
       <==> done + 1 < |FilledSteps(c)| && c.steps[FilledSteps(c)[done + 1]].approver == Some(user.id)
  {
    RejectedIsWith(c, done);
    RoutesAgreeWithService(c);
  }

  /** Whoever has it on their desk can do nothing with it. */
  lemma RejectedClaimRefuses(c: Claim, user: User, request: DecisionRequest)
    requires c.status.Rejected?
    ensures HandleDecision(c, user, request).Failure?
  {
    NothingFollowsRejection(c, request.expectedVersion, DecisionOf(request.verdict), Some(user.id));
    if HandleDecision(c, user, request).Success? {
      AcceptedIsDecided(c, user, request);
    }
  }

  lemma NothingFollowsRejection(c: Claim, expectedVersion: int, decision: ApprovalDecision, approver: Option<nat>)
    requires c.status.Rejected?
    ensures Decide(c, expectedVersion, decision, approver).Failure?
  {
  }

  lemma RejectedIsWith(c: Claim, done: nat)
    requires RejectedAt(c, done)
    ensures CurrentStep(c) == if done + 1 < |FilledSteps(c)| then Some(FilledSteps(c)[done + 1]) else None
  {
    RejectedWaits(c, done);
    CursorIsCurrent(c, done + 1);
  }

  // Progress

  /**
   * At a point of the round a verdict is accepted exactly when the person whose turn it is speaks for
   * themselves about the claim as it stands. They may always reject, and return with words. They may
   * approve exactly when it is Finance's turn if nobody is left after them, and otherwise when it is not.
   */
  lemma VerdictIsAcceptedExactly(c: Claim, done: nat, user: User, request: DecisionRequest)
    requires AtStep(c, done)
    ensures HandleDecision(c, user, request).Success?
       <==> && !user.role.Employee? && request.approverCode == user.code && request.expectedVersion == c.version
            && done < |FilledSteps(c)| && c.steps[FilledSteps(c)[done]].approver == Some(user.id)
            && match request.verdict
               case Approve => c.status.PendingFinance? <==> done + 1 == |FilledSteps(c)|
               case Reject => true
               case Return => HasWords(request.remarks)
  {
    DecisionIsAcceptedExactly(c, user, request);
    CursorIsCurrent(c, done);
    if done < |FilledSteps(c)| {
      TargetIsNext(c, done);
      TableAllows(c.status, RolesAsked(c), done);
    }
  }

  /** What the transition table comes to at a point of a round. */
  lemma TableAllows(status: ClaimStatus, roles: seq<Role>, done: nat)
    requires done < |roles| && status == StatusAt(roles, done)
    ensures MayFollow(status, StatusAt(roles, done + 1)) <==> (status.PendingFinance? <==> done + 1 == |roles|)
    ensures MayFollow(status, ClaimStatus.Rejected) && MayFollow(status, Draft)
  {
  }

  /** While a round is open its claim is in the pending queue of the next person asked, and no one else's. */
  lemma QueueShowsTheNext(c: Claim, done: nat, user: User)
    requires AtStep(c, done)
    ensures MyPendingStep(c, user)
         == if done < |FilledSteps(c)| && c.steps[FilledSteps(c)[done]].approver == Some(user.id)
            then Some(FilledSteps(c)[done]) else None
  {
    CursorIsCurrent(c, done);
    RoutesAgreeWithService(c);
  }

  /** A claim in draft is in nobody's pending queue. */
  lemma QueueShowsNoDraft(c: Claim, user: User)
    requires Consistent(c) && c.status.Draft?
    ensures MyPendingStep(c, user) == None
  {
    NothingWaits(c.steps, c.Round(), -1);
    RoutesAgreeWithService(c);
  }

  /** At a point of the round the approval of its step is accepted exactly when the machine allows it. */
  lemma ApprovalIsAcceptedExactly(c: Claim, done: nat, approver: Option<nat>)
    requires AtStep(c, done)
    ensures Decide(c, c.version, ApprovalDecision.Approved, approver).Success?
       <==> done < |FilledSteps(c)| && MayApprove(RolesAsked(c), done)
    ensures done < |FilledSteps(c)| && MayApprove(RolesAsked(c), done) ==>
              var c' := Decide(c, c.version, ApprovalDecision.Approved, approver).value;
              AtStep(c', done + 1) && FilledSteps(c') == FilledSteps(c) && RolesAsked(c') == RolesAsked(c)
  {
    CursorIsCurrent(c, done);
    if done < |FilledSteps(c)| {
      TargetIsNext(c, done);
      if MayApprove(RolesAsked(c), done) {
        ApprovalAdvances(c, done, approver);
      }
    }
  }

  /** The claim after `n` approvals in a row, each by the person asked, on the claim as it stands. */
  function Approving(c: Claim, n: nat): Result<Claim, DecisionError> {
    if n == 0 then Success(c) else ThenApproved(Approving(c, n - 1))
  }

  function ThenApproved(r: Result<Claim, DecisionError>): Result<Claim, DecisionError> {
    if r.Failure? then r else Decide(r.value, r.value.version, ApprovalDecision.Approved, None)
  }

  /** `c'` is the same round as `c`, with `n` approvals given. */
  ghost predicate Follows(c: Claim, c': Claim, n: nat) {
    AtStep(c', n) && RolesAsked(c') == RolesAsked(c)
  }

  lemma OneMoreApproval(c: Claim, c': Claim, n: nat)
    requires Follows(c, c', n)
    ensures var r := Decide(c', c'.version, ApprovalDecision.Approved, None);
      && (r.Success? <==> n + 1 <= |RolesAsked(c)| && CanReach(RolesAsked(c), n + 1))
      && (r.Success? ==> Follows(c, r.value, n + 1))
  {
    ApprovalIsAcceptedExactly(c', n, None);
    assert CanReach(RolesAsked(c), n);
  }

  /** What comes of `n` approvals: success when the machine allows the first `n`, in the same round. */
  ghost predicate AsTheMachineSays(c: Claim, n: nat, r: Result<Claim, DecisionError>) {
    && (r.Success? <==> n <= |RolesAsked(c)| && CanReach(RolesAsked(c), n))
    && (r.Success? ==> Follows(c, r.value, n))
  }

  lemma {:induction false} ApprovingFollowsTheMachine(c: Claim, n: nat)
    requires AtStep(c, 0)
    ensures AsTheMachineSays(c, n, Approving(c, n))
  {
    if n == 0 {
      NothingApprovedYet(c);
    } else {
      ApprovingFollowsTheMachine(c, n - 1);
      OneMoreApproving(c, n - 1, n, Approving(c, n - 1));
    }
  }

  lemma NothingApprovedYet(c: Claim)
    requires AtStep(c, 0)
    ensures AsTheMachineSays(c, 0, Success(c))
  {
  }

  lemma OneMoreApproving(c: Claim, m: nat, n: nat, r: Result<Claim, DecisionError>)
    requires n == m + 1 && AsTheMachineSays(c, m, r)
    ensures AsTheMachineSays(c, n, ThenApproved(r))
  {
    if r.Success? {
      OneMoreApproval(c, r.value, m);
    } else {
      ReachingIncludesLess(RolesAsked(c), n);
    }
  }

  lemma ReachingIncludesLess(roles: seq<Role>, n: nat)
    requires n > 0
    ensures n <= |roles| && CanReach(roles, n) ==> CanReach(roles, n - 1)
  {
  }

  /**
   * From submission, approvals verify a claim exactly when its round is completable, and then after
   * exactly as many approvals as there are people asked.
   */
  lemma ApprovalsVerifyExactly(c: Claim, n: nat)
    requires AtStep(c, 0)
    ensures Approving(c, n).Success? && Approving(c, n).value.status.Verified?
       <==> Completable(RolesAsked(c)) && n == |RolesAsked(c)|
  {
    ApprovingFollowsTheMachine(c, n);
    if n == |RolesAsked(c)| && n > 0 {
      CompletableExactly(RolesAsked(c));
    }
  }

  /**
   * When only the last person asked can be Finance and the round is not completable, everybody but
   * the last can approve, and then the approval of the last is refused, whoever gives it.
   */
  lemma LastApprovalIsRefused(c: Claim, n: nat, approver: Option<nat>) returns (last: Claim)
    requires AtStep(c, 0) && 0 < n == |RolesAsked(c)|
    requires FinanceOnlyLast(RolesAsked(c)) && !Completable(RolesAsked(c))
    ensures Approving(c, n - 1) == Success(last)
    ensures Decide(last, last.version, ApprovalDecision.Approved, approver)
         == Failure(InvalidTransition(PendingApproval, Verified))
  {
    last := ApprovingReachesTheLast(c, n);
    LastIsRefused(last, n, approver);
  }

  lemma ApprovingReachesTheLast(c: Claim, n: nat) returns (last: Claim)
    requires AtStep(c, 0) && 0 < n == |RolesAsked(c)|
    requires FinanceOnlyLast(RolesAsked(c)) && !Completable(RolesAsked(c))
    ensures Approving(c, n - 1) == Success(last)
    ensures WaitsFrom(last, n - 1) && |FilledSteps(last)| == n && last.status.PendingApproval?
  {
    AllButTheLastApprove(RolesAsked(c));
    ApprovingFollowsTheMachine(c, n - 1);
    last := Approving(c, n - 1).value;
    OnlyFinanceWouldBePending(RolesAsked(c));
  }

  lemma OnlyFinanceWouldBePending(roles: seq<Role>)
    requires roles != [] && FinanceOnlyLast(roles) && !Completable(roles)
    ensures StatusAt(roles, |roles| - 1).PendingApproval?
  {
  }

  lemma AllButTheLastApprove(roles: seq<Role>)
    requires roles != [] && FinanceOnlyLast(roles)
    ensures CanReach(roles, |roles| - 1)
  {
  }

  lemma LastIsRefused(last: Claim, n: nat, approver: Option<nat>)
    requires 0 < n == |FilledSteps(last)| && WaitsFrom(last, n - 1) && last.status.PendingApproval?
    ensures Decide(last, last.version, ApprovalDecision.Approved, approver)
         == Failure(InvalidTransition(PendingApproval, Verified))
  {
    CursorIsCurrent(last, n - 1);
    TargetIsNext(last, n - 1);
  }

  /** Each accepted approval leaves one person fewer to ask. */
  lemma ApprovalLeavesOneFewer(c: Claim, done: nat, expectedVersion: int, approver: Option<nat>)
    requires AtStep(c, done) && Decide(c, expectedVersion, ApprovalDecision.Approved, approver).Success?
    ensures var c' := Decide(c, expectedVersion, ApprovalDecision.Approved, approver).value;
      done < |FilledSteps(c')| == |FilledSteps(c)| && AtStep(c', done + 1)
  {
    ApprovalIsAcceptedExactly(c, done, approver);
  }

  /**
   * The service takes any decision value, and treats one that decides nothing as an approval. It
   * verifies a claim on it exactly when it is Finance's turn and nobody is left after, and the step
   * then still waits. The route admits only approvals, rejections and returns.
   */
  lemma PendingDecisionVerifiesExactly(c: Claim, done: nat, approver: Option<nat>)
    requires AtStep(c, done)
    ensures var r := Decide(c, c.version, Pending, approver);
      && (r.Success? && r.value.status.Verified? <==> c.status.PendingFinance? && done + 1 == |FilledSteps(c)|)
      && (done < |FilledSteps(c)| && r.Success? ==> r.value.steps[FilledSteps(c)[done]].decision.Pending?)
  {
    CursorIsCurrent(c, done);
    if done < |FilledSteps(c)| {
      TargetIsNext(c, done);
      PendingCountsAsApproval(c, FilledSteps(c)[done]);
    }
  }

  lemma PendingCountsAsApproval(c: Claim, at: nat)
    requires at < |c.steps|
    ensures TargetStatus(c, at, Pending) == TargetStatus(c, at, ApprovalDecision.Approved)
  {
  }

  // Which resolved chains complete

  lemma {:induction false} NobodyAskedExactly(chain: seq<ChainStep>, staff: Staff)
    ensures AskedRoles(chain, staff) == [] <==> forall k :: 0 <= k < |chain| ==> Assignee(chain[k], staff).None?
  {
    if chain != [] {
      NobodyAskedExactly(chain[..|chain| - 1], staff);
    }
  }

  lemma {:induction false} NoFinanceAsked(chain: seq<ChainStep>, staff: Staff)
    requires forall k :: 0 <= k < |chain| ==> !chain[k].role.Finance?
    ensures forall k :: 0 <= k < |AskedRoles(chain, staff)| ==> !AskedRoles(chain, staff)[k].Finance?
  {
    if chain != [] {
      NoFinanceAsked(chain[..|chain| - 1], staff);
    }
  }

  /**
   * A chain that ends with Finance verification after business levels completes exactly when one of
   * the business levels is filled and Finance is.
   */
  lemma RoutedChainCompletesExactly(value: int, claimant: EmployeeRef, directory: Directory, params: RoutingParams,
                                    staff: Staff)
    requires params.financeAlways && ChainOf(value, claimant, directory, params).Success?
    requires Role.Finance !in RequiredRoles(value, params, false).value
    ensures var chain := ChainOf(value, claimant, directory, params).value; var n := |chain| - 1;
      && (Completable(AskedRoles(chain, staff))
          <==> Assignee(chain[n], staff).Some? && exists k :: 0 <= k < n && Assignee(chain[k], staff).Some?)
      && FinanceOnlyLast(AskedRoles(chain, staff))
  {
    var chain := ChainOf(value, claimant, directory, params).value;
    var n := |chain| - 1;
    ChainIsWellFormed(value, claimant, directory, params, false);
    forall k | 0 <= k < n
      ensures !chain[k].role.Finance?
    {
      assert chain[k].role in RequiredRoles(value, params, false).value;
    }
    FinanceLastCompletes(chain, staff);
  }

  lemma FinanceLastCompletes(chain: seq<ChainStep>, staff: Staff)
    requires chain != [] && chain[|chain| - 1].role.Finance?
    requires forall k :: 0 <= k < |chain| - 1 ==> !chain[k].role.Finance?
    ensures var n := |chain| - 1;
      && (Completable(AskedRoles(chain, staff))
          <==> Assignee(chain[n], staff).Some? && exists k :: 0 <= k < n && Assignee(chain[k], staff).Some?)
      && FinanceOnlyLast(AskedRoles(chain, staff))
  {
    var n := |chain| - 1;
    var business, roles := AskedRoles(chain[..n], staff), AskedRoles(chain, staff);
    NobodyAskedExactly(chain[..n], staff);
    NoFinanceAsked(chain[..n], staff);
    assert roles == business + (if Assignee(chain[n], staff).Some? then [chain[n].role] else []);
    assert Assignee(chain[n], staff).None? && |roles| >= 2 ==> !roles[|roles| - 1].Finance?;
    assert business != [] <==> exists k :: 0 <= k < n && Assignee(chain[..n][k], staff).Some?;
    assert forall k :: 0 <= k < n ==> chain[..n][k] == chain[k];
  }

  /** Whoever reports to nobody has no business level filled, so no chain of theirs completes. */
  lemma NobodyAboveNeverCompletes(value: int, claimant: EmployeeRef, directory: Directory, params: RoutingParams,
                                  staff: Staff)
    requires Truthy(claimant.managerCode).None?
    requires params.financeAlways && ChainOf(value, claimant, directory, params).Success?
    requires Role.Finance !in RequiredRoles(value, params, false).value
    ensures !Completable(AskedRoles(ChainOf(value, claimant, directory, params).value, staff))
  {
    RoutedChainCompletesExactly(value, claimant, directory, params, staff);
    ChainIsWellFormed(value, claimant, directory, params, false);
    assert Hop(claimant, directory, 0).None?;
    ReachIs(claimant, directory, 12, 0);
    assert AncestorsOf(claimant, directory, 12).value == [];
  }
}
