/** The claim and its approval steps as rows that requests update in place. */
module Approvals {
  import opened Domain
  import opened Policy
  import opened Summary
  import opened Lifecycle
  import opened Routing
  import opened Pipeline
  import opened Claims

  class ApprovalStep {
    const round: nat
    const sequence: nat
    const role: Role
    var approver: Option<nat>
    var decision: ApprovalDecision
    var superseded: bool

    constructor (round: nat, sequence: nat, role: Role, approver: Option<nat>, decision: ApprovalDecision)
      ensures View() == Step(round, sequence, role, approver, decision, false)
    {
      this.round, this.sequence, this.role := round, sequence, role;
      this.approver, this.decision, this.superseded := approver, decision, false;
    }

    function View(): Step
      reads this
    {
      Step(round, sequence, role, approver, decision, superseded)
    }
  }

  datatype DecisionResult = DecisionResult(claimStatus: ClaimStatus, stepSequence: nat, newVersion: nat)

  function Views(steps: seq<ApprovalStep>): (views: seq<Step>)
    reads steps
    ensures |views| == |steps|
    ensures forall i :: 0 <= i < |steps| ==> views[i] == steps[i].View()
  {
    seq(|steps|, i requires 0 <= i < |steps| reads steps => steps[i].View())
  }

  function SequenceOf(c: Claim, i: Option<nat>): Option<nat> {
    if i.Some? && i.value < |c.steps| then Some(c.steps[i.value].sequence) else None
  }

  /** The least waiting step of a longer prefix. */
  lemma OneMoreStep(views: seq<Step>, i: nat, round: nat, floor: int)
    requires i < |views|
    ensures var r := LeastWaiting(views[..i], round, floor);
      LeastWaiting(views[..i + 1], round, floor)
      == if IsWaiting(views[i], round) && views[i].sequence > floor
            && (r.None? || views[i].sequence < views[r.value].sequence)
         then Some(i) else r
  {
    assert views[..i + 1][..i] == views[..i];
  }

  /** What deciding comes to, once the waiting step and the status it leads to are known. */
  lemma DecideOn(c: Claim, current: nat, decision: ApprovalDecision, approver: Option<nat>, target: ClaimStatus)
    requires Claims.CurrentStep(c) == Some(current) && target == TargetStatus(c, current, decision)
    ensures Decide(c, c.version, decision, approver)
         == if MayFollow(c.status, target) then Success(Moved(c, current, decision, approver, target))
            else Failure(InvalidTransition(c.status, target))
  {
  }

  class SettlementClaim {
    var status: ClaimStatus
    var returnCount: nat
    var version: nat
    var steps: seq<ApprovalStep>
    var lines: seq<FrozenLine>
    var summary: SettlementSummary

    /** Every step is a row of its own. */
    ghost predicate Valid()
      reads this
    {
      forall i, j :: 0 <= i < j < |steps| ==> steps[i] != steps[j]
    }

    function View(): Claim
      reads this, steps
    {
      Claim(status, returnCount, version, Views(steps), lines, summary)
    }

    constructor ()
      ensures Valid() && View() == FreshClaim()
    {
      status, returnCount, version := Draft, 0, 1;
      steps, lines, summary := [], [], SettlementSummary(0, 0, 0, 0, 0, 0, 0);
    }

    /** The waiting step with the least sequence above a floor. */
    method FindWaiting(round: nat, floor: int) returns (r: Option<nat>)
      ensures r == LeastWaiting(Views(steps), round, floor)
    {
      ghost var views := Views(steps);
      r := None;
      for i := 0 to |steps|
        invariant r == LeastWaiting(views[..i], round, floor)
      {
        OneMoreStep(views, i, round, floor);
        var step := steps[i].View();
        if IsWaiting(step, round) && step.sequence > floor && (r.None? || step.sequence < steps[r.value].sequence) {
          r := Some(i);
        }
      }
      assert views[..|steps|] == views;
    }

    method FindTarget(current: nat, decision: ApprovalDecision) returns (target: ClaimStatus)
      requires current < |steps|
      ensures target == TargetStatus(View(), current, decision)
    {
      if decision.Rejected? {
        return ClaimStatus.Rejected;
      }
      if decision.Returned? {
        return Draft;
      }
      var next := FindWaiting(returnCount + 1, steps[current].sequence);
      if next.None? {
        return Verified;
      }
      return if steps[next.value].role.Finance? then PendingFinance else PendingApproval;
    }

    /** Close a round: none of its steps is live any more, whatever was decided on it. */
    method Supersede(round: nat)
      requires Valid()
      modifies steps
      ensures Views(steps) == SupersedeRound(old(Views(steps)), round)
    {
      for i := 0 to |steps|
        invariant forall j :: 0 <= j < |steps| ==>
                    steps[j].View()
                    == if j < i && old(steps[j].round) == round then old(steps[j].View()).(superseded := true)
                       else old(steps[j].View())
      {
        if steps[i].round == round {
          steps[i].superseded := true;
        }
      }
    }

    /** The specified decision, carried out on the rows; a refusal leaves every row alone. */
    method RecordDecision(expectedVersion: int, decision: ApprovalDecision, approver: Option<nat>)
      returns (r: Result<DecisionResult, DecisionError>)
      requires Valid()
      modifies this, steps
      ensures Valid() && steps == old(steps)
      ensures match Decide(old(View()), expectedVersion, decision, approver)
              case Success(c) =>
                View() == c && r.Success? && r.value.claimStatus == c.status && r.value.newVersion == c.version
              case Failure(e) => View() == old(View()) && r == Failure(e)
      ensures r.Success? ==> Some(r.value.stepSequence) == SequenceOf(old(View()), Claims.CurrentStep(old(View())))
    {
      if version != expectedVersion {
        return Failure(ConcurrentModification);
      }
      var current := FindWaiting(returnCount + 1, -1);
      if current.None? {
        return Failure(NoPendingStep);
      }
      var target := FindTarget(current.value, decision);
      DecideOn(View(), current.value, decision, approver, target);
      if !MayFollow(status, target) {
        return Failure(InvalidTransition(status, target));
      }
      Apply(current.value, decision, approver, target);
      r := Success(DecisionResult(target, steps[current.value].sequence, version));
    }

    /** Mark the step, close the round if it is a return, and move the claim on. */
    method Apply(current: nat, decision: ApprovalDecision, approver: Option<nat>, target: ClaimStatus)
      requires Valid() && current < |steps|
      modifies this, steps
      ensures Valid() && steps == old(steps)
      ensures View() == Moved(old(View()), current, decision, approver, target)
    {
      MarkSteps(current, decision, approver);
      if decision.Returned? {
        returnCount := returnCount + 1;
      }
      status := target;
      version := version + 1;
    }

    method MarkSteps(current: nat, decision: ApprovalDecision, approver: Option<nat>)
      requires Valid() && current < |steps|
      modifies steps
      ensures var marked := old(Views(steps))[current := Marked(old(Views(steps))[current], decision, approver)];
        Views(steps) == if decision.Returned? then SupersedeRound(marked, returnCount + 1) else marked
    {
      Mark(current, decision, approver);
      if decision.Returned? {
        Supersede(returnCount + 1);
      }
    }

    method Mark(current: nat, decision: ApprovalDecision, approver: Option<nat>)
      requires Valid() && current < |steps|
      modifies steps
      ensures Views(steps) == old(Views(steps))[current := Marked(old(Views(steps))[current], decision, approver)]
    {
      var step := steps[current];
      step.decision := decision;
      step.approver := OrElse(approver, step.approver);
    }

    method WriteLines(outcomes: seq<LineOutcome>)
      requires lines == []
      modifies this`lines
      ensures lines == FrozenLines(outcomes)
    {
      for i := 0 to |outcomes|
        invariant lines == FrozenLines(outcomes)[..i]
      {
        lines := lines + [Frozen(outcomes[i])];
      }
    }

    method WriteChain(chain: seq<ChainStep>, staff: Staff)
      requires Valid()
      modifies this`steps
      ensures Valid()
      ensures old(steps) <= steps && forall i :: |old(steps)| <= i < |steps| ==> fresh(steps[i])
      ensures Views(steps) == old(Views(steps)) + WrittenChain(chain, staff, returnCount + 1)
    {
      var round := returnCount + 1;
      for k := 0 to |chain|
        invariant Valid()
        invariant |steps| == |old(steps)| + k && old(steps) == steps[..|old(steps)|]
        invariant forall i :: |old(steps)| <= i < |steps| ==> fresh(steps[i])
        invariant forall i :: 0 <= i < |old(steps)| ==> steps[i].View() == old(steps[i].View())
        invariant forall i :: 0 <= i < k ==> steps[|old(steps)| + i].View() == WrittenStep(chain[i], staff, round)
      {
        var approver := Assignee(chain[k], staff);
        var step := new ApprovalStep(round, chain[k].sequence, chain[k].role, approver,
                                     if approver.None? then ApprovalDecision.Approved else Pending);
        steps := steps + [step];
      }
    }

    /** Freeze a draft that passes the gate and open a round for it; a refusal changes nothing. */
    method Submit(draft: ClaimDraft, staff: Staff) returns (r: Result<(), SubmitError>)
      requires Valid()
      modifies this
      ensures Valid()
      ensures old(steps) <= steps && forall i :: |old(steps)| <= i < |steps| ==> fresh(steps[i])
      ensures match Claims.Submit(old(View()), draft, staff)
              case Success(c) => View() == c && r.Success?
              case Failure(e) => View() == old(View()) && r == Failure(e)
    {
      var canSubmit, reasons := CheckCanSubmit(draft.outcomes);
      if !canSubmit {
        return Failure(Incomplete(reasons));
      }
      if !status.Draft? {
        return Failure(AlreadySubmitted(status));
      }
      Freeze(draft, staff);
      return Success(());
    }

    /** New lines and totals take the place of the old; the steps already there stay, and new ones follow. */
    method Freeze(draft: ClaimDraft, staff: Staff)
      requires Valid()
      modifies this
      ensures Valid()
      ensures old(steps) <= steps && forall i :: |old(steps)| <= i < |steps| ==> fresh(steps[i])
      ensures View() == AfterSubmit(old(View()), draft, staff)
    {
      lines := [];
      WriteLines(draft.outcomes);
      summary := draft.summary;
      WriteChain(draft.chain, staff);
      status := PendingApproval;
      version := version + 1;
    }
  }

  /** The decision route: who may act, and then the service. */
  method DecideRoute(claim: SettlementClaim, user: User, request: DecisionRequest)
    returns (r: Result<DecisionResult, Refusal>)
    requires claim.Valid()
    modifies claim, claim.steps
    ensures claim.Valid() && claim.steps == old(claim.steps)
    ensures match HandleDecision(old(claim.View()), user, request)
            case Success(c) => claim.View() == c && r.Success?
            case Failure(e) => claim.View() == old(claim.View()) && r == Failure(e)
  {
    if user.role.Employee? {
      return Failure(NotAnApprover);
    }
    if request.approverCode != user.code {
      return Failure(ApproverMismatch);
    }
    var view := claim.View();
    if !IsRoutedTo(view, user) {
      return Failure(NoSuchClaim);
    }
    var desk := OnDesk(view);
    if desk.None? {
      return Failure(NothingPending);
    }
    if view.steps[desk.value].approver != Some(user.id) {
      return Failure(NotYourStep);
    }
    if request.verdict.Return? && !request.SaysWhy() {
      return Failure(RemarksRequired);
    }
    var decided := claim.RecordDecision(request.expectedVersion, DecisionOf(request.verdict), Some(user.id));
    if decided.Failure? {
      return Failure(Undecided(decided.error));
    }
    return Success(decided.value);
  }

  /** The submission route: the claimant's own draft is built afresh, frozen and routed. */
  method SubmitRoute(claim: SettlementClaim, owner: nat, user: User, request: Request, policy: PolicyVersion,
                     directory: Directory, withdrawn: set<string>, staff: Staff)
    returns (r: Result<(), Refusal>)
    requires claim.Valid()
    modifies claim
    ensures claim.Valid()
    ensures match HandleSubmission(old(claim.View()), owner, user, Drafted(request, policy, directory, withdrawn),
                                   staff)
            case Success(c) => claim.View() == c && r.Success?
            case Failure(e) => claim.View() == old(claim.View()) && r == Failure(e)
  {
    if user.id != owner {
      return Failure(if !user.role.Employee? && IsRoutedTo(claim.View(), user) then NotTheClaimant else NoSuchClaim);
    }
    if !claim.status.Draft? {
      return Failure(ClaimLocked(claim.status));
    }
    var drafted := BuildClaim(request, policy, directory, withdrawn);
    if drafted.Failure? {
      return Failure(NotBuilt(drafted.error));
    }
    var submitted := claim.Submit(drafted.value, staff);
    if submitted.Failure? {
      return Failure(NotSubmittable(submitted.error));
    }
    return Success(());
  }
}
