/** What submitting a claim and deciding a step do to it, as functions on the claim's value. */
module Claims {
  import opened Domain
  import opened Text
  import opened Sorting
  import opened Policy
  import opened Summary
  import opened Lifecycle
  import opened Routing
  import opened Pipeline

  datatype Step = Step(
    round: nat,
    sequence: nat,
    role: Role,
    approver: Option<nat>,
    decision: ApprovalDecision,
    superseded: bool)

  datatype FrozenLine = FrozenLine(
    head: Head,
    description: string,
    date: Option<int>,
    paidBy: PaidBy,
    gross: int,
    allowed: int,
    disallowed: int,
    status: LineStatus,
    proofRef: Option<string>,
    decisions: seq<Decision>)

  datatype Claim = Claim(
    status: ClaimStatus,
    returnCount: nat,
    version: nat,
    steps: seq<Step>,
    lines: seq<FrozenLine>,
    summary: SettlementSummary)
  {
    function Round(): nat {
      returnCount + 1
    }
  }

  /** A claim nobody has submitted: the row as it is created, or no row yet. */
  function FreshClaim(): Claim {
    Claim(Draft, 0, 1, [], [], SettlementSummary(0, 0, 0, 0, 0, 0, 0))
  }

  // The step a claim is waiting on

  predicate IsLive(step: Step, round: nat) {
    !step.superseded && step.round == round
  }

  predicate IsWaiting(step: Step, round: nat) {
    IsLive(step, round) && step.decision.Pending?
  }

  /** The waiting step with the least sequence above a floor; of equal sequences, the earliest. */
  function LeastWaiting(steps: seq<Step>, round: nat, floor: int): (r: Option<nat>)
    ensures r.Some? ==> r.value < |steps|
  {
    if steps == [] then None
    else
      var n := |steps| - 1;
      var r := LeastWaiting(steps[..n], round, floor);
      if IsWaiting(steps[n], round) && steps[n].sequence > floor
         && (r.None? || steps[n].sequence < steps[r.value].sequence)
      then Some(n)
      else r
  }

  /** Nothing that waits above the floor comes before position `i`. */
  ghost predicate IsFirst(steps: seq<Step>, round: nat, floor: int, i: nat)
    requires i < |steps|
  {
    forall j :: 0 <= j < |steps| && IsWaiting(steps[j], round) && steps[j].sequence > floor ==>
      steps[i].sequence < steps[j].sequence || (steps[i].sequence == steps[j].sequence && i <= j)
  }

  lemma {:induction false} LeastWaitingIsLeast(steps: seq<Step>, round: nat, floor: int)
    ensures var r := LeastWaiting(steps, round, floor);
      && (r.None? ==> forall i :: 0 <= i < |steps| && IsWaiting(steps[i], round) ==> steps[i].sequence <= floor)
      && (r.Some? ==> && IsWaiting(steps[r.value], round) && steps[r.value].sequence > floor
                      && IsFirst(steps, round, floor, r.value))
  {
    if steps != [] {
      LeastWaitingIsLeast(steps[..|steps| - 1], round, floor);
    }
  }

  lemma LeastWaitingIs(steps: seq<Step>, round: nat, floor: int, i: nat)
    requires i < |steps| && IsWaiting(steps[i], round) && steps[i].sequence > floor && IsFirst(steps, round, floor, i)
    ensures LeastWaiting(steps, round, floor) == Some(i)
  {
    LeastWaitingIsLeast(steps, round, floor);
  }

  lemma NothingWaits(steps: seq<Step>, round: nat, floor: int)
    requires forall i :: 0 <= i < |steps| && IsWaiting(steps[i], round) ==> steps[i].sequence <= floor
    ensures LeastWaiting(steps, round, floor) == None
  {
    LeastWaitingIsLeast(steps, round, floor);
  }

  function CurrentStep(c: Claim): Option<nat> {
    LeastWaiting(c.steps, c.Round(), -1)
  }

  /** Undecided, not superseded, and of the round after the last return. */
  predicate IsOpen(c: Claim, i: nat)
    requires i < |c.steps|
  {
    c.steps[i].decision == Pending && !c.steps[i].superseded && c.steps[i].round == c.returnCount + 1
  }

  /** The claim waits on the open step of least sequence, and of equal ones on the earliest; or on none. */
  lemma CurrentStepExactly(c: Claim, i: nat)
    requires i < |c.steps|
    ensures CurrentStep(c) == Some(i)
       <==> && IsOpen(c, i)
            && forall j :: 0 <= j < |c.steps| && j != i && IsOpen(c, j) ==>
                 c.steps[i].sequence < c.steps[j].sequence || (c.steps[i].sequence == c.steps[j].sequence && i < j)
    ensures CurrentStep(c) == None ==> !IsOpen(c, i)
  {
    LeastWaitingIsLeast(c.steps, c.Round(), -1);
    if && IsOpen(c, i)
       && forall j :: 0 <= j < |c.steps| && j != i && IsOpen(c, j) ==>
            c.steps[i].sequence < c.steps[j].sequence || (c.steps[i].sequence == c.steps[j].sequence && i < j)
    {
      assert forall j :: 0 <= j < |c.steps| && IsWaiting(c.steps[j], c.Round()) ==> IsOpen(c, j);
      LeastWaitingIs(c.steps, c.Round(), -1, i);
    }
    if CurrentStep(c) == Some(i) {
      assert forall j :: 0 <= j < |c.steps| && IsOpen(c, j) ==> IsWaiting(c.steps[j], c.Round());
    }
  }

  // Deciding

  datatype DecisionError =
    | ConcurrentModification
    | NoPendingStep
    | InvalidTransition(from: ClaimStatus, to: ClaimStatus)

  /** Where a decision takes the claim: on to the next waiting step, whose role says where it waits. */
  function TargetStatus(c: Claim, current: nat, decision: ApprovalDecision): ClaimStatus
    requires current < |c.steps|
  {
    if decision.Rejected? then ClaimStatus.Rejected
    else if decision.Returned? then Draft
    else
      var next := LeastWaiting(c.steps, c.Round(), c.steps[current].sequence);
      if next.None? then Verified
      else if c.steps[next.value].role.Finance? then PendingFinance
      else PendingApproval
  }

  function SupersedeRound(steps: seq<Step>, round: nat): (r: seq<Step>)
    ensures |r| == |steps|
    ensures forall i :: 0 <= i < |steps| ==>
              r[i] == if steps[i].round == round then steps[i].(superseded := true) else steps[i]
  {
    seq(|steps|, i requires 0 <= i < |steps| =>
      if steps[i].round == round then steps[i].(superseded := true) else steps[i])
  }

  /** An approver id of zero is as good as none. */
  function OrElse(approver: Option<nat>, otherwise: Option<nat>): Option<nat> {
    if approver.None? || approver.value == 0 then otherwise else approver
  }

  function Marked(step: Step, decision: ApprovalDecision, approver: Option<nat>): Step {
    step.(decision := decision, approver := OrElse(approver, step.approver))
  }

  /** The claim with a step marked, its round closed if that is a return, and moved to a status. */
  function Moved(c: Claim, current: nat, decision: ApprovalDecision, approver: Option<nat>, target: ClaimStatus): Claim
    requires current < |c.steps|
  {
    var steps := c.steps[current := Marked(c.steps[current], decision, approver)];
    Claim(target,
          if decision.Returned? then c.returnCount + 1 else c.returnCount,
          c.version + 1,
          if decision.Returned? then SupersedeRound(steps, c.Round()) else steps,
          c.lines,
          c.summary)
  }

  function AfterDecision(c: Claim, current: nat, decision: ApprovalDecision, approver: Option<nat>): Claim
    requires current < |c.steps|
  {
    Moved(c, current, decision, approver, TargetStatus(c, current, decision))
  }

  function Decide(c: Claim, expectedVersion: int, decision: ApprovalDecision, approver: Option<nat>):
    Result<Claim, DecisionError>
  {
    var current := CurrentStep(c);
    if c.version != expectedVersion then Failure(ConcurrentModification)
    else if current.None? then Failure(NoPendingStep)
    else if !MayFollow(c.status, TargetStatus(c, current.value, decision)) then
      Failure(InvalidTransition(c.status, TargetStatus(c, current.value, decision)))
    else Success(AfterDecision(c, current.value, decision, approver))
  }

  // Submitting

  /** Who is in the employee table when the chain is written: their ids by code. */
  type Staff = map<string, nat>

  function Assignee(step: ChainStep, staff: Staff): Option<nat> {
    if step.approver.Some? && step.approver.value.code in staff then Some(staff[step.approver.value.code]) else None
  }

  /** A level with nobody to decide it is written as already approved, so that it never waits. */
  function WrittenStep(step: ChainStep, staff: Staff, round: nat): Step {
    var approver := Assignee(step, staff);
    Step(round, step.sequence, step.role, approver,
         if approver.None? then ApprovalDecision.Approved else Pending, false)
  }

  function WrittenChain(chain: seq<ChainStep>, staff: Staff, round: nat): (steps: seq<Step>)
    ensures |steps| == |chain|
    ensures forall k :: 0 <= k < |chain| ==> steps[k] == WrittenStep(chain[k], staff, round)
  {
    seq(|chain|, k requires 0 <= k < |chain| => WrittenStep(chain[k], staff, round))
  }

  /** The line as stored: what is kept as its gross is the claimable amount, tax included. */
  function Frozen(o: LineOutcome): FrozenLine {
    FrozenLine(o.line.head, o.line.description, o.line.date, o.line.paidBy, o.line.Claimable(),
               o.allowed, o.disallowed, o.status, o.line.proofRef, o.decisions)
  }

  function FrozenLines(outcomes: seq<LineOutcome>): (lines: seq<FrozenLine>)
    ensures |lines| == |outcomes|
    ensures forall i :: 0 <= i < |outcomes| ==> lines[i] == Frozen(outcomes[i])
  {
    seq(|outcomes|, i requires 0 <= i < |outcomes| => Frozen(outcomes[i]))
  }

  datatype SubmitError = Incomplete(reasons: seq<BlockingReason>) | AlreadySubmitted(status: ClaimStatus)

  function AfterSubmit(c: Claim, draft: ClaimDraft, staff: Staff): Claim {
    Claim(PendingApproval, c.returnCount, c.version + 1,
          c.steps + WrittenChain(draft.chain, staff, c.Round()),
          FrozenLines(draft.outcomes), draft.summary)
  }

  function Submit(c: Claim, draft: ClaimDraft, staff: Staff): Result<Claim, SubmitError> {
    if !draft.Submittable() then Failure(Incomplete(BlockingReasons(draft.outcomes)))
    else if !c.status.Draft? then Failure(AlreadySubmitted(c.status))
    else Success(AfterSubmit(c, draft, staff))
  }

  // The chain being judged, as the screens show it

  function Sequences(steps: seq<Step>): (keys: seq<int>)
    ensures |keys| == |steps|
    ensures forall i :: 0 <= i < |steps| ==> keys[i] == steps[i].sequence
  {
    seq(|steps|, i requires 0 <= i < |steps| => steps[i].sequence)
  }

  /** The live steps of the round in progress, sorted by sequence. */
  function CurrentRoundSteps(c: Claim): (order: seq<nat>)
    ensures Sorted(Sequences(c.steps), order)
    ensures forall i :: i in order
                   <==> 0 <= i < |c.steps| && !c.steps[i].superseded && c.steps[i].round == c.returnCount + 1
  {
    SortedIndices(Sequences(c.steps), (i: nat) => i < |c.steps| && IsLive(c.steps[i], c.Round()), |c.steps|)
  }

  function FirstPending(steps: seq<Step>, order: seq<nat>): (r: Option<nat>)
    requires forall k :: 0 <= k < |order| ==> order[k] < |steps|
    ensures r.None? <==> forall k :: 0 <= k < |order| ==> !steps[order[k]].decision.Pending?
    ensures r.Some? ==> exists k :: && 0 <= k < |order| && order[k] == r.value && steps[r.value].decision.Pending?
                                    && forall j :: 0 <= j < k ==> !steps[order[j]].decision.Pending?
  {
    if order == [] then None
    else if steps[order[0]].decision.Pending? then Some(order[0])
    else
      var r := FirstPending(steps, order[1..]);
      assert r.Some? ==> exists k :: && 0 <= k < |order[1..]| && order[1..][k] == r.value == order[k + 1]
                                     && forall j :: 0 <= j < k + 1 ==> !steps[order[j]].decision.Pending?;
      r
  }

  /** Whose desk the claim is on, as the approval queue and the decision route see it. */
  function OnDesk(c: Claim): Option<nat> {
    FirstPending(c.steps, CurrentRoundSteps(c))
  }

  /** Every waiting step is among the round's steps, at or after the first pending one. */
  lemma WaitingComesAtOrAfter(c: Claim, k: nat, j: nat)
    requires k < |CurrentRoundSteps(c)| && j < |c.steps| && IsWaiting(c.steps[j], c.Round())
    requires forall m :: 0 <= m < k ==> !c.steps[CurrentRoundSteps(c)[m]].decision.Pending?
    ensures CurrentRoundSteps(c)[k] == j || Before(Sequences(c.steps), CurrentRoundSteps(c)[k], j)
  {
    var order := CurrentRoundSteps(c);
    assert j in order;
    var m :| 0 <= m < |order| && order[m] == j;
    assert m >= k;
  }

  /** The routes and the service name the same single step. */
  lemma RoutesAgreeWithService(c: Claim)
    ensures OnDesk(c) == CurrentStep(c)
  {
    var order, desk := CurrentRoundSteps(c), OnDesk(c);
    if desk.Some? {
      var k :| && 0 <= k < |order| && order[k] == desk.value && c.steps[desk.value].decision.Pending?
               && forall j :: 0 <= j < k ==> !c.steps[order[j]].decision.Pending?;
      assert order[k] in order;
      forall j | 0 <= j < |c.steps| && IsWaiting(c.steps[j], c.Round())
        ensures desk.value == j || Before(Sequences(c.steps), desk.value, j)
      {
        WaitingComesAtOrAfter(c, k, j);
      }
      LeastWaitingIs(c.steps, c.Round(), -1, desk.value);
    } else {
      forall j | 0 <= j < |c.steps|
        ensures !IsWaiting(c.steps[j], c.Round())
      {
        assert IsLive(c.steps[j], c.Round()) ==> j in order;
      }
      NothingWaits(c.steps, c.Round(), -1);
    }
  }

  // The routes

  datatype User = User(id: nat, code: string, role: Role)

  datatype Verdict = Approve | Reject | Return

  function DecisionOf(verdict: Verdict): ApprovalDecision {
    match verdict
    case Approve => ApprovalDecision.Approved
    case Reject => ApprovalDecision.Rejected
    case Return => Returned
  }

  datatype DecisionRequest = DecisionRequest(
    approverCode: string,
    expectedVersion: int,
    verdict: Verdict,
    remarks: Option<string>)
  {
    predicate SaysWhy() {
      remarks.Some? && Strip(remarks.value) != ""
    }
  }

  datatype Refusal =
    | NotAnApprover
    | ApproverMismatch
    | NoSuchClaim
    | NothingPending
    | NotYourStep
    | RemarksRequired
    | Undecided(error: DecisionError)
    | NotTheClaimant
    | ClaimLocked(status: ClaimStatus)
    | NotBuilt(build: BuildError)
    | NotSubmittable(reason: SubmitError)

  predicate IsRoutedTo(c: Claim, user: User) {
    exists i :: 0 <= i < |c.steps| && c.steps[i].approver == Some(user.id)
  }

  function HandleDecision(c: Claim, user: User, request: DecisionRequest): Result<Claim, Refusal> {
    if user.role.Employee? then Failure(NotAnApprover)
    else if request.approverCode != user.code then Failure(ApproverMismatch)
    else if !IsRoutedTo(c, user) then Failure(NoSuchClaim)
    else
      var desk := OnDesk(c);
      if desk.None? then Failure(NothingPending)
      else if c.steps[desk.value].approver != Some(user.id) then Failure(NotYourStep)
      else if request.verdict.Return? && !request.SaysWhy() then Failure(RemarksRequired)
      else
        var r := Decide(c, request.expectedVersion, DecisionOf(request.verdict), Some(user.id));
        if r.Failure? then Failure(Undecided(r.error)) else Success(r.value)
  }

  /**
   * A verdict is accepted exactly when an approver speaks for themselves about the step the claim is
   * waiting on, having read the claim as it stands, with remarks if they return it, and the status
   * may follow.
   */
  lemma DecisionIsAcceptedExactly(c: Claim, user: User, request: DecisionRequest)
    ensures HandleDecision(c, user, request).Success?
       <==> && !user.role.Employee?
            && request.approverCode == user.code
            && request.expectedVersion == c.version
            && (request.verdict.Return? ==> HasWords(request.remarks))
            && CurrentStep(c).Some?
            && c.steps[CurrentStep(c).value].approver == Some(user.id)
            && MayFollow(c.status, TargetStatus(c, CurrentStep(c).value, DecisionOf(request.verdict)))
    ensures HandleDecision(c, user, request).Success? ==>
              HandleDecision(c, user, request).value
              == AfterDecision(c, CurrentStep(c).value, DecisionOf(request.verdict), Some(user.id))
  {
    RoutesAgreeWithService(c);
    if request.remarks.Some? {
      StripIsEmptyExactly(request.remarks.value);
    }
  }

  /** Remarks with anything in them but white space. */
  predicate HasWords(remarks: Option<string>) {
    remarks.Some? && exists i :: 0 <= i < |remarks.value| && !IsBlank(remarks.value[i])
  }

  /**
   * What a decision that the service accepts changes, and nothing else: the step the claim was waiting
   * on is decided, by the approver named if there is one; the version goes up by one; a return opens
   * the next round and supersedes the one it ends; and lines and summary stay.
   */
  lemma DecisionChangesExactly(c: Claim, expectedVersion: int, decision: ApprovalDecision, approver: Option<nat>)
    requires Decide(c, expectedVersion, decision, approver).Success?
    ensures CurrentStep(c).Some? && expectedVersion == c.version
    ensures var c', at := Decide(c, expectedVersion, decision, approver).value, CurrentStep(c).value;
      && c'.version == c.version + 1 && c'.lines == c.lines && c'.summary == c.summary
      && c'.returnCount == (if decision.Returned? then c.returnCount + 1 else c.returnCount)
      && (decision.Rejected? ==> c'.status.Rejected?) && (decision.Returned? ==> c'.status.Draft?)
      && |c'.steps| == |c.steps|
      && c'.steps[at].decision == decision
      && c'.steps[at].approver == (if approver.Some? && approver.value > 0 then approver else c.steps[at].approver)
      && forall i :: 0 <= i < |c.steps| ==>
           && c'.steps[i].round == c.steps[i].round && c'.steps[i].sequence == c.steps[i].sequence
           && c'.steps[i].role == c.steps[i].role
           && (i != at ==> c'.steps[i].decision == c.steps[i].decision && c'.steps[i].approver == c.steps[i].approver)
           && (c'.steps[i].superseded
               <==> c.steps[i].superseded || (decision.Returned? && c.steps[i].round == c.returnCount + 1))
  {
  }

  /** It is addressed to the user, whether or not it is their turn. */
  predicate IsAsked(c: Claim, user: User) {
    exists i :: 0 <= i < |c.steps| && c.steps[i].approver == Some(user.id)
  }

  predicate IsTheirTurn(c: Claim, user: User) {
    CurrentStep(c).Some? && c.steps[CurrentStep(c).value].approver == Some(user.id)
  }

  /** A verdict is refused for the first of these that applies. */
  lemma DecisionIsRefusedExactly(c: Claim, user: User, request: DecisionRequest, e: Refusal)
    ensures HandleDecision(c, user, request) == Failure(e)
       <==> if user.role.Employee? then e == NotAnApprover
            else if request.approverCode != user.code then e == ApproverMismatch
            else if !IsAsked(c, user) then e == NoSuchClaim
            else if CurrentStep(c).None? then e == NothingPending
            else if !IsTheirTurn(c, user) then e == NotYourStep
            else if request.verdict.Return? && !HasWords(request.remarks) then e == RemarksRequired
            else if request.expectedVersion != c.version then e == Undecided(ConcurrentModification)
            else
              var target := TargetStatus(c, CurrentStep(c).value, DecisionOf(request.verdict));
              !MayFollow(c.status, target) && e == Undecided(InvalidTransition(c.status, target))
  {
    RoutesAgreeWithService(c);
    if request.remarks.Some? {
      StripIsEmptyExactly(request.remarks.value);
    }
  }

  /** What the route accepts, the service has accepted in the same words. */
  lemma AcceptedIsDecided(c: Claim, user: User, request: DecisionRequest)
    requires HandleDecision(c, user, request).Success?
    ensures Decide(c, request.expectedVersion, DecisionOf(request.verdict), Some(user.id))
         == Success(HandleDecision(c, user, request).value)
  {
  }

  function HandleSubmission(c: Claim, owner: nat, user: User, drafted: Result<ClaimDraft, BuildError>, staff: Staff):
    Result<Claim, Refusal>
  {
    if user.id != owner then
      Failure(if !user.role.Employee? && IsRoutedTo(c, user) then NotTheClaimant else NoSuchClaim)
    else if !c.status.Draft? then Failure(ClaimLocked(c.status))
    else if drafted.Failure? then Failure(NotBuilt(drafted.error))
    else
      var r := Submit(c, drafted.value, staff);
      if r.Failure? then Failure(NotSubmittable(r.error)) else Success(r.value)
  }

  /** A level as it is written down: addressed to its approver while they are employed, or else closed. */
  predicate IsWrittenAs(step: Step, level: ChainStep, staff: Staff, round: nat) {
    && step.round == round && step.sequence == level.sequence && step.role == level.role && !step.superseded
    && if level.approver.Some? && level.approver.value.code in staff
       then step.approver == Some(staff[level.approver.value.code]) && step.decision.Pending?
       else step.approver == None && step.decision.Approved?
  }

  predicate IsFrozenAs(line: FrozenLine, o: LineOutcome) {
    && line.head == o.line.head && line.description == o.line.description && line.date == o.line.date
    && line.paidBy == o.line.paidBy && line.gross == o.line.gross + o.line.taxShare
    && line.allowed == o.allowed && line.disallowed == o.disallowed && line.status == o.status
    && line.proofRef == o.line.proofRef && line.decisions == o.decisions
  }

  /**
   * The claim waits for approval with the draft's lines and summary in place of its own, the steps it
   * had, and after them the draft's chain as a new round.
   */
  ghost predicate OpensRound(c: Claim, c': Claim, draft: ClaimDraft, staff: Staff) {
    && c'.status.PendingApproval? && c'.returnCount == c.returnCount && c'.version == c.version + 1
    && c'.summary == draft.summary
    && |c'.lines| == |draft.outcomes|
    && (forall i :: 0 <= i < |draft.outcomes| ==> IsFrozenAs(c'.lines[i], draft.outcomes[i]))
    && |c'.steps| == |c.steps| + |draft.chain|
    && (forall i :: 0 <= i < |c.steps| ==> c'.steps[i] == c.steps[i])
    && (forall k :: 0 <= k < |draft.chain| ==>
          IsWrittenAs(c'.steps[|c.steps| + k], draft.chain[k], staff, c.returnCount + 1))
  }

  /**
   * A submission is accepted exactly when it is the owner's, the claim is a draft, whether never
   * submitted or returned any number of times, and the draft builds and is complete. It then opens the
   * next round.
   */
  lemma SubmissionIsAcceptedExactly(c: Claim, owner: nat, user: User, drafted: Result<ClaimDraft, BuildError>,
                                    staff: Staff)
    ensures HandleSubmission(c, owner, user, drafted, staff).Success?
       <==> user.id == owner && c.status.Draft? && drafted.Success? && drafted.value.Submittable()
    ensures HandleSubmission(c, owner, user, drafted, staff).Success? ==>
              OpensRound(c, HandleSubmission(c, owner, user, drafted, staff).value, drafted.value, staff)
  {
    if user.id == owner && c.status.Draft? && drafted.Success? && drafted.value.Submittable() {
      SubmittedClaimOpensRound(c, drafted.value, staff);
    }
  }

  /** And it is refused for the first of these that applies. */
  lemma SubmissionIsRefusedExactly(c: Claim, owner: nat, user: User, drafted: Result<ClaimDraft, BuildError>,
                                   staff: Staff, e: Refusal)
    ensures HandleSubmission(c, owner, user, drafted, staff) == Failure(e)
       <==> if user.id != owner then
              e == if IsAsked(c, user) && !user.role.Employee? then NotTheClaimant else NoSuchClaim
            else if !c.status.Draft? then e == ClaimLocked(c.status)
            else if drafted.Failure? then e == NotBuilt(drafted.error)
            else
              var reasons := BlockingReasons(drafted.value.outcomes);
              !drafted.value.Submittable() && e == NotSubmittable(Incomplete(reasons))
  {
  }

  lemma SubmittedClaimOpensRound(c: Claim, draft: ClaimDraft, staff: Staff)
    ensures OpensRound(c, AfterSubmit(c, draft, staff), draft, staff)
  {
    var c' := AfterSubmit(c, draft, staff);
    forall k | 0 <= k < |draft.chain|
      ensures IsWrittenAs(c'.steps[|c.steps| + k], draft.chain[k], staff, c.returnCount + 1)
    {
      assert c'.steps[|c.steps| + k] == WrittenStep(draft.chain[k], staff, c.Round());
    }
  }

  /** The pending queue shows a claim to whoever its first waiting step is addressed to. */
  function MyPendingStep(c: Claim, user: User): Option<nat> {
    var desk := OnDesk(c);
    if desk.Some? && c.steps[desk.value].approver == Some(user.id) then desk else None
  }
}
