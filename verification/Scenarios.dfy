/** Small runs that show the protocol's rough edges on concrete claims. */
module Scenarios {
  import opened Domain
  import opened Policy
  import opened Lifecycle
  import opened Routing
  import opened Pipeline
  import opened Claims
  import opened Protocol
  import opened Rounds

  // A claim of two lines, worth Rs 26,000, which asks a reporting manager and a head of department

  function PlainPolicy(): PolicyVersion {
    PolicyVersion(Params(map[], map[], None, None, []), RoutingParams(SHIPPED_MATRIX, true, false))
  }

  function DossierOf(claimant: EmployeeRef, directory: Directory, staff: Staff): Dossier {
    Dossier(TwoLineRequest(claimant), PlainPolicy(), directory, {}, staff)
  }

  /** The example's chain: two business levels and Finance. */
  function ThreeLevels(manager: Option<EmployeeRef>, head: Option<EmployeeRef>, finance: EmployeeRef): seq<ChainStep> {
    [ChainStep(1, ReportingManager, manager), ChainStep(2, HeadOfDepartment, head),
     ChainStep(3, Finance, Some(finance))]
  }

  lemma SecondBand()
    ensures RolesForValue(2600000, SHIPPED_MATRIX) == Success([ReportingManager, HeadOfDepartment])
  {
    var m := SHIPPED_MATRIX;
    assert !Covers(m[0], 2600000) && m[1..][0] == m[1] && Covers(m[1], 2600000);
  }

  lemma TwoBusinessSteps(line: seq<EmployeeRef>)
    ensures BusinessSteps([ReportingManager, HeadOfDepartment], line)
         == [ChainStep(1, ReportingManager, Holder(line, ReportingManager)),
             ChainStep(2, HeadOfDepartment, Holder(line, HeadOfDepartment))]
  {
  }

  lemma ChainOfTwo(claimant: EmployeeRef, directory: Directory, line: seq<EmployeeRef>, finance: EmployeeRef)
    requires AncestorsOf(claimant, directory, 12) == Success(line) && FirstFinance(directory) == Some(finance)
    ensures ChainOf(2600000, claimant, directory, PlainPolicy().routing)
         == Success(ThreeLevels(Holder(line, ReportingManager), Holder(line, HeadOfDepartment), finance))
  {
    SecondBand();
    TwoBusinessSteps(line);
    assert [ChainStep(1, ReportingManager, Holder(line, ReportingManager)),
            ChainStep(2, HeadOfDepartment, Holder(line, HeadOfDepartment))] + [ChainStep(3, Finance, Some(finance))]
        == ThreeLevels(Holder(line, ReportingManager), Holder(line, HeadOfDepartment), finance);
  }

  lemma TwoLinesAreSubmittable(claimant: EmployeeRef, directory: Directory)
    ensures Drafted(TwoLineRequest(claimant), PlainPolicy(), directory, {}).Success? ==>
              Drafted(TwoLineRequest(claimant), PlainPolicy(), directory, {}).value.Submittable()
  {
    TwoLinesAreKept();
    NothingIsMissing();
    SubmittableExactly(TwoLineRequest(claimant), PlainPolicy(), directory, {});
  }

  lemma NothingIsMissing()
    ensures NothingMissing(TwoPieces(), {})
  {
    assert PresetOf(TwoPieces()[0].item, {}).None?;
  }

  lemma DraftFollowsItsNet(request: Request, policy: PolicyVersion, directory: Directory, net: int,
                           chain: seq<ChainStep>)
    requires Drafted(request, policy, directory, {}).Success?
    requires Drafted(request, policy, directory, {}).value.summary.netReimbursable == net
    requires ChainOf(net, request.claimant, directory, policy.routing) == Success(chain)
    ensures Drafted(request, policy, directory, {}).value.chain == chain
  {
  }

  lemma TwoLinesDraftAndSubmit(claimant: EmployeeRef, directory: Directory, staff: Staff, line: seq<EmployeeRef>,
                               finance: EmployeeRef)
    requires AncestorsOf(claimant, directory, 12) == Success(line) && FirstFinance(directory) == Some(finance)
    ensures var r := DraftOf(DossierOf(claimant, directory, staff));
      && r.Success? && r.value.Submittable()
      && r.value.chain == ThreeLevels(Holder(line, ReportingManager), Holder(line, HeadOfDepartment), finance)
  {
    SecondBand();
    TwoLineDraft(claimant, directory, PlainPolicy(), {});
    ChainOfTwo(claimant, directory, line, finance);
    TwoLinesAreSubmittable(claimant, directory);
    DraftFollowsItsNet(TwoLineRequest(claimant), PlainPolicy(), directory, 2600000,
                       ThreeLevels(Holder(line, ReportingManager), Holder(line, HeadOfDepartment), finance));
  }

  lemma NobodyAbove(claimant: EmployeeRef, directory: Directory)
    requires claimant.managerCode.None?
    ensures AncestorsOf(claimant, directory, 12) == Success([])
  {
    assert Hop(claimant, directory, 0).None?;
    ReachIs(claimant, directory, 12, 0);
  }

  lemma OneAbove(claimant: EmployeeRef, directory: Directory, manager: EmployeeRef)
    requires claimant.managerCode == Some(manager.code) && manager.code != "" && manager.code != claimant.code
    requires manager.code in directory && directory[manager.code] == manager && manager.managerCode.None?
    ensures AncestorsOf(claimant, directory, 12) == Success([manager])
  {
    assert Hop(claimant, directory, 0) == Some(manager.code);
    assert !StopsAt(claimant, directory, 0);
    assert Hop(claimant, directory, 1).None?;
    ReachIs(claimant, directory, 12, 1);
    assert Walk(claimant, directory, 1) == [manager];
  }

  lemma OnlyFinance(directory: Directory, finance: EmployeeRef)
    requires FinanceCodes(directory) == {finance.code} && directory[finance.code] == finance
    ensures FirstFinance(directory) == Some(finance)
  {
    assert Least(FinanceCodes(directory)) in FinanceCodes(directory);
  }

  lemma RunOnce(owner: nat, events: seq<Event>, e: Event)
    ensures Run(owner, events + [e]) == Next(owner, Run(owner, events), e)
  {
    assert (events + [e])[..|events|] == events;
  }

  /** A claim in its first round, with a status, a version and three steps. */
  predicate IsRound(c: Claim, status: ClaimStatus, version: nat, steps: seq<Step>) {
    c.status == status && c.returnCount == 0 && c.version == version && c.steps == steps
  }

  lemma NothingRunYet(owner: nat, events: seq<Event>)
    requires events == []
    ensures Run(owner, events) == FreshClaim()
  {
  }

  lemma FirstRequest(owner: nat, e: Event)
    ensures Run(owner, [e]) == Next(owner, FreshClaim(), e)
    ensures Accepted(owner, [e], 0) <==> Handle(owner, FreshClaim(), e).Success?
  {
    NothingRunYet(owner, [e][..0]);
    RunStep(owner, [e], 0);
    assert [e][..1] == [e];
  }

  lemma FreshClaimTakes(owner: nat, e: Event, draft: ClaimDraft)
    requires e.Submission? && e.user.id == owner && DraftOf(e.dossier) == Success(draft) && draft.Submittable()
    ensures Handle(owner, FreshClaim(), e) == Success(AfterSubmit(FreshClaim(), draft, e.dossier.staff))
  {
  }

  lemma FreshRound(draft: ClaimDraft, staff: Staff)
    ensures IsRound(AfterSubmit(FreshClaim(), draft, staff), PendingApproval, 2, WrittenChain(draft.chain, staff, 1))
  {
    assert [] + WrittenChain(draft.chain, staff, 1) == WrittenChain(draft.chain, staff, 1);
  }

  /** The claim after its owner's first submission. */
  lemma FirstSubmission(owner: nat, e: Event, draft: ClaimDraft)
    requires e.Submission? && e.user.id == owner && DraftOf(e.dossier) == Success(draft) && draft.Submittable()
    ensures Accepted(owner, [e], 0)
    ensures IsRound(Run(owner, [e]), PendingApproval, 2, WrittenChain(draft.chain, e.dossier.staff, 1))
  {
    FirstRequest(owner, e);
    FreshClaimTakes(owner, e, draft);
    FreshRound(draft, e.dossier.staff);
  }

  lemma ThreeWritten(chain: seq<ChainStep>, staff: Staff)
    requires |chain| == 3
    ensures WrittenChain(chain, staff, 1)
         == [WrittenStep(chain[0], staff, 1), WrittenStep(chain[1], staff, 1), WrittenStep(chain[2], staff, 1)]
  {
  }

  lemma SecondRequest(owner: nat, e: Event, f: Event)
    ensures Run(owner, [e, f]) == Next(owner, Run(owner, [e]), f)
    ensures Accepted(owner, [e, f], 1) <==> Handle(owner, Run(owner, [e]), f).Success?
  {
    assert [e, f][..1] == [e] && [e] + [f] == [e, f];
    RunOnce(owner, [e], f);
  }

  lemma ThirdRequest(owner: nat, e: Event, f: Event, g: Event)
    ensures Run(owner, [e, f, g]) == Next(owner, Run(owner, [e, f]), g)
    ensures Accepted(owner, [e, f, g], 2) <==> Handle(owner, Run(owner, [e, f]), g).Success?
  {
    assert [e, f, g][..2] == [e, f] && [e, f] + [g] == [e, f, g];
    RunOnce(owner, [e, f], g);
  }

  /** What a verdict of the person whose turn it is does, when the status may follow. */
  lemma VerdictIs(c: Claim, e: Event, at: nat, target: ClaimStatus)
    requires e.Deciding? && !e.request.verdict.Return? && !e.user.role.Employee?
    requires CurrentStep(c) == Some(at) && at < |c.steps| && c.steps[at].approver == Some(e.user.id)
    requires e.request.approverCode == e.user.code && e.request.expectedVersion == c.version
    requires TargetStatus(c, at, DecisionOf(e.request.verdict)) == target
    ensures MayFollow(c.status, target) ==>
              Handle(1, c, e) == Success(Moved(c, at, DecisionOf(e.request.verdict), Some(e.user.id), target))
    ensures !MayFollow(c.status, target) ==>
              Handle(1, c, e) == Failure(Undecided(InvalidTransition(c.status, target)))
  {
    RoutesAgreeWithService(c);
  }

  // Nobody above the claimant

  /** An employee who reports to nobody, and one Finance person. */
  function Alone(): EmployeeRef {
    EmployeeRef("E1", Employee, None)
  }

  function Financier(): EmployeeRef {
    EmployeeRef("F1", Finance, None)
  }

  function AloneDirectory(): Directory {
    map["E1" := Alone(), "F1" := Financier()]
  }

  function AloneDossier(): Dossier {
    DossierOf(Alone(), AloneDirectory(), map["E1" := 1, "F1" := 2])
  }

  function OnlyFinanceAsked(): seq<Step> {
    [Step(1, 1, ReportingManager, None, ApprovalDecision.Approved, false),
     Step(1, 2, HeadOfDepartment, None, ApprovalDecision.Approved, false),
     Step(1, 3, Finance, Some(2), Pending, false)]
  }

  function AloneSubmits(): Event {
    Submission(User(1, "E1", Employee), AloneDossier())
  }

  lemma AloneChain()
    ensures DraftOf(AloneDossier()).Success? && DraftOf(AloneDossier()).value.Submittable()
    ensures DraftOf(AloneDossier()).value.chain == ThreeLevels(None, None, Financier())
  {
    assert FinanceCodes(AloneDirectory()) == {"F1"};
    NobodyAbove(Alone(), AloneDirectory());
    OnlyFinance(AloneDirectory(), Financier());
    TwoLinesDraftAndSubmit(Alone(), AloneDirectory(), map["E1" := 1, "F1" := 2], [], Financier());
  }

  lemma AloneWritten()
    ensures WrittenChain(ThreeLevels(None, None, Financier()), map["E1" := 1, "F1" := 2], 1) == OnlyFinanceAsked()
  {
    var staff := map["E1" := 1, "F1" := 2];
    ThreeWritten(ThreeLevels(None, None, Financier()), staff);
    assert Assignee(ChainStep(3, Finance, Some(Financier())), staff) == Some(2);
  }

  lemma AloneIsSubmitted()
    ensures Accepted(1, [AloneSubmits()], 0)
    ensures IsRound(Run(1, [AloneSubmits()]), PendingApproval, 2, OnlyFinanceAsked())
  {
    AloneChain();
    FirstSubmission(1, AloneSubmits(), DraftOf(AloneDossier()).value);
    AloneWritten();
  }

  lemma OnlyFinanceWaits()
    ensures LeastWaiting(OnlyFinanceAsked(), 1, -1) == Some(2) && LeastWaiting(OnlyFinanceAsked(), 1, 3) == None
  {
    LeastWaitingIs(OnlyFinanceAsked(), 1, -1, 2);
    NothingWaits(OnlyFinanceAsked(), 1, 3);
  }

  function FinanceApproves(): Event {
    Deciding(User(2, "F1", Finance), DecisionRequest("F1", 2, Approve, None))
  }

  lemma AloneWaits(c: Claim)
    requires IsRound(c, PendingApproval, 2, OnlyFinanceAsked())
    ensures CurrentStep(c) == Some(2) && c.steps[2].approver == Some(2)
    ensures TargetStatus(c, 2, ApprovalDecision.Approved) == Verified
  {
    OnlyFinanceWaits();
  }

  lemma FinanceAloneCannotApprove(c: Claim)
    requires IsRound(c, PendingApproval, 2, OnlyFinanceAsked())
    ensures Handle(1, c, FinanceApproves()) == Failure(Undecided(InvalidTransition(PendingApproval, Verified)))
  {
    AloneWaits(c);
    LastStepRefuses(c, FinanceApproves());
  }

  lemma LastStepRefuses(c: Claim, e: Event)
    requires c.status.PendingApproval? && CurrentStep(c) == Some(2) && |c.steps| == 3
    requires TargetStatus(c, 2, ApprovalDecision.Approved) == Verified
    requires e.Deciding? && e.request.verdict.Approve? && !e.user.role.Employee?
    requires c.steps[2].approver == Some(e.user.id)
    requires e.request.approverCode == e.user.code && e.request.expectedVersion == c.version
    ensures Handle(1, c, e) == Failure(Undecided(InvalidTransition(PendingApproval, Verified)))
  {
    WhatMayPrecede(PendingApproval, Verified);
    DecisionIsRefusedExactly(c, e.user, e.request, Undecided(InvalidTransition(PendingApproval, Verified)));
  }

  /**
   * The claim of somebody who reports to nobody is submitted and accepted, and then the one approval
   * it waits for is refused for the transition it would need.
   */
  lemma LoneFinanceApprovalIsRefused()
    ensures Accepted(1, [AloneSubmits()], 0)
    ensures Handle(1, Run(1, [AloneSubmits()]), FinanceApproves())
         == Failure(Undecided(InvalidTransition(PendingApproval, Verified)))
  {
    AloneIsSubmitted();
    FinanceAloneCannotApprove(Run(1, [AloneSubmits()]));
  }

  // The claimant is the Finance person

  /** A reporting manager, and a claimant who reports to them and has the least Finance code. */
  function Manager(): EmployeeRef {
    EmployeeRef("M1", ReportingManager, None)
  }

  function FinanceClaimant(): EmployeeRef {
    EmployeeRef("F1", Finance, Some("M1"))
  }

  function FinanceDirectory(): Directory {
    map["F1" := FinanceClaimant(), "M1" := Manager()]
  }

  function FinanceDossier(): Dossier {
    DossierOf(FinanceClaimant(), FinanceDirectory(), map["F1" := 1, "M1" := 2])
  }

  function Claimant(): User {
    User(1, "F1", Finance)
  }

  function ManagerUser(): User {
    User(2, "M1", ReportingManager)
  }

  function Submitted(): Event {
    Submission(Claimant(), FinanceDossier())
  }

  /** The round with the manager's decision on its first step and the claimant's on its last. */
  function RoundWith(first: ApprovalDecision, last: ApprovalDecision): seq<Step> {
    [Step(1, 1, ReportingManager, Some(2), first, false),
     Step(1, 2, HeadOfDepartment, None, ApprovalDecision.Approved, false),
     Step(1, 3, Finance, Some(1), last, false)]
  }

  lemma FinanceDirectoryResolves()
    ensures AncestorsOf(FinanceClaimant(), FinanceDirectory(), 12) == Success([Manager()])
    ensures FirstFinance(FinanceDirectory()) == Some(FinanceClaimant())
  {
    assert FinanceCodes(FinanceDirectory()) == {"F1"};
    OneAbove(FinanceClaimant(), FinanceDirectory(), Manager());
    OnlyFinance(FinanceDirectory(), FinanceClaimant());
  }

  lemma ManagerHolds()
    ensures Holder([Manager()], ReportingManager) == Some(Manager()) && Holder([Manager()], HeadOfDepartment) == None
  {
    assert [Manager()][1..] == [];
  }

  lemma FinanceChain()
    ensures DraftOf(FinanceDossier()).Success? && DraftOf(FinanceDossier()).value.Submittable()
    ensures DraftOf(FinanceDossier()).value.chain == ThreeLevels(Some(Manager()), None, FinanceClaimant())
  {
    FinanceDirectoryResolves();
    TwoLinesDraftAndSubmit(FinanceClaimant(), FinanceDirectory(), map["F1" := 1, "M1" := 2], [Manager()],
                           FinanceClaimant());
    ManagerHolds();
  }

  lemma FinanceWritten()
    ensures WrittenChain(ThreeLevels(Some(Manager()), None, FinanceClaimant()), map["F1" := 1, "M1" := 2], 1)
         == RoundWith(Pending, Pending)
  {
    var staff := map["F1" := 1, "M1" := 2];
    ThreeWritten(ThreeLevels(Some(Manager()), None, FinanceClaimant()), staff);
    assert Assignee(ChainStep(1, ReportingManager, Some(Manager())), staff) == Some(2);
    assert Assignee(ChainStep(3, Finance, Some(FinanceClaimant())), staff) == Some(1);
  }

  lemma FinanceClaimIsSubmitted()
    ensures Accepted(1, [Submitted()], 0)
    ensures IsRound(Run(1, [Submitted()]), PendingApproval, 2, RoundWith(Pending, Pending))
  {
    FinanceChain();
    FirstSubmission(1, Submitted(), DraftOf(FinanceDossier()).value);
    FinanceWritten();
  }

  function ManagerSays(verdict: Verdict): Event {
    Deciding(ManagerUser(), DecisionRequest("M1", 2, verdict, None))
  }

  lemma BothWait()
    ensures LeastWaiting(RoundWith(Pending, Pending), 1, -1) == Some(0)
    ensures LeastWaiting(RoundWith(Pending, Pending), 1, 1) == Some(2)
  {
    LeastWaitingIs(RoundWith(Pending, Pending), 1, -1, 0);
    LeastWaitingIs(RoundWith(Pending, Pending), 1, 1, 2);
  }

  lemma LastWaits(first: ApprovalDecision)
    requires !first.Pending?
    ensures LeastWaiting(RoundWith(first, Pending), 1, -1) == Some(2)
    ensures LeastWaiting(RoundWith(first, Pending), 1, 3) == None
  {
    LeastWaitingIs(RoundWith(first, Pending), 1, -1, 2);
    NothingWaits(RoundWith(first, Pending), 1, 3);
  }

  lemma FirstIsMarked(decision: ApprovalDecision)
    ensures var steps := RoundWith(Pending, Pending);
      steps[0 := Marked(steps[0], decision, Some(2))] == RoundWith(decision, Pending)
  {
  }

  function AfterManager(verdict: Verdict): ClaimStatus {
    if verdict.Approve? then PendingFinance else ClaimStatus.Rejected
  }

  lemma ManagerDecides(c: Claim, verdict: Verdict)
    requires IsRound(c, PendingApproval, 2, RoundWith(Pending, Pending)) && !verdict.Return?
    ensures Handle(1, c, ManagerSays(verdict)).Success?
    ensures IsRound(Next(1, c, ManagerSays(verdict)), AfterManager(verdict), 3, RoundWith(DecisionOf(verdict), Pending))
  {
    BothWait();
    VerdictIs(c, ManagerSays(verdict), 0, AfterManager(verdict));
    FirstIsMarked(DecisionOf(verdict));
  }

  function ClaimantApproves(): Event {
    Deciding(Claimant(), DecisionRequest("F1", 3, Approve, None))
  }

  lemma ClaimantVerifies(c: Claim)
    requires IsRound(c, PendingFinance, 3, RoundWith(ApprovalDecision.Approved, Pending))
    ensures Handle(1, c, ClaimantApproves()).Success? && Next(1, c, ClaimantApproves()).status.Verified?
  {
    LastWaits(ApprovalDecision.Approved);
    VerdictIs(c, ClaimantApproves(), 2, Verified);
  }

  lemma FinanceRosterHolds()
    ensures RostersHold(1, [Submitted(), ManagerSays(Approve), ClaimantApproves()])
  {
  }

  /**
   * A run in which a claim is verified by its own claimant: the Finance step is theirs, their request
   * is accepted, and it is the one that verifies.
   */
  lemma OwnClaimIsVerified()
    ensures var events := [Submitted(), ManagerSays(Approve), ClaimantApproves()];
      && RostersHold(1, events)
      && events[2].user.id == 1 && Accepted(1, events, 2)
      && Run(1, events).status.Verified?
  {
    FinanceRosterHolds();
    FinanceClaimIsSubmitted();
    SecondRequest(1, Submitted(), ManagerSays(Approve));
    ManagerDecides(Run(1, [Submitted()]), Approve);
    ThirdRequest(1, Submitted(), ManagerSays(Approve), ClaimantApproves());
    ClaimantVerifies(Run(1, [Submitted(), ManagerSays(Approve)]));
  }

  // A decision that decides nothing

  lemma EmptyDecisionVerifiesRound(c: Claim)
    requires IsRound(c, PendingFinance, 3, RoundWith(ApprovalDecision.Approved, Pending))
    ensures var r := Decide(c, 3, Pending, Some(1));
      r.Success? && r.value.status.Verified? && |r.value.steps| == 3 && r.value.steps[2].decision.Pending?
  {
    LastWaits(ApprovalDecision.Approved);
  }

  /**
   * After the manager's approval, the service verifies the claim on a decision that decides nothing,
   * with the Finance step still waiting. No request can carry such a decision.
   */
  lemma EmptyDecisionVerifies()
    ensures var r := Decide(Run(1, [Submitted(), ManagerSays(Approve)]), 3, Pending, Some(1));
      r.Success? && r.value.status.Verified? && |r.value.steps| == 3 && r.value.steps[2].decision.Pending?
  {
    FinanceClaimIsSubmitted();
    SecondRequest(1, Submitted(), ManagerSays(Approve));
    ManagerDecides(Run(1, [Submitted()]), Approve);
    EmptyDecisionVerifiesRound(Run(1, [Submitted(), ManagerSays(Approve)]));
  }

  // A rejected claim

  lemma NextInLineStillWaits(c: Claim, user: User)
    requires IsRound(c, ClaimStatus.Rejected, 3, RoundWith(ApprovalDecision.Rejected, Pending)) && user.id == 1
    ensures MyPendingStep(c, user) == Some(2)
  {
    LastWaits(ApprovalDecision.Rejected);
    RoutesAgreeWithService(c);
  }

  /**
   * A run in which the manager rejects: the claim stays in the pending queue of whoever is next, and
   * every verdict they could give on it is refused.
   */
  lemma RejectedClaimIsStillQueued()
    ensures var events := [Submitted(), ManagerSays(Verdict.Reject)];
      && Accepted(1, events, 1) && Run(1, events).status.Rejected?
      && MyPendingStep(Run(1, events), Claimant()).Some?
      && forall request :: Handle(1, Run(1, events), Deciding(Claimant(), request)).Failure?
  {
    FinanceClaimIsSubmitted();
    SecondRequest(1, Submitted(), ManagerSays(Verdict.Reject));
    ManagerDecides(Run(1, [Submitted()]), Verdict.Reject);
    var c := Run(1, [Submitted(), ManagerSays(Verdict.Reject)]);
    NextInLineStillWaits(c, Claimant());
    forall request
      ensures Handle(1, c, Deciding(Claimant(), request)).Failure?
    {
      RejectedClaimRefuses(c, Claimant(), request);
    }
  }
}
