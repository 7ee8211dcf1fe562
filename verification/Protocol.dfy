/** Whole runs of the protocol: any number of requests, by anyone, in any order, on one claim. */
module Protocol {
  import opened Domain
  import opened Routing
  import opened Pipeline
  import opened Claims
  import opened Rounds

  /** Everything a submission is computed from, as it is at that moment. */
  datatype Dossier = Dossier(
    request: Request,
    policy: PolicyVersion,
    directory: Directory,
    withdrawn: set<string>,
    staff: Staff)

  datatype Event =
    | Submission(user: User, dossier: Dossier)
    | Deciding(user: User, request: DecisionRequest)

  ghost function DraftOf(d: Dossier): Result<ClaimDraft, BuildError> {
    Drafted(d.request, d.policy, d.directory, d.withdrawn)
  }

  ghost function Handle(owner: nat, c: Claim, e: Event): Result<Claim, Refusal> {
    match e
    case Submission(user, d) => HandleSubmission(c, owner, user, DraftOf(d), d.staff)
    case Deciding(user, request) => HandleDecision(c, user, request)
  }

  /** A refused request leaves the claim as it was. */
  ghost function Next(owner: nat, c: Claim, e: Event): Claim {
    var r := Handle(owner, c, e);
    if r.Success? then r.value else c
  }

  ghost function Run(owner: nat, events: seq<Event>): Claim {
    if events == [] then FreshClaim()
    else Next(owner, Run(owner, events[..|events| - 1]), events[|events| - 1])
  }

  ghost predicate Accepted(owner: nat, events: seq<Event>, k: nat)
    requires k < |events|
  {
    Handle(owner, Run(owner, events[..k]), events[k]).Success?
  }

  lemma RunStep(owner: nat, events: seq<Event>, k: nat)
    requires k < |events|
    ensures Run(owner, events[..k + 1]) == Next(owner, Run(owner, events[..k]), events[k])
  {
    assert events[..k + 1][..k] == events[..k];
  }

  // What one accepted request does

  lemma AcceptedSubmission(owner: nat, c: Claim, user: User, d: Dossier)
    requires Handle(owner, c, Submission(user, d)).Success?
    ensures user.id == owner && c.status.Draft? && DraftOf(d).Success? && DraftOf(d).value.Submittable()
    ensures Handle(owner, c, Submission(user, d)).value == AfterSubmit(c, DraftOf(d).value, d.staff)
    ensures Submit(c, DraftOf(d).value, d.staff) == Success(AfterSubmit(c, DraftOf(d).value, d.staff))
  {
  }

  lemma AcceptedDecision(owner: nat, c: Claim, user: User, request: DecisionRequest)
    requires Handle(owner, c, Deciding(user, request)).Success?
    ensures CurrentStep(c).Some? && c.steps[CurrentStep(c).value].approver == Some(user.id)
    ensures !user.role.Employee? && request.expectedVersion == c.version
    ensures Handle(owner, c, Deciding(user, request)).value
         == AfterDecision(c, CurrentStep(c).value, DecisionOf(request.verdict), Some(user.id))
    ensures Decide(c, c.version, DecisionOf(request.verdict), Some(user.id))
         == Success(Handle(owner, c, Deciding(user, request)).value)
  {
    DecisionIsAcceptedExactly(c, user, request);
    AcceptedIsDecided(c, user, request);
  }

  lemma DraftsAreNumbered(d: Dossier)
    requires DraftOf(d).Success?
    ensures Numbered(DraftOf(d).value.chain)
  {
    ChainIsWellFormed(DraftOf(d).value.summary.netReimbursable, d.request.claimant, d.directory, d.policy.routing,
                      false);
  }

  // Every reachable claim is consistent

  lemma SubmissionIsConsistent(owner: nat, c: Claim, user: User, d: Dossier)
    requires Consistent(c) && Handle(owner, c, Submission(user, d)).Success?
    ensures Consistent(Handle(owner, c, Submission(user, d)).value)
  {
    AcceptedSubmission(owner, c, user, d);
    DraftsAreNumbered(d);
    SubmissionKeepsConsistent(c, DraftOf(d).value, d.staff);
  }

  lemma DecidingIsConsistent(owner: nat, c: Claim, user: User, request: DecisionRequest)
    requires Consistent(c) && Handle(owner, c, Deciding(user, request)).Success?
    ensures Consistent(Handle(owner, c, Deciding(user, request)).value)
  {
    AcceptedDecision(owner, c, user, request);
    DecisionKeepsConsistent(c, c.version, DecisionOf(request.verdict), Some(user.id));
  }

  lemma NextIsConsistent(owner: nat, c: Claim, e: Event)
    requires Consistent(c)
    ensures Consistent(Next(owner, c, e))
  {
    if Handle(owner, c, e).Success? {
      match e
      case Submission(user, d) => SubmissionIsConsistent(owner, c, user, d);
      case Deciding(user, request) => DecidingIsConsistent(owner, c, user, request);
    }
  }

  /** Whatever has been requested, the claim is where some round's cursor says, or between rounds. */
  lemma {:induction false} ReachableIsConsistent(owner: nat, events: seq<Event>)
    ensures Consistent(Run(owner, events))
  {
    if events == [] {
      FreshIsConsistent();
    } else {
      var n := |events| - 1;
      ReachableIsConsistent(owner, events[..n]);
      NextIsConsistent(owner, Run(owner, events[..n]), events[n]);
    }
  }

  /**
   * Rounds and sequences stay unique; a step is superseded exactly when its round was returned; no
   * step is live in a draft; and no run reaches a payment status.
   */
  lemma RoundsHoldInEveryRun(owner: nat, events: seq<Event>)
    ensures var c := Run(owner, events);
      && (forall i, j :: 0 <= i < |c.steps| && 0 <= j < |c.steps| && i != j ==>
            c.steps[i].round != c.steps[j].round || c.steps[i].sequence != c.steps[j].sequence)
      && (forall i :: 0 <= i < |c.steps| ==> (c.steps[i].superseded <==> c.steps[i].round <= c.returnCount))
      && (c.status.Draft? ==> forall i :: 0 <= i < |c.steps| ==> c.steps[i].superseded)
      && !c.status.ScheduledForPayment? && !c.status.Paid?
  {
    ReachableIsConsistent(owner, events);
    ConsistentRounds(Run(owner, events));
  }

  lemma ConsistentRounds(c: Claim)
    requires Consistent(c)
    ensures RoundsHold(c)
    ensures forall i, j :: 0 <= i < |c.steps| && 0 <= j < |c.steps| && i != j ==>
              c.steps[i].round != c.steps[j].round || c.steps[i].sequence != c.steps[j].sequence
  {
    forall i, j | 0 <= i < |c.steps| && 0 <= j < |c.steps| && i != j
      ensures c.steps[i].round != c.steps[j].round || c.steps[i].sequence != c.steps[j].sequence
    {
      assert if i < j then ComesBefore(c.steps[i], c.steps[j]) else ComesBefore(c.steps[j], c.steps[i]);
    }
  }

  // The optimistic lock

  lemma NextVersion(owner: nat, c: Claim, e: Event)
    ensures Handle(owner, c, e).Success? ==> Next(owner, c, e).version == c.version + 1
    ensures Handle(owner, c, e).Failure? ==> Next(owner, c, e) == c
  {
    if Handle(owner, c, e).Success? {
      match e
      case Submission(user, d) => AcceptedSubmission(owner, c, user, d);
      case Deciding(user, request) => AcceptedDecision(owner, c, user, request);
    }
  }

  lemma RunVersion(owner: nat, events: seq<Event>, k: nat)
    requires k < |events|
    ensures Run(owner, events[..k]).version <= Run(owner, events[..k + 1]).version
    ensures Run(owner, events[..k]).version == Run(owner, events[..k + 1]).version ==>
              Run(owner, events[..k]) == Run(owner, events[..k + 1])
    ensures Accepted(owner, events, k) ==> Run(owner, events[..k + 1]).version == Run(owner, events[..k]).version + 1
  {
    RunStep(owner, events, k);
    NextVersion(owner, Run(owner, events[..k]), events[k]);
  }

  lemma {:induction false} VersionsGrow(owner: nat, events: seq<Event>, i: nat, j: nat)
    requires i <= j <= |events|
    ensures Run(owner, events[..i]).version <= Run(owner, events[..j]).version
    ensures Run(owner, events[..i]).version == Run(owner, events[..j]).version ==>
              Run(owner, events[..i]) == Run(owner, events[..j])
    decreases j
  {
    if i < j {
      VersionsGrow(owner, events, i, j - 1);
      RunVersion(owner, events, j - 1);
    }
  }

  /** At any two moments of a run, the same version means the same claim, to the last field. */
  lemma SameVersionSameClaim(owner: nat, events: seq<Event>, i: nat, j: nat)
    requires i <= |events| && j <= |events|
    requires Run(owner, events[..i]).version == Run(owner, events[..j]).version
    ensures Run(owner, events[..i]) == Run(owner, events[..j])
  {
    VersionsGrow(owner, events, if i <= j then i else j, if i <= j then j else i);
  }

  /**
   * However many requests came between, a decision is accepted only on exactly the claim its
   * approver read: reading at moment `i` and deciding at moment `j`.
   */
  lemma DecisionActsOnWhatWasRead(owner: nat, events: seq<Event>, i: nat, j: nat)
    requires i <= j < |events| && events[j].Deciding? && Accepted(owner, events, j)
    requires events[j].request.expectedVersion == Run(owner, events[..i]).version
    ensures Run(owner, events[..j]) == Run(owner, events[..i])
  {
    AcceptedDecision(owner, Run(owner, events[..j]), events[j].user, events[j].request);
    SameVersionSameClaim(owner, events, i, j);
  }

  /** Of any number of decisions sent against one version, at most one is accepted. */
  lemma OneDecisionPerVersion(owner: nat, events: seq<Event>, j: nat, k: nat)
    requires j < k < |events| && events[j].Deciding? && events[k].Deciding?
    requires Accepted(owner, events, j) && Accepted(owner, events, k)
    ensures events[j].request.expectedVersion < events[k].request.expectedVersion
  {
    AcceptedDecision(owner, Run(owner, events[..j]), events[j].user, events[j].request);
    AcceptedDecision(owner, Run(owner, events[..k]), events[k].user, events[k].request);
    RunVersion(owner, events, j);
    VersionsGrow(owner, events, j + 1, k);
  }

  // Settled claims

  /** A settled claim stays as it is: no run continues it. */
  lemma {:induction false} SettledIsForever(owner: nat, events: seq<Event>, more: seq<Event>)
    requires Run(owner, events).status.Verified? || Run(owner, events).status.Rejected?
    ensures Run(owner, events + more) == Run(owner, events)
    decreases |more|
  {
    if more == [] {
      assert events + more == events;
    } else {
      var n := |more| - 1;
      SettledIsForever(owner, events, more[..n]);
      var all := events + more;
      assert all[..|all| - 1] == events + more[..n] && all[|all| - 1] == more[n];
      ReachableIsConsistent(owner, events);
      SettledRefuses(owner, Run(owner, events), more[n]);
    }
  }

  lemma SettledRefuses(owner: nat, c: Claim, e: Event)
    requires Consistent(c) && (c.status.Verified? || c.status.Rejected?)
    ensures Next(owner, c, e) == c
  {
    if Handle(owner, c, e).Success? {
      match e
      case Submission(user, d) =>
        AcceptedSubmission(owner, c, user, d);
      case Deciding(user, request) =>
        AcceptedDecision(owner, c, user, request);
        SettledClaimsRefuse(c, c.version, DecisionOf(request.verdict), Some(user.id));
    }
  }

  // History

  /** Who was asked what and in which role stays; a decision, once taken, stays; so does superseding. */
  predicate Keeps(a: Step, b: Step) {
    && b.round == a.round && b.sequence == a.sequence && b.role == a.role && b.approver == a.approver
    && (a.decision.Pending? || b.decision == a.decision)
    && (a.superseded ==> b.superseded)
  }

  ghost predicate Extends(c: Claim, c': Claim) {
    |c.steps| <= |c'.steps| && forall i :: 0 <= i < |c.steps| ==> Keeps(c.steps[i], c'.steps[i])
  }

  lemma DecisionExtends(c: Claim, at: nat, decision: ApprovalDecision, id: nat)
    requires at < |c.steps| && c.steps[at].decision.Pending? && c.steps[at].approver == Some(id)
    ensures Extends(c, AfterDecision(c, at, decision, Some(id)))
    ensures forall i :: 0 <= i < |c.steps| && i != at ==>
              AfterDecision(c, at, decision, Some(id)).steps[i].decision == c.steps[i].decision
    ensures |AfterDecision(c, at, decision, Some(id)).steps| == |c.steps|
    ensures AfterDecision(c, at, decision, Some(id)).steps[at].decision == decision
  {
  }

  lemma WaitingIsPending(c: Claim)
    requires CurrentStep(c).Some?
    ensures c.steps[CurrentStep(c).value].decision.Pending?
  {
    LeastWaitingIsLeast(c.steps, c.Round(), -1);
  }

  lemma NextExtends(owner: nat, c: Claim, e: Event)
    ensures Extends(c, Next(owner, c, e))
  {
    if Handle(owner, c, e).Success? {
      match e
      case Submission(user, d) =>
        AcceptedSubmission(owner, c, user, d);
      case Deciding(user, request) =>
        AcceptedDecision(owner, c, user, request);
        WaitingIsPending(c);
        DecisionExtends(c, CurrentStep(c).value, DecisionOf(request.verdict), user.id);
    }
  }

  lemma ExtendsIsTransitive(a: Claim, b: Claim, c: Claim)
    requires Extends(a, b) && Extends(b, c)
    ensures Extends(a, c)
  {
    forall i | 0 <= i < |a.steps|
      ensures Keeps(a.steps[i], c.steps[i])
    {
      assert Keeps(a.steps[i], b.steps[i]) && Keeps(b.steps[i], c.steps[i]);
    }
  }

  /** Nothing that happened is rewritten: from any moment to any later one, steps are only added. */
  lemma {:induction false} HistoryIsAppendOnly(owner: nat, events: seq<Event>, i: nat, j: nat)
    requires i <= j <= |events|
    ensures Extends(Run(owner, events[..i]), Run(owner, events[..j]))
    decreases j
  {
    if i < j {
      HistoryIsAppendOnly(owner, events, i, j - 1);
      RunStep(owner, events, j - 1);
      NextExtends(owner, Run(owner, events[..j - 1]), events[j - 1]);
      ExtendsIsTransitive(Run(owner, events[..i]), Run(owner, events[..j - 1]), Run(owner, events[..j]));
    }
  }

  /** Request `j` of the run is the accepted decision of step `i`, by the person it was addressed to. */
  ghost predicate DecidesStep(owner: nat, events: seq<Event>, j: nat, i: nat, decision: ApprovalDecision) {
    && j < |events| && events[j].Deciding? && Accepted(owner, events, j)
    && CurrentStep(Run(owner, events[..j])) == Some(i)
    && i < |Run(owner, events[..j]).steps|
    && Run(owner, events[..j]).steps[i].approver == Some(events[j].user.id)
    && DecisionOf(events[j].request.verdict) == decision
  }

  /** A step that changes from waiting to decided changes by the last request. */
  lemma LastRequestDecides(owner: nat, c: Claim, e: Event, i: nat)
    requires i < |Next(owner, c, e).steps| && Next(owner, c, e).steps[i].approver.Some?
    requires !Next(owner, c, e).steps[i].decision.Pending?
    requires i < |c.steps| ==> c.steps[i].decision.Pending?
    ensures e.Deciding? && Handle(owner, c, e).Success? && CurrentStep(c) == Some(i) && i < |c.steps|
    ensures c.steps[i].approver == Some(e.user.id)
    ensures Next(owner, c, e).steps[i].decision == DecisionOf(e.request.verdict)
  {
    if Handle(owner, c, e).Success? {
      match e
      case Submission(user, d) =>
        AcceptedSubmission(owner, c, user, d);
      case Deciding(user, request) =>
        AcceptedDecision(owner, c, user, request);
        WaitingIsPending(c);
        DecisionExtends(c, CurrentStep(c).value, DecisionOf(request.verdict), user.id);
    }
  }

  lemma DecidesStepLater(owner: nat, events: seq<Event>, n: nat, j: nat, i: nat, decision: ApprovalDecision)
    requires n <= |events| && DecidesStep(owner, events[..n], j, i, decision)
    ensures DecidesStep(owner, events, j, i, decision)
  {
    assert events[..n][..j] == events[..j];
  }

  lemma LastDecides(owner: nat, events: seq<Event>, n: nat, i: nat)
    requires n + 1 == |events|
    requires i < |Run(owner, events).steps| && Run(owner, events).steps[i].approver.Some?
    requires !Run(owner, events).steps[i].decision.Pending?
    requires i < |Run(owner, events[..n]).steps| ==> Run(owner, events[..n]).steps[i].decision.Pending?
    ensures DecidesStep(owner, events, n, i, Run(owner, events).steps[i].decision)
  {
    LastRequestDecides(owner, Run(owner, events[..n]), events[n], i);
  }

  /**
   * No approval is forged: every decided step that is addressed to somebody was decided in the run,
   * by an accepted request of that person, while the claim was waiting on that very step.
   */
  lemma {:induction false} EveryDecisionWasTaken(owner: nat, events: seq<Event>, i: nat) returns (j: nat)
    requires i < |Run(owner, events).steps| && Run(owner, events).steps[i].approver.Some?
    requires !Run(owner, events).steps[i].decision.Pending?
    ensures DecidesStep(owner, events, j, i, Run(owner, events).steps[i].decision)
  {
    var n := |events| - 1;
    var c := Run(owner, events[..n]);
    NextExtends(owner, c, events[n]);
    if i < |c.steps| && !c.steps[i].decision.Pending? {
      assert Keeps(c.steps[i], Run(owner, events).steps[i]);
      j := EveryDecisionWasTaken(owner, events[..n], i);
      DecidesStepLater(owner, events, n, j, i, c.steps[i].decision);
    } else {
      LastDecides(owner, events, n, i);
      j := n;
    }
  }

  // The claimant

  /** The employee table gives the claimant, and nobody else, the owner's id. */
  ghost predicate IsRoster(owner: nat, d: Dossier) {
    forall code :: code in d.staff ==> (d.staff[code] == owner <==> code == d.request.claimant.code)
  }

  ghost predicate RostersHold(owner: nat, events: seq<Event>) {
    forall k :: 0 <= k < |events| && events[k].Submission? ==> IsRoster(owner, events[k].dossier)
  }

  ghost predicate OwnerIsAskedOnlyAsFinance(owner: nat, c: Claim) {
    forall i :: 0 <= i < |c.steps| && c.steps[i].approver == Some(owner) ==> c.steps[i].role.Finance?
  }

  lemma ChainAsksOwnerOnlyAsFinance(owner: nat, d: Dossier, draft: ClaimDraft, k: nat)
    requires DraftOf(d) == Success(draft) && IsRoster(owner, d) && k < |draft.chain|
    requires Assignee(draft.chain[k], d.staff) == Some(owner)
    ensures draft.chain[k].role.Finance?
  {
    RoutedChainAsksOthers(draft.summary.netReimbursable, d.request.claimant, d.directory, d.policy.routing, k);
  }

  /** Whoever a resolved chain asks at a level other than Finance is somebody other than the claimant. */
  lemma RoutedChainAsksOthers(value: int, claimant: EmployeeRef, directory: Directory, params: RoutingParams, k: nat)
    requires ChainOf(value, claimant, directory, params).Success?
    requires k < |ChainOf(value, claimant, directory, params).value|
    ensures var step := ChainOf(value, claimant, directory, params).value[k];
      step.approver.Some? && step.approver.value.code == claimant.code ==> step.role.Finance?
  {
    ChainIsWellFormed(value, claimant, directory, params, false);
  }

  /** No business level is ever addressed to the claimant; only Finance verification can be. */
  lemma {:induction false} ClaimantIsAskedOnlyAsFinance(owner: nat, events: seq<Event>)
    requires RostersHold(owner, events)
    ensures OwnerIsAskedOnlyAsFinance(owner, Run(owner, events))
  {
    if events != [] {
      var n := |events| - 1;
      assert forall k :: 0 <= k < n ==> events[..n][k] == events[k];
      ClaimantIsAskedOnlyAsFinance(owner, events[..n]);
      NextAsksOwnerOnlyAsFinance(owner, Run(owner, events[..n]), events[n]);
    }
  }

  lemma NextAsksOwnerOnlyAsFinance(owner: nat, c: Claim, e: Event)
    requires OwnerIsAskedOnlyAsFinance(owner, c) && (e.Submission? ==> IsRoster(owner, e.dossier))
    ensures OwnerIsAskedOnlyAsFinance(owner, Next(owner, c, e))
  {
    forall i | 0 <= i < |Next(owner, c, e).steps| && Next(owner, c, e).steps[i].approver == Some(owner)
      ensures Next(owner, c, e).steps[i].role.Finance?
    {
      if i < |c.steps| {
        OldStepIsKept(owner, c, e, i);
      } else {
        NewStepAsksOwnerOnlyAsFinance(owner, c, e, i);
      }
    }
  }

  /** Only an accepted submission adds steps, and they are its chain. */
  lemma NewStepAsksOwnerOnlyAsFinance(owner: nat, c: Claim, e: Event, i: nat)
    requires |c.steps| <= i < |Next(owner, c, e).steps| && (e.Submission? ==> IsRoster(owner, e.dossier))
    requires Next(owner, c, e).steps[i].approver == Some(owner)
    ensures Next(owner, c, e).steps[i].role.Finance?
  {
    match e
    case Submission(user, d) =>
      RefusedAddsNoSteps(owner, c, e);
      SubmittedStepAsksOwnerOnlyAsFinance(owner, c, Next(owner, c, e), user, d, i);
    case Deciding(user, request) =>
      DecisionsAddNoSteps(owner, c, user, request);
  }

  lemma SubmittedStepAsksOwnerOnlyAsFinance(owner: nat, c: Claim, c': Claim, user: User, d: Dossier, i: nat)
    requires Handle(owner, c, Submission(user, d)) == Success(c') && IsRoster(owner, d)
    requires |c.steps| <= i < |c'.steps| && c'.steps[i].approver == Some(owner)
    ensures c'.steps[i].role.Finance?
  {
    var draft := SubmittedStepIsWritten(owner, c, c', user, d, i);
    WrittenStepAsksOwnerOnlyAsFinance(owner, d, draft, i - |c.steps|, c'.steps[i], c.Round());
  }

  lemma WrittenStepAsksOwnerOnlyAsFinance(owner: nat, d: Dossier, draft: ClaimDraft, k: nat, step: Step, round: nat)
    requires DraftOf(d) == Success(draft) && IsRoster(owner, d) && k < |draft.chain|
    requires step == WrittenStep(draft.chain[k], d.staff, round) && step.approver == Some(owner)
    ensures step.role.Finance?
  {
    ChainAsksOwnerOnlyAsFinance(owner, d, draft, k);
  }

  lemma OldStepIsKept(owner: nat, c: Claim, e: Event, i: nat)
    requires i < |c.steps|
    ensures i < |Next(owner, c, e).steps| && Keeps(c.steps[i], Next(owner, c, e).steps[i])
  {
    NextExtends(owner, c, e);
  }

  lemma AddedStep(c: Claim, draft: ClaimDraft, staff: Staff, i: nat)
    requires |c.steps| <= i < |AfterSubmit(c, draft, staff).steps|
    ensures i - |c.steps| < |draft.chain|
    ensures AfterSubmit(c, draft, staff).steps[i] == WrittenStep(draft.chain[i - |c.steps|], staff, c.Round())
  {
  }

  lemma RefusedAddsNoSteps(owner: nat, c: Claim, e: Event)
    ensures Handle(owner, c, e).Failure? ==> |Next(owner, c, e).steps| == |c.steps|
    ensures Handle(owner, c, e).Success? ==> Next(owner, c, e) == Handle(owner, c, e).value
  {
  }

  lemma SubmittedStepIsWritten(owner: nat, c: Claim, c': Claim, user: User, d: Dossier, i: nat)
    returns (draft: ClaimDraft)
    requires Handle(owner, c, Submission(user, d)) == Success(c') && |c.steps| <= i < |c'.steps|
    ensures DraftOf(d) == Success(draft) && i - |c.steps| < |draft.chain|
    ensures c'.steps[i] == WrittenStep(draft.chain[i - |c.steps|], d.staff, c.Round())
  {
    AcceptedSubmission(owner, c, user, d);
    draft := DraftOf(d).value;
    StepOfSubmission(c, c', draft, d.staff, i);
  }

  lemma StepOfSubmission(c: Claim, c': Claim, draft: ClaimDraft, staff: Staff, i: nat)
    requires c' == AfterSubmit(c, draft, staff) && |c.steps| <= i < |c'.steps|
    ensures i - |c.steps| < |draft.chain|
    ensures c'.steps[i] == WrittenStep(draft.chain[i - |c.steps|], staff, c.Round())
  {
    AddedStep(c, draft, staff, i);
  }

  lemma DecisionsAddNoSteps(owner: nat, c: Claim, user: User, request: DecisionRequest)
    ensures |Next(owner, c, Deciding(user, request)).steps| == |c.steps|
  {
    if Handle(owner, c, Deciding(user, request)).Success? {
      AcceptedDecision(owner, c, user, request);
    }
  }

  /** Whenever the claimant's own decision is accepted, it is Finance verification they decide. */
  lemma ClaimantDecidesOnlyFinance(owner: nat, events: seq<Event>, j: nat)
    requires RostersHold(owner, events)
    requires j < |events| && events[j].Deciding? && Accepted(owner, events, j) && events[j].user.id == owner
    ensures CurrentStep(Run(owner, events[..j])).Some?
    ensures Run(owner, events[..j]).steps[CurrentStep(Run(owner, events[..j])).value].role.Finance?
  {
    assert forall k :: 0 <= k < j ==> events[..j][k] == events[k];
    ClaimantIsAskedOnlyAsFinance(owner, events[..j]);
    AcceptedDecision(owner, Run(owner, events[..j]), events[j].user, events[j].request);
  }
}
