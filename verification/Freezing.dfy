/** What a submission froze, and what later requests leave of it. */
module Freezing {
  import opened Domain
  import opened Sums
  import opened Summary
  import opened Routing
  import opened Pipeline
  import opened Claims
  import opened Rounds
  import opened Protocol

  /** The dossier of the last submission that was accepted, if any was. */
  ghost function LastSubmission(owner: nat, events: seq<Event>): Option<Dossier> {
    if events == [] then None
    else
      var n := |events| - 1;
      if events[n].Submission? && Accepted(owner, events, n) then Some(events[n].dossier)
      else LastSubmission(owner, events[..n])
  }

  lemma {:induction false} LastSubmissionWasMade(owner: nat, events: seq<Event>) returns (k: nat)
    requires LastSubmission(owner, events).Some?
    ensures k < |events| && events[k].Submission? && LastSubmission(owner, events) == Some(events[k].dossier)
  {
    var n := |events| - 1;
    if events[n].Submission? && Accepted(owner, events, n) {
      k := n;
    } else {
      k := LastSubmissionWasMade(owner, events[..n]);
    }
  }

  /**
   * The claim's lines and summary are those of the dossier's draft, and the stored net still resolves
   * to the draft's chain with the dossier's directory and matrix.
   */
  ghost predicate FrozenAs(c: Claim, d: Dossier) {
    && DraftOf(d).Success?
    && DraftOf(d).value.Submittable()
    && c.lines == FrozenLines(DraftOf(d).value.outcomes)
    && c.summary == DraftOf(d).value.summary
    && ChainOf(c.summary.netReimbursable, d.request.claimant, d.directory, d.policy.routing)
       == Success(DraftOf(d).value.chain)
  }

  predicate PlacedAs(a: Step, b: Step) {
    a.round == b.round && a.sequence == b.sequence && a.role == b.role && a.approver == b.approver
  }

  /** The claim's last steps are a chain's, as written for the round in progress, decided or not. */
  ghost predicate RoutedAs(c: Claim, chain: seq<ChainStep>, staff: Staff) {
    && |chain| <= |c.steps|
    && (forall i :: 0 <= i < |c.steps| - |chain| ==> c.steps[i].round < c.Round())
    && (forall k :: 0 <= k < |chain| ==>
          PlacedAs(c.steps[|c.steps| - |chain| + k], WrittenStep(chain[k], staff, c.Round())))
  }

  ghost predicate Freezes(c: Claim, d: Dossier) {
    FrozenAs(c, d) && (!c.status.Draft? ==> RoutedAs(c, DraftOf(d).value.chain, d.staff))
  }

  lemma SubmissionFreezes(owner: nat, c: Claim, user: User, d: Dossier)
    requires Consistent(c) && Handle(owner, c, Submission(user, d)).Success?
    ensures Freezes(Next(owner, c, Submission(user, d)), d)
  {
    AcceptedSubmission(owner, c, user, d);
    SubmissionRoutes(c, DraftOf(d).value, d.staff);
  }

  lemma SubmissionRoutes(c: Claim, draft: ClaimDraft, staff: Staff)
    requires BetweenRounds(c)
    ensures RoutedAs(AfterSubmit(c, draft, staff), draft.chain, staff)
  {
  }

  lemma DecisionKeepsTheFreeze(owner: nat, c: Claim, user: User, request: DecisionRequest, d: Dossier)
    requires Handle(owner, c, Deciding(user, request)).Success? && Freezes(c, d) && !c.status.Draft?
    ensures Freezes(Next(owner, c, Deciding(user, request)), d)
  {
    AcceptedDecision(owner, c, user, request);
    WaitingIsPending(c);
    DecisionKeepsRouting(c, CurrentStep(c).value, DecisionOf(request.verdict), user.id, DraftOf(d).value.chain,
                         d.staff);
  }

  lemma DecisionKeepsRouting(c: Claim, at: nat, decision: ApprovalDecision, id: nat, chain: seq<ChainStep>,
                             staff: Staff)
    requires at < |c.steps| && c.steps[at].approver == Some(id) && RoutedAs(c, chain, staff)
    ensures !decision.Returned? ==> RoutedAs(AfterDecision(c, at, decision, Some(id)), chain, staff)
    ensures decision.Returned? ==> AfterDecision(c, at, decision, Some(id)).status.Draft?
  {
  }

  lemma DraftsAreNotDecided(owner: nat, c: Claim, user: User, request: DecisionRequest)
    requires Consistent(c) && c.status.Draft?
    ensures Handle(owner, c, Deciding(user, request)).Failure?
  {
    if Handle(owner, c, Deciding(user, request)).Success? {
      AcceptedDecision(owner, c, user, request);
      SettledClaimsRefuse(c, c.version, DecisionOf(request.verdict), Some(user.id));
    }
  }

  ghost predicate Holds(c: Claim, last: Option<Dossier>) {
    match last
    case None => c == FreshClaim()
    case Some(d) => Freezes(c, d)
  }

  lemma NextHolds(owner: nat, c: Claim, e: Event, last: Option<Dossier>)
    requires Consistent(c) && Holds(c, last)
    ensures Holds(Next(owner, c, e),
                  if e.Submission? && Handle(owner, c, e).Success? then Some(e.dossier) else last)
  {
    if Handle(owner, c, e).Success? {
      match e
      case Submission(user, d) =>
        SubmissionFreezes(owner, c, user, d);
      case Deciding(user, request) =>
        if c.status.Draft? {
          DraftsAreNotDecided(owner, c, user, request);
          assert false;
        }
        DecisionKeepsTheFreeze(owner, c, user, request, last.value);
    }
  }

  /**
   * What was submitted is what is decided: in every reachable claim the lines and summary are those
   * of the last accepted submission's draft, however the directory, the policy or the documents have
   * changed since; and until it is returned, its round is the chain that draft's net was routed to.
   */
  lemma {:induction false} ReachableHoldsItsSubmission(owner: nat, events: seq<Event>)
    ensures Holds(Run(owner, events), LastSubmission(owner, events))
  {
    if events != [] {
      var n := |events| - 1;
      ReachableHoldsItsSubmission(owner, events[..n]);
      ReachableIsConsistent(owner, events[..n]);
      NextHolds(owner, Run(owner, events[..n]), events[n], LastSubmission(owner, events[..n]));
    }
  }

  ghost predicate NoLiveSteps(c: Claim) {
    forall i :: 0 <= i < |c.steps| ==> c.steps[i].round < c.Round()
  }

  lemma RoutedStepsAreLive(c: Claim, chain: seq<ChainStep>, staff: Staff)
    requires RoutedAs(c, chain, staff)
    ensures NoLiveSteps(c) <==> chain == []
  {
    if chain != [] {
      assert PlacedAs(c.steps[|c.steps| - |chain| + 0], WrittenStep(chain[0], staff, c.Round()));
    }
  }

  ghost predicate RoutedToNobody(last: Option<Dossier>) {
    last.Some? && DraftOf(last.value).Success? && DraftOf(last.value).value.chain == []
  }

  /**
   * A claim is in draft exactly when its current round has no steps, unless what was submitted last
   * was routed to a chain of no levels at all.
   */
  lemma DraftExactlyWithoutSteps(owner: nat, events: seq<Event>)
    ensures NoLiveSteps(Run(owner, events))
       <==> Run(owner, events).status.Draft? || RoutedToNobody(LastSubmission(owner, events))
  {
    ReachableIsConsistent(owner, events);
    ReachableHoldsItsSubmission(owner, events);
    HeldClaimHasLiveSteps(Run(owner, events), LastSubmission(owner, events));
  }

  lemma HeldClaimHasLiveSteps(c: Claim, last: Option<Dossier>)
    requires Consistent(c) && Holds(c, last)
    ensures NoLiveSteps(c) <==> c.status.Draft? || RoutedToNobody(last)
  {
    if !c.status.Draft? {
      RoutedStepsAreLive(c, DraftOf(last.value).value.chain, last.value.staff);
    }
  }

  // Stored money

  function StoredAllowed(): FrozenLine -> int {
    (l: FrozenLine) => l.allowed
  }

  /** The stored net is the sum of the stored lines' allowances, settled on one side only. */
  ghost predicate MoneyHolds(c: Claim) {
    && c.summary.netReimbursable == SumBy(StoredAllowed(), c.lines) >= 0
    && c.summary.payable - c.summary.recoverable == c.summary.netReimbursable - c.summary.advanceDrawn
    && (c.summary.payable == 0 || c.summary.recoverable == 0)
  }

  lemma FrozenMoneyHolds(c: Claim, d: Dossier)
    requires FrozenAs(c, d)
    ensures MoneyHolds(c)
  {
    DraftNetIsWhatIsAllowed(d.request, d.policy, d.directory, d.withdrawn);
    SumByCongruent(StoredAllowed(), c.lines, AllowedOf(), DraftOf(d).value.outcomes);
  }

  lemma StoredMoneyAddsUp(owner: nat, events: seq<Event>)
    ensures MoneyHolds(Run(owner, events))
  {
    ReachableHoldsItsSubmission(owner, events);
    var last := LastSubmission(owner, events);
    if last.Some? {
      FrozenMoneyHolds(Run(owner, events), last.value);
    }
  }

  // What a claim's verification rests on

  lemma {:induction false} PlacedRolesAreAsked(before: seq<Step>, steps: seq<Step>, chain: seq<ChainStep>, staff: Staff,
                                               round: nat)
    requires |steps| == |chain|
    requires forall i :: 0 <= i < |before| ==> before[i].round < round
    requires forall k :: 0 <= k < |chain| ==> PlacedAs(steps[k], WrittenStep(chain[k], staff, round))
    ensures RolesAt(before + steps, Filled(before + steps, round)) == AskedRoles(chain, staff)
  {
    if chain == [] {
      assert before + steps == before;
      NoneFilledYet(before, round);
    } else {
      var n := |chain| - 1;
      PlacedRolesAreAsked(before, steps[..n], chain[..n], staff, round);
      LastPlacedRole(before + steps[..n], steps[n], chain, staff, round);
      assert before + steps == before + steps[..n] + [steps[n]];
    }
  }

  lemma LastPlacedRole(front: seq<Step>, step: Step, chain: seq<ChainStep>, staff: Staff, round: nat)
    requires chain != [] && PlacedAs(step, WrittenStep(chain[|chain| - 1], staff, round))
    requires RolesAt(front, Filled(front, round)) == AskedRoles(chain[..|chain| - 1], staff)
    ensures RolesAt(front + [step], Filled(front + [step], round)) == AskedRoles(chain, staff)
  {
    OneMoreFilled(front, step, round);
  }

  lemma RoutedRolesAreAsked(c: Claim, chain: seq<ChainStep>, staff: Staff)
    requires RoutedAs(c, chain, staff)
    ensures RolesAsked(c) == AskedRoles(chain, staff)
  {
    var base := |c.steps| - |chain|;
    assert c.steps == c.steps[..base] + c.steps[base..];
    forall k | 0 <= k < |chain|
      ensures PlacedAs(c.steps[base..][k], WrittenStep(chain[k], staff, c.Round()))
    {
      assert c.steps[base..][k] == c.steps[base + k];
    }
    PlacedRolesAreAsked(c.steps[..base], c.steps[base..], chain, staff, c.Round());
    assert RolesAsked(c) == RolesAt(c.steps, FilledSteps(c));
  }

  /**
   * A claim is verified only on a completable chain: the one its last submission was routed to, with
   * every level of it approved, and each level that somebody fills approved by that person in a
   * request of the run.
   */
  lemma VerifiedRestsOnItsSubmission(owner: nat, events: seq<Event>)
    requires Run(owner, events).status.Verified?
    ensures var c, last := Run(owner, events), LastSubmission(owner, events);
      && last.Some? && Freezes(c, last.value)
      && Completable(AskedRoles(DraftOf(last.value).value.chain, last.value.staff))
      && forall i: nat :: IsCurrentRound(c, i) ==> c.steps[i].decision.Approved?
    ensures forall i: nat :: IsCurrentRound(Run(owner, events), i) && Run(owner, events).steps[i].approver.Some? ==>
              exists j :: DecidesStep(owner, events, j, i, ApprovalDecision.Approved)
  {
    var c, last := Run(owner, events), LastSubmission(owner, events);
    ReachableIsConsistent(owner, events);
    ReachableHoldsItsSubmission(owner, events);
    VerifiedMeansApproved(c);
    RoutedRolesAreAsked(c, DraftOf(last.value).value.chain, last.value.staff);
    forall i: nat | IsCurrentRound(c, i) && c.steps[i].approver.Some?
      ensures exists j :: DecidesStep(owner, events, j, i, ApprovalDecision.Approved)
    {
      var j := EveryDecisionWasTaken(owner, events, i);
    }
  }

  /** From an accepted submission, approvals verify the claim exactly when its chain completes. */
  lemma SubmissionVerifiesExactly(owner: nat, c: Claim, user: User, d: Dossier, n: nat)
    requires Consistent(c) && Handle(owner, c, Submission(user, d)).Success?
    ensures var c', roles := Next(owner, c, Submission(user, d)), AskedRoles(DraftOf(d).value.chain, d.staff);
      (Approving(c', n).Success? && Approving(c', n).value.status.Verified? <==> Completable(roles) && n == |roles|)
  {
    AcceptedSubmission(owner, c, user, d);
    DraftsAreNumbered(d);
    SubmissionOpens(c, DraftOf(d).value, d.staff);
    ApprovalsVerifyExactly(AfterSubmit(c, DraftOf(d).value, d.staff), n);
  }

  // Who can verify a claim

  /** The employee table at the time of deciding: a person's code and role are fixed by their id. */
  type People = map<nat, User>

  predicate CanDecide(people: People, id: nat) {
    id in people && people[id].id == id && !people[id].role.Employee?
  }

  /** The id of the `k`-th person a round asks. */
  function AskedId(c: Claim, k: nat): nat
    requires k < |FilledSteps(c)|
  {
    var approver := c.steps[FilledSteps(c)[k]].approver;
    if approver.Some? then approver.value else 0
  }

  /** Everybody the round asks from the `from`-th on is in the table, in a role the decision route admits. */
  predicate AllCanDecide(c: Claim, people: People, from: nat) {
    forall k :: from <= k < |FilledSteps(c)| ==> CanDecide(people, AskedId(c, k))
  }

  /** An approval requested by somebody who is in the table as they present themselves. */
  predicate IsApprovalBy(people: People, e: Event) {
    IsApproval(e) && e.user.id in people && people[e.user.id] == e.user
  }

  function ApprovalOf(c: Claim, user: User): Event {
    Deciding(user, DecisionRequest(user.code, c.version, Approve, None))
  }

  /** `c` is the round of `start` with `n` approvals given, and asks the same people. */
  ghost predicate Continues(start: Claim, c: Claim, n: nat) {
    Follows(start, c, n) && FilledSteps(c) == FilledSteps(start) && Extends(start, c)
  }

  lemma ContinuesWithTheSamePeople(start: Claim, c: Claim, n: nat, k: nat)
    requires Continues(start, c, n) && k < |FilledSteps(start)|
    ensures AskedId(c, k) == AskedId(start, k)
    ensures c.steps[FilledSteps(c)[k]].approver == Some(AskedId(start, k))
  {
    FilledIsAddressed(c, k);
    assert Keeps(start.steps[FilledSteps(start)[k]], c.steps[FilledSteps(start)[k]]);
  }

  predicate IsApproval(e: Event) {
    e.Deciding? && e.request.verdict.Approve?
  }

  /** An accepted approval is the current person's, and the machine allows it. */
  lemma AcceptedApprovalIsNext(owner: nat, c: Claim, n: nat, e: Event)
    requires AtStep(c, n) && IsApproval(e) && Handle(owner, c, e).Success?
    ensures n < |FilledSteps(c)| && MayApprove(RolesAsked(c), n)
    ensures c.steps[FilledSteps(c)[n]].approver == Some(e.user.id) && !e.user.role.Employee?
    ensures Next(owner, c, e) == AfterDecision(c, FilledSteps(c)[n], ApprovalDecision.Approved, Some(e.user.id))
  {
    AcceptedDecision(owner, c, e.user, e.request);
    AtStepDecides(c, n, Some(e.user.id));
  }

  lemma AtStepDecides(c: Claim, n: nat, approver: Option<nat>)
    requires AtStep(c, n) && Decide(c, c.version, ApprovalDecision.Approved, approver).Success?
    ensures n < |FilledSteps(c)| && MayApprove(RolesAsked(c), n) && CurrentStep(c) == Some(FilledSteps(c)[n])
  {
    CursorIsCurrent(c, n);
    TargetIsNext(c, n);
  }

  lemma AcceptedApprovalContinues(owner: nat, start: Claim, c: Claim, c': Claim, n: nat, m: nat, e: Event)
    requires Continues(start, c, n) && IsApproval(e) && Handle(owner, c, e).Success? && c' == Next(owner, c, e)
    requires m == n + 1
    ensures n < |FilledSteps(start)| && AskedId(start, n) == e.user.id && !e.user.role.Employee?
    ensures Continues(start, c', m)
  {
    AcceptedApprovalIsNext(owner, c, n, e);
    ContinuesWithTheSamePeople(start, c, n, n);
    NextExtends(owner, c, e);
    OneFurther(start, c, c', n, m, e.user.id);
  }

  lemma OneFurther(start: Claim, c: Claim, c': Claim, n: nat, m: nat, id: nat)
    requires Continues(start, c, n) && m == n + 1 && n < |FilledSteps(c)| && MayApprove(RolesAsked(c), n)
    requires c' == AfterDecision(c, FilledSteps(c)[n], ApprovalDecision.Approved, Some(id)) && Extends(c, c')
    ensures Continues(start, c', m)
  {
    ApprovalAdvances(c, n, Some(id));
    ExtendsIsTransitive(start, c, c');
  }

  lemma AskedApprovalIsAccepted(owner: nat, c: Claim, done: nat, user: User)
    requires AtStep(c, done) && done < |FilledSteps(c)| && MayApprove(RolesAsked(c), done)
    requires c.steps[FilledSteps(c)[done]].approver == Some(user.id) && !user.role.Employee?
    ensures Handle(owner, c, ApprovalOf(c, user)).Success?
  {
    CursorIsCurrent(c, done);
    TargetIsNext(c, done);
    DecisionIsAcceptedExactly(c, user, ApprovalOf(c, user).request);
  }

  lemma RunPush(owner: nat, events: seq<Event>, more: seq<Event>, e: Event)
    ensures Run(owner, events + (more + [e])) == Next(owner, Run(owner, events + more), e)
  {
    var all := events + (more + [e]);
    assert all[..|all| - 1] == events + more && all[|all| - 1] == e;
  }

  lemma ContinuesItself(c: Claim, n: nat)
    requires AtStep(c, n)
    ensures Continues(c, c, n)
  {
  }

  /**
   * From wherever a round stands, as far as the machine allows, the people asked can give their
   * approvals, one request each, provided each is in the table in a role that may decide.
   */
  lemma {:induction false} ApprovalsCanBeGiven(owner: nat, events: seq<Event>, people: People, c: Claim,
                                               from: nat, n: nat) returns (more: seq<Event>)
    requires c == Run(owner, events) && AtStep(c, from)
    requires from <= n <= |FilledSteps(c)| && CanReach(RolesAsked(c), n)
    requires forall k :: from <= k < n ==> CanDecide(people, AskedId(c, k))
    ensures |more| == n - from && forall k :: 0 <= k < |more| ==> IsApprovalBy(people, more[k])
    ensures Continues(c, Run(owner, events + more), n)
    decreases n
  {
    if n == from {
      more := [];
      assert events + more == events;
      ContinuesItself(c, n);
    } else {
      ReachingIncludesLess(RolesAsked(c), n);
      more := ApprovalsCanBeGiven(owner, events, people, c, from, n - 1);
      more := OneMoreCanBeGiven(owner, events, more, people, c, Run(owner, events + more), n - 1, n);
    }
  }

  lemma OneMoreCanBeGiven(owner: nat, events: seq<Event>, given: seq<Event>, people: People, start: Claim, c: Claim,
                          m: nat, n: nat) returns (more: seq<Event>)
    requires c == Run(owner, events + given) && n == m + 1 && Continues(start, c, m)
    requires m < |FilledSteps(start)| && MayApprove(RolesAsked(start), m)
    requires CanDecide(people, AskedId(start, m))
    requires forall k :: 0 <= k < |given| ==> IsApprovalBy(people, given[k])
    ensures |more| == |given| + 1 && forall k :: 0 <= k < |more| ==> IsApprovalBy(people, more[k])
    ensures Continues(start, Run(owner, events + more), n)
  {
    var e := ApprovalOf(c, people[AskedId(start, m)]);
    ContinuesWithTheSamePeople(start, c, m, m);
    AskedApprovalIsAccepted(owner, c, m, people[AskedId(start, m)]);
    AcceptedApprovalContinues(owner, start, c, Next(owner, c, e), m, n, e);
    RunPush(owner, events, given, e);
    more := given + [e];
  }

  /**
   * How far approval requests by people in the table have taken a claim that had `from` approvals: no
   * further than those people may.
   */
  ghost predicate GotTo(start: Claim, c: Claim, people: People, from: nat, n: nat) {
    && from <= n <= |FilledSteps(start)| && Continues(start, c, n)
    && forall k :: from <= k < n ==> CanDecide(people, AskedId(start, k))
  }

  lemma GotOneFurther(start: Claim, c: Claim, people: People, from: nat, n: nat, m: nat)
    requires m == n + 1 && from <= n < |FilledSteps(start)| && Continues(start, c, m)
    requires forall k :: from <= k < n ==> CanDecide(people, AskedId(start, k))
    requires CanDecide(people, AskedId(start, n))
    ensures GotTo(start, c, people, from, m)
  {
  }

  /** One more request leaves the claim where it is, or moves it on by the next person's approval. */
  lemma ApprovalRequestMovesOn(owner: nat, start: Claim, c: Claim, c': Claim, people: People, from: nat, n: nat,
                               e: Event)
    returns (m: nat)
    requires GotTo(start, c, people, from, n) && IsApprovalBy(people, e) && c' == Next(owner, c, e)
    ensures GotTo(start, c', people, from, m)
  {
    if Handle(owner, c, e).Success? {
      m := n + 1;
      AcceptedApprovalContinues(owner, start, c, c', n, m, e);
      GotOneFurther(start, c', people, from, n, m);
    } else {
      m := n;
    }
  }

  lemma {:induction false} ApprovalRequestsMoveOn(owner: nat, events: seq<Event>, more: seq<Event>, people: People,
                                                  c: Claim, from: nat) returns (n: nat)
    requires c == Run(owner, events) && AtStep(c, from)
    requires forall k :: 0 <= k < |more| ==> IsApprovalBy(people, more[k])
    ensures GotTo(c, Run(owner, events + more), people, from, n)
    decreases |more|
  {
    if more == [] {
      n := from;
      assert events + more == events;
      ContinuesItself(c, n);
    } else {
      var front, e := more[..|more| - 1], more[|more| - 1];
      var m := ApprovalRequestsMoveOn(owner, events, front, people, c, from);
      assert more == front + [e];
      RunPush(owner, events, front, e);
      n := ApprovalRequestMovesOn(owner, c, Run(owner, events + front), Run(owner, events + more), people, from, m, e);
    }
  }

  ghost predicate Verifies(owner: nat, events: seq<Event>, more: seq<Event>, people: People) {
    (forall k :: 0 <= k < |more| ==> IsApprovalBy(people, more[k])) && Run(owner, events + more).status.Verified?
  }

  /** A completable round is verified by one request from each person left to ask, if they may decide. */
  lemma CompletableClaimCanBeVerified(owner: nat, events: seq<Event>, people: People, done: nat)
    returns (more: seq<Event>)
    requires AtStep(Run(owner, events), done) && Completable(RolesAsked(Run(owner, events)))
    requires AllCanDecide(Run(owner, events), people, done)
    ensures |more| == |RolesAsked(Run(owner, events))| - done && Verifies(owner, events, more, people)
  {
    var c := Run(owner, events);
    CompletableExactly(RolesAsked(c));
    more := ApprovalsCanBeGiven(owner, events, people, c, done, |FilledSteps(c)|);
  }

  /**
   * Wherever its round stands, a claim can be verified by approval requests of the people in the
   * table exactly when the round is completable and everybody it has still to ask is there in a role
   * that may decide.
   */
  lemma VerifiableExactly(owner: nat, events: seq<Event>, people: People, done: nat)
    requires AtStep(Run(owner, events), done)
    ensures (exists more :: Verifies(owner, events, more, people))
       <==> Completable(RolesAsked(Run(owner, events))) && AllCanDecide(Run(owner, events), people, done)
  {
    var c := Run(owner, events);
    forall more | Verifies(owner, events, more, people)
      ensures Completable(RolesAsked(c)) && AllCanDecide(c, people, done)
    {
      var n := ApprovalRequestsMoveOn(owner, events, more, people, c, done);
      VerifiedIsDone(Run(owner, events + more), n);
    }
    if Completable(RolesAsked(c)) && AllCanDecide(c, people, done) {
      var more := CompletableClaimCanBeVerified(owner, events, people, done);
    }
  }

  // Returned claims

  ghost predicate EndsInReturn(owner: nat, events: seq<Event>) {
    && events != []
    && events[|events| - 1].Deciding? && events[|events| - 1].request.verdict.Return?
    && Accepted(owner, events, |events| - 1)
  }

  /** A return gives the claim back to its owner, between two rounds. */
  lemma ReturnGivesItBack(owner: nat, events: seq<Event>)
    requires EndsInReturn(owner, events)
    ensures var before, c := Run(owner, events[..|events| - 1]), Run(owner, events);
      c.status.Draft? && c.returnCount == before.returnCount + 1 && BetweenRounds(c) && RoundsHold(c)
  {
    var n := |events| - 1;
    var before, e := Run(owner, events[..n]), events[n];
    AcceptedDecision(owner, before, e.user, e.request);
    DecisionChangesExactly(before, before.version, Returned, Some(e.user.id));
    ReachableIsConsistent(owner, events);
  }

  /** What the owner's submission of a complete draft makes of a claim between two rounds. */
  lemma ResubmissionOpens(owner: nat, c: Claim, user: User, d: Dossier, draft: ClaimDraft) returns (c': Claim)
    requires BetweenRounds(c) && c.status.Draft?
    requires user.id == owner && DraftOf(d) == Success(draft) && draft.Submittable()
    ensures Handle(owner, c, Submission(user, d)) == Success(c')
    ensures OpensRound(c, c', draft, d.staff) && AtStep(c', 0) && RolesAsked(c') == AskedRoles(draft.chain, d.staff)
    ensures forall i :: 0 <= i < |c.steps| ==> c'.steps[i].superseded
  {
    SubmissionIsAcceptedExactly(c, owner, user, DraftOf(d), d.staff);
    AcceptedSubmission(owner, c, user, d);
    DraftsAreNumbered(d);
    SubmissionOpens(c, draft, d.staff);
    c' := AfterSubmit(c, draft, d.staff);
  }

  lemma RunSubmits(owner: nat, events: seq<Event>, e: Event, c': Claim)
    requires Handle(owner, Run(owner, events), e) == Success(c')
    ensures Run(owner, events + [e]) == c' && Accepted(owner, events + [e], |events|)
  {
    assert (events + [e])[..|events|] == events;
  }

  /**
   * A returned claim is taken back: after any run that ends in an accepted return, the owner's next
   * submission is accepted when its draft is complete, and opens a round numbered one above the number
   * of returns, with every step of the rounds before it superseded.
   */
  lemma ReturnedClaimCanBeResubmitted(owner: nat, events: seq<Event>, user: User, d: Dossier, draft: ClaimDraft)
    requires EndsInReturn(owner, events)
    requires user.id == owner && DraftOf(d) == Success(draft) && draft.Submittable()
    ensures Accepted(owner, events + [Submission(user, d)], |events|)
    ensures var c, c' := Run(owner, events), Run(owner, events + [Submission(user, d)]);
      && c.returnCount == Run(owner, events[..|events| - 1]).returnCount + 1
      && OpensRound(c, c', draft, d.staff)
      && AtStep(c', 0) && RolesAsked(c') == AskedRoles(draft.chain, d.staff)
      && forall i :: 0 <= i < |c.steps| ==> c'.steps[i].superseded
  {
    ReturnGivesItBack(owner, events);
    var c' := ResubmissionOpens(owner, Run(owner, events), user, d, draft);
    RunSubmits(owner, events, Submission(user, d), c');
  }

  /** The people a chain is addressed to are all in the table, in roles that may decide. */
  predicate ChainCanDecide(people: People, chain: seq<ChainStep>, staff: Staff) {
    forall k :: 0 <= k < |chain| && Assignee(chain[k], staff).Some? ==>
      CanDecide(people, Assignee(chain[k], staff).value)
  }

  lemma OpenedRoundAsksItsChain(c: Claim, c': Claim, draft: ClaimDraft, staff: Staff, people: People)
    requires BetweenRounds(c) && OpensRound(c, c', draft, staff) && ChainCanDecide(people, draft.chain, staff)
    ensures AllCanDecide(c', people, 0)
  {
    forall k | 0 <= k < |FilledSteps(c')|
      ensures CanDecide(people, AskedId(c', k))
    {
      FilledIsAddressed(c', k);
      var i := FilledSteps(c')[k];
      assert i >= |c.steps|;
      assert IsWrittenAs(c'.steps[|c.steps| + (i - |c.steps|)], draft.chain[i - |c.steps|], staff, c.returnCount + 1);
      assert Assignee(draft.chain[i - |c.steps|], staff) == c'.steps[i].approver;
    }
  }

  lemma OpenedRoundCanBeVerified(owner: nat, events: seq<Event>, c: Claim, c': Claim, draft: ClaimDraft, staff: Staff,
                                 people: People)
    returns (more: seq<Event>)
    requires BetweenRounds(c) && OpensRound(c, c', draft, staff) && c' == Run(owner, events) && AtStep(c', 0)
    requires RolesAsked(c') == AskedRoles(draft.chain, staff) && Completable(AskedRoles(draft.chain, staff))
    requires ChainCanDecide(people, draft.chain, staff)
    ensures |more| == |AskedRoles(draft.chain, staff)| && Verifies(owner, events, more, people)
  {
    OpenedRoundAsksItsChain(c, c', draft, staff, people);
    more := CompletableClaimCanBeVerified(owner, events, people, 0);
  }

  /** And when its new chain completes and its people may decide, it can still be verified. */
  lemma ReturnedClaimCanBeVerified(owner: nat, events: seq<Event>, user: User, d: Dossier, draft: ClaimDraft,
                                   people: People)
    returns (more: seq<Event>)
    requires EndsInReturn(owner, events)
    requires user.id == owner && DraftOf(d) == Success(draft) && draft.Submittable()
    requires Completable(AskedRoles(draft.chain, d.staff)) && ChainCanDecide(people, draft.chain, d.staff)
    ensures |more| == |AskedRoles(draft.chain, d.staff)|
    ensures Verifies(owner, events + [Submission(user, d)], more, people)
  {
    ReturnGivesItBack(owner, events);
    var c' := ResubmissionOpens(owner, Run(owner, events), user, d, draft);
    RunSubmits(owner, events, Submission(user, d), c');
    more := OpenedRoundCanBeVerified(owner, events + [Submission(user, d)], Run(owner, events), c', draft, d.staff,
                                     people);
  }

  /** The claimant reports to nobody, and Finance verification follows business levels only. */
  ghost predicate IsUnmanaged(d: Dossier) {
    && Truthy(d.request.claimant.managerCode).None?
    && d.policy.routing.financeAlways
    && forall i :: 0 <= i < |d.policy.routing.matrix| ==> Role.Finance !in d.policy.routing.matrix[i].roles
  }

  lemma {:induction false} BandsWithoutFinance(value: int, matrix: seq<Band>)
    requires forall i :: 0 <= i < |matrix| ==> Role.Finance !in matrix[i].roles
    ensures RolesForValue(value, matrix).Success? ==> Role.Finance !in RolesForValue(value, matrix).value
  {
    if matrix != [] {
      BandsWithoutFinance(value, matrix[1..]);
    }
  }

  lemma UnmanagedDraftNeverCompletes(d: Dossier)
    requires IsUnmanaged(d) && DraftOf(d).Success?
    ensures !Completable(AskedRoles(DraftOf(d).value.chain, d.staff))
  {
    var net := DraftOf(d).value.summary.netReimbursable;
    BandsWithoutFinance(net, d.policy.routing.matrix);
    NobodyAboveNeverCompletes(net, d.request.claimant, d.directory, d.policy.routing, d.staff);
  }

  /**
   * The claim of somebody who reports to nobody is never verified, whatever is requested: Finance is
   * then the only level asked, and a claim goes nowhere from awaiting approval to verified.
   */
  lemma UnmanagedClaimIsNeverVerified(owner: nat, events: seq<Event>)
    requires forall k :: 0 <= k < |events| && events[k].Submission? ==> IsUnmanaged(events[k].dossier)
    ensures !Run(owner, events).status.Verified?
  {
    if Run(owner, events).status.Verified? {
      VerifiedRestsOnItsSubmission(owner, events);
      var k := LastSubmissionWasMade(owner, events);
      UnmanagedDraftNeverCompletes(events[k].dossier);
    }
  }
}
