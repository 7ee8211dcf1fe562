/** Which status may follow which, and when a claim may be submitted. */
module Lifecycle {
  import opened Domain
  import opened Policy
  import opened Engine
  import opened Summary

  /** The transition table: the statuses a claim can move to from each status. */
  function Transitions(current: ClaimStatus): set<ClaimStatus> {
    match current
    case Draft => {PendingApproval}
    case PendingApproval => {PendingApproval, PendingFinance, Draft, ClaimStatus.Rejected}
    case PendingFinance => {Verified, Draft, ClaimStatus.Rejected}
    case Verified => {ScheduledForPayment}
    case ScheduledForPayment => {Paid}
    case Paid => {}
    case Rejected => {}
  }

  predicate MayFollow(current: ClaimStatus, target: ClaimStatus) {
    target in Transitions(current)
  }

  /** What may come before each status. */
  lemma WhatMayPrecede(current: ClaimStatus, target: ClaimStatus)
    ensures MayFollow(current, target)
       <==> match target
            case Draft => current.PendingApproval? || current.PendingFinance?
            case PendingApproval => current.Draft? || current.PendingApproval?
            case PendingFinance => current.PendingApproval?
            case Verified => current.PendingFinance?
            case ScheduledForPayment => current.Verified?
            case Paid => current.ScheduledForPayment?
            case Rejected => current.PendingApproval? || current.PendingFinance?
  {
  }

  // The submission gate

  datatype BlockingReason = Blocked(description: string, rule: RuleId) | NothingToSubmit

  function HoldReasons(line: Line, decisions: seq<Decision>): (reasons: seq<BlockingReason>)
    ensures reasons == [] <==> !AnyHold(decisions)
  {
    if decisions == [] then []
    else
      var n := |decisions| - 1;
      var front := HoldReasons(line, decisions[..n]);
      assert AnyHold(decisions) <==> AnyHold(decisions[..n]) || decisions[n].outcome.Hold?;
      if decisions[n].outcome.Hold? then front + [Blocked(line.description, decisions[n].rule)] else front
  }

  function HeldReasons(outcomes: seq<LineOutcome>): seq<BlockingReason> {
    if outcomes == [] then []
    else
      var o := outcomes[|outcomes| - 1];
      HeldReasons(outcomes[..|outcomes| - 1]) + (if o.status.Held? then HoldReasons(o.line, o.decisions) else [])
  }

  predicate SomethingCounts(outcomes: seq<LineOutcome>) {
    exists i :: 0 <= i < |outcomes| && Counts(outcomes[i].status)
  }

  function BlockingReasons(outcomes: seq<LineOutcome>): seq<BlockingReason> {
    HeldReasons(outcomes) + (if SomethingCounts(outcomes) then [] else [NothingToSubmit])
  }

  method CheckCanSubmit(outcomes: seq<LineOutcome>) returns (canSubmit: bool, reasons: seq<BlockingReason>)
    ensures reasons == BlockingReasons(outcomes)
    ensures canSubmit <==> CanSubmit(outcomes)
  {
    reasons := [];
    for i := 0 to |outcomes|
      invariant reasons == HeldReasons(outcomes[..i])
    {
      assert outcomes[..i + 1][..i] == outcomes[..i];
      var o := outcomes[i];
      if o.status.Held? {
        for k := 0 to |o.decisions|
          invariant reasons == HeldReasons(outcomes[..i]) + HoldReasons(o.line, o.decisions[..k])
        {
          assert o.decisions[..k + 1][..k] == o.decisions[..k];
          if o.decisions[k].outcome.Hold? {
            reasons := reasons + [Blocked(o.line.description, o.decisions[k].rule)];
          }
        }
        assert o.decisions[..|o.decisions|] == o.decisions;
      }
    }
    assert outcomes[..|outcomes|] == outcomes;
    if !SomethingCounts(outcomes) {
      reasons := reasons + [NothingToSubmit];
    }
    canSubmit := reasons == [];
  }

  predicate CanSubmit(outcomes: seq<LineOutcome>) {
    BlockingReasons(outcomes) == []
  }

  lemma {:induction false} NoHeldReasonsExactly(outcomes: seq<LineOutcome>)
    ensures HeldReasons(outcomes) == []
       <==> forall i :: 0 <= i < |outcomes| && outcomes[i].status.Held? ==> !AnyHold(outcomes[i].decisions)
  {
    if outcomes != [] {
      NoHeldReasonsExactly(outcomes[..|outcomes| - 1]);
    }
  }

  /** A held line has a decision of this rule that holds it, and goes by this description. */
  ghost predicate HoldsFor(o: LineOutcome, description: string, rule: RuleId) {
    && o.status.Held? && o.line.description == description
    && exists k :: 0 <= k < |o.decisions| && o.decisions[k].outcome.Hold? && o.decisions[k].rule == rule
  }

  lemma {:induction false} HoldReasonsAreExactly(line: Line, decisions: seq<Decision>, r: BlockingReason)
    ensures r in HoldReasons(line, decisions)
       <==> && r.Blocked? && r.description == line.description
            && exists k :: 0 <= k < |decisions| && decisions[k].outcome.Hold? && decisions[k].rule == r.rule
  {
    if decisions != [] {
      HoldReasonsAreExactly(line, decisions[..|decisions| - 1], r);
    }
  }

  lemma {:induction false} HeldReasonsAreExactly(outcomes: seq<LineOutcome>, r: BlockingReason)
    ensures r in HeldReasons(outcomes)
       <==> r.Blocked? && exists i :: 0 <= i < |outcomes| && HoldsFor(outcomes[i], r.description, r.rule)
  {
    if outcomes != [] {
      var n := |outcomes| - 1;
      HeldReasonsAreExactly(outcomes[..n], r);
      HoldReasonsAreExactly(outcomes[n].line, outcomes[n].decisions, r);
    }
  }

  /**
   * The reasons given name every held line with every rule that holds it, and nothing else, but for
   * the one that says that no line is left to reimburse.
   */
  lemma ReasonsAreExactly(outcomes: seq<LineOutcome>, r: BlockingReason)
    ensures r in BlockingReasons(outcomes)
       <==> match r
            case Blocked(description, rule) =>
              exists i :: 0 <= i < |outcomes| && HoldsFor(outcomes[i], description, rule)
            case NothingToSubmit =>
              forall i :: 0 <= i < |outcomes| ==>
                outcomes[i].status.Rejected? || outcomes[i].status.Withdrawn? || outcomes[i].status.Memo?
  {
    HeldReasonsAreExactly(outcomes, r);
  }

  /** A line the evaluator holds always carries the decision that holds it. */
  lemma HeldLinesSayWhy(entries: seq<Entry>, s: Settings, start: map<int, int>, i: nat)
    requires i < |entries|
    ensures var o := Outcomes(entries, s, start)[i]; o.status.Held? ==> AnyHold(o.decisions)
  {
  }

  /**
   * What the evaluator produced may be submitted exactly when no line is held and some line was left
   * to the rules. Nothing else blocks it: not a document that still needs input, for one.
   */
  lemma CanSubmitExactly(entries: seq<Entry>, s: Settings, start: map<int, int>)
    ensures var outcomes := Outcomes(entries, s, start);
      CanSubmit(outcomes)
      <==> && (forall i :: 0 <= i < |outcomes| ==> !outcomes[i].status.Held?)
           && (exists i :: 0 <= i < |entries| && !IsSettled(entries[i]))
  {
    var outcomes := Outcomes(entries, s, start);
    NoHeldReasonsExactly(outcomes);
    forall i | 0 <= i < |entries|
      ensures outcomes[i].status.Held? ==> AnyHold(outcomes[i].decisions)
      ensures Counts(outcomes[i].status) <==> !IsSettled(entries[i])
    {
      HeldLinesSayWhy(entries, s, start, i);
      EveryOutcomeBalances(entries, s, start, i);
    }
  }

}
