/** The policy rules: what each one decides about a single claim line. */
module Policy {
  import opened Domain
  import opened Rounding
  import opened Sums
  import opened Text

  datatype Line = Line(
    head: Head,
    description: string,
    gross: int,
    paidBy: PaidBy,
    date: Option<int>,
    taxShare: int,
    nights: Option<nat>,
    proofRef: Option<string>)
  {
    function Claimable(): int {
      gross + taxShare
    }

    predicate HasProof() {
      proofRef.Some? && proofRef.value != ""
    }
  }

  /** The policy version's parameters. Amounts are paise, limits are by city class. */
  datatype Params = Params(
    lodgingLimits: map<string, int>,
    mealLimits: map<string, int>,
    billRequiredAbove: Option<int>,
    priorApprovalThreshold: Option<int>,
    categories: seq<string>)

  datatype Settings = Settings(params: Params, cityClass: string, attendees: seq<string>, priorApproval: bool)

  datatype RuleId =
    | ConveyanceActuals
    | EntertainmentAttendees
    | EntertainmentPriorApproval
    | LodgingTariffLimit
    | MealsDailyCap
    | MealsBillThreshold
    | NonReimbursableCategory
    | ProofRequired
    | ThirdPartyClaimant
    | AirCompanyBorne
    | LineWithdrawn

  datatype Outcome = Allow | Disallow | Hold | Reject | Warn | Inform

  datatype Decision = Decision(rule: RuleId, outcome: Outcome, effect: int)

  function ConveyanceRule(line: Line): seq<Decision> {
    if line.head.Transport? then [Decision(ConveyanceActuals, Allow, 0)] else []
  }

  function AttendeesRule(line: Line, s: Settings): seq<Decision> {
    if !line.head.BusinessEntertainment? then []
    else if s.attendees != [] then [Decision(EntertainmentAttendees, Allow, 0)]
    else [Decision(EntertainmentAttendees, Hold, 0)]
  }

  function PriorApprovalRule(line: Line, s: Settings): seq<Decision> {
    var threshold := s.params.priorApprovalThreshold;
    if !line.head.BusinessEntertainment? || threshold.None? || line.Claimable() <= threshold.value then []
    else if s.priorApproval then [Decision(EntertainmentPriorApproval, Allow, 0)]
    else [Decision(EntertainmentPriorApproval, Hold, 0)]
  }

  function Nights(line: Line): (n: nat)
    ensures n > 0
  {
    if line.nights.None? || line.nights.value == 0 then 1 else line.nights.value
  }

  function PerNight(line: Line): int {
    HalfEven(line.gross, Nights(line))
  }

  predicate HasLodgingLimit(line: Line, s: Settings) {
    line.head.Lodging? && s.cityClass in s.params.lodgingLimits
  }

  /** The tariff taken off a stay; the comparison and the excess both leave taxes out. */
  function LodgingExcess(line: Line, s: Settings): int {
    if HasLodgingLimit(line, s) then ExcessOver(line.gross, Nights(line), s.params.lodgingLimits[s.cityClass]) else 0
  }

  function LodgingRule(line: Line, s: Settings): seq<Decision> {
    if !line.head.Lodging? then []
    else if s.cityClass !in s.params.lodgingLimits then [Decision(LodgingTariffLimit, Warn, 0)]
    else if PerNight(line) <= s.params.lodgingLimits[s.cityClass] then [Decision(LodgingTariffLimit, Allow, 0)]
    else [Decision(LodgingTariffLimit, Disallow, LodgingExcess(line, s))]
  }

  /** A dated meal in a city class with a daily limit. */
  predicate IsCapped(line: Line, s: Settings) {
    line.head.Meals? && line.date.Some? && s.cityClass in s.params.mealLimits
  }

  function MealExcess(line: Line, s: Settings, already: int): int {
    if IsCapped(line, s) && already + line.Claimable() > s.params.mealLimits[s.cityClass]
    then already + line.Claimable() - s.params.mealLimits[s.cityClass]
    else 0
  }

  function MealsCapRule(line: Line, s: Settings, already: int): seq<Decision> {
    if !IsCapped(line, s) then []
    else if already + line.Claimable() <= s.params.mealLimits[s.cityClass] then [Decision(MealsDailyCap, Allow, 0)]
    else [Decision(MealsDailyCap, Disallow, MealExcess(line, s, already))]
  }

  function MealsBillRule(line: Line, s: Settings): seq<Decision> {
    var threshold := s.params.billRequiredAbove;
    if !line.head.Meals? || threshold.None? || line.Claimable() <= threshold.value || line.HasProof() then []
    else [Decision(MealsBillThreshold, Hold, 0)]
  }

  /** Whether a line's description names a category that is never reimbursed, as whole words. */
  predicate IsCaught(line: Line, s: Settings) {
    exists k :: 0 <= k < |s.params.categories|
                && ContainsWord(LowerAll(line.description), LowerAll(s.params.categories[k]))
  }

  function NonReimbursableRule(line: Line, s: Settings): seq<Decision> {
    if IsCaught(line, s) then [Decision(NonReimbursableCategory, Disallow, line.Claimable())] else []
  }

  function ProofRule(line: Line): seq<Decision> {
    if line.paidBy.ByCompany? || line.HasProof() then [] else [Decision(ProofRequired, Hold, 0)]
  }

  /** Every rule looks at every line, in registration order. */
  function AllRules(line: Line, s: Settings, already: int): seq<Decision> {
    ConveyanceRule(line) + AttendeesRule(line, s) + PriorApprovalRule(line, s) + LodgingRule(line, s)
    + MealsCapRule(line, s, already) + MealsBillRule(line, s) + NonReimbursableRule(line, s) + ProofRule(line)
  }

  function EffectOf(): Decision -> int {
    (d: Decision) => if d.outcome.Disallow? then d.effect else 0
  }

  datatype LineOutcome = LineOutcome(
    line: Line,
    status: LineStatus,
    allowed: int,
    disallowed: int,
    decisions: seq<Decision>)

  predicate AnyHold(decisions: seq<Decision>) {
    exists k :: 0 <= k < |decisions| && decisions[k].outcome.Hold?
  }

  function Evaluated(line: Line, s: Settings, already: int): LineOutcome {
    var decisions := AllRules(line, s, already);
    var disallowed := Min(SumBy(EffectOf(), decisions), line.Claimable());
    var status :=
      if AnyHold(decisions) then LineStatus.Held
      else if disallowed >= line.Claimable() && line.Claimable() > 0 then LineStatus.Disallowed
      else LineStatus.Allowed;
    LineOutcome(line, status, line.Claimable() - disallowed, disallowed, decisions)
  }

  /** What the rules take off a line between them, before it is limited to what the line is worth. */
  function Removed(line: Line, s: Settings, already: int): int {
    LodgingExcess(line, s) + MealExcess(line, s, already) + (if IsCaught(line, s) then line.Claimable() else 0)
  }

  lemma SingleEffect(decisions: seq<Decision>)
    requires |decisions| <= 1
    ensures SumBy(EffectOf(), decisions) == if decisions == [] then 0 else EffectOf()(decisions[0])
  {
  }

  lemma SumOfEight<T>(f: T -> int, a: seq<T>, b: seq<T>, c: seq<T>, d: seq<T>,
                      e: seq<T>, g: seq<T>, h: seq<T>, i: seq<T>)
    ensures SumBy(f, a + b + c + d + e + g + h + i)
         == SumBy(f, a) + SumBy(f, b) + SumBy(f, c) + SumBy(f, d)
          + SumBy(f, e) + SumBy(f, g) + SumBy(f, h) + SumBy(f, i)
  {
    SumByConcat(f, a + b + c + d + e + g + h, i);
    SumByConcat(f, a + b + c + d + e + g, h);
    SumByConcat(f, a + b + c + d + e, g);
    SumByConcat(f, a + b + c + d, e);
    SumByConcat(f, a + b + c, d);
    SumByConcat(f, a + b, c);
    SumByConcat(f, a, b);
  }

  lemma LodgingEffect(line: Line, s: Settings)
    ensures SumBy(EffectOf(), LodgingRule(line, s)) == LodgingExcess(line, s)
  {
    SingleEffect(LodgingRule(line, s));
  }

  lemma MealsEffect(line: Line, s: Settings, already: int)
    ensures SumBy(EffectOf(), MealsCapRule(line, s, already)) == MealExcess(line, s, already)
  {
    SingleEffect(MealsCapRule(line, s, already));
  }

  lemma CategoryEffect(line: Line, s: Settings)
    ensures SumBy(EffectOf(), NonReimbursableRule(line, s)) == if IsCaught(line, s) then line.Claimable() else 0
  {
    SingleEffect(NonReimbursableRule(line, s));
  }

  lemma OtherRulesHaveNoEffect(line: Line, s: Settings)
    ensures SumBy(EffectOf(), ConveyanceRule(line)) == 0
    ensures SumBy(EffectOf(), AttendeesRule(line, s)) == 0
    ensures SumBy(EffectOf(), PriorApprovalRule(line, s)) == 0
    ensures SumBy(EffectOf(), MealsBillRule(line, s)) == 0
    ensures SumBy(EffectOf(), ProofRule(line)) == 0
  {
    SingleEffect(ConveyanceRule(line));
    SingleEffect(AttendeesRule(line, s));
    SingleEffect(PriorApprovalRule(line, s));
    SingleEffect(MealsBillRule(line, s));
    SingleEffect(ProofRule(line));
  }

  lemma EffectsAddUp(line: Line, s: Settings, already: int)
    ensures SumBy(EffectOf(), AllRules(line, s, already)) == Removed(line, s, already)
  {
    SumOfEight(EffectOf(), ConveyanceRule(line), AttendeesRule(line, s), PriorApprovalRule(line, s),
               LodgingRule(line, s), MealsCapRule(line, s, already), MealsBillRule(line, s),
               NonReimbursableRule(line, s), ProofRule(line));
    LodgingEffect(line, s);
    MealsEffect(line, s, already);
    CategoryEffect(line, s);
    OtherRulesHaveNoEffect(line, s);
  }

  /** No line is ever allowed a negative amount, and none is allowed more than it removes from. */
  lemma AllowedIsWhatRemains(line: Line, s: Settings, already: int)
    ensures Evaluated(line, s, already).allowed == Max(line.Claimable() - Removed(line, s, already), 0)
    ensures Evaluated(line, s, already).allowed + Evaluated(line, s, already).disallowed == line.Claimable()
  {
    EffectsAddUp(line, s, already);
  }

  /** Lines that no limit and no excluded category touch are allowed in full. */
  lemma UncutLineIsAllowed(line: Line, s: Settings, already: int)
    requires !IsCaught(line, s)
    requires line.head.Lodging? ==> s.cityClass !in s.params.lodgingLimits
    requires line.head.Meals? ==> line.date.None? || s.cityClass !in s.params.mealLimits
    ensures Evaluated(line, s, already).allowed == Max(line.gross + line.taxShare, 0)
  {
    AllowedIsWhatRemains(line, s, already);
  }

  /** A line in an excluded category is allowed nothing, its share of the tax included. */
  lemma CaughtLineIsNotAllowed(line: Line, s: Settings, already: int)
    requires IsCaught(line, s)
    ensures Evaluated(line, s, already).allowed == 0
    ensures Evaluated(line, s, already).disallowed == line.gross + line.taxShare
  {
    if HasLodgingLimit(line, s) {
      ExcessSign(line.gross, Nights(line), s.params.lodgingLimits[s.cityClass]);
    }
    AllowedIsWhatRemains(line, s, already);
  }

  /** Disallowed is what is worth something and allowed nothing; a line cut in part stays allowed. */
  lemma StatusExactly(line: Line, s: Settings, already: int)
    ensures var o := Evaluated(line, s, already);
      && (o.status.Held? || o.status.Disallowed? || o.status.Allowed?)
      && (!o.status.Held? ==> (o.status.Disallowed? <==> line.gross + line.taxShare > 0 && o.allowed == 0))
  {
    AllowedIsWhatRemains(line, s, already);
  }

  // Excluded categories

  /** Neither a letter nor a digit nor an underscore. */
  predicate IsBreak(c: char) {
    && (c < '0' || '9' < c) && (c < 'A' || 'Z' < c) && (c < 'a' || 'z' < c) && c != '_'
  }

  predicate SameIgnoringCase(a: char, b: char) {
    || a == b
    || ('A' <= a <= 'Z' && b as int == a as int + 32)
    || ('A' <= b <= 'Z' && a as int == b as int + 32)
  }

  /** Of the characters on either side of `i` exactly one is part of a word. */
  predicate IsEdge(text: string, i: nat)
    requires i <= |text|
  {
    (i == 0 || IsBreak(text[i - 1])) != (i == |text| || IsBreak(text[i]))
  }

  /** The text has the word at `i`, in any case, between two edges of words. */
  predicate HasWordAt(text: string, word: string, i: nat) {
    && i + |word| <= |text|
    && (forall j :: 0 <= j < |word| ==> SameIgnoringCase(text[i + j], word[j]))
    && IsEdge(text, i) && IsEdge(text, i + |word|)
  }

  lemma CharsAgreeExactly(a: char, b: char)
    ensures Lower(a) == Lower(b) <==> SameIgnoringCase(a, b)
    ensures IsWordChar(Lower(a)) <==> !IsBreak(a)
  {
  }

  lemma TextsAgreeExactly(text: string, word: string)
    requires |text| == |word|
    ensures LowerAll(text) == LowerAll(word)
       <==> forall j :: 0 <= j < |word| ==> SameIgnoringCase(text[j], word[j])
  {
    forall j | 0 <= j < |word|
      ensures LowerAll(text)[j] == LowerAll(word)[j] <==> SameIgnoringCase(text[j], word[j])
    {
      CharsAgreeExactly(text[j], word[j]);
    }
  }

  lemma BoundariesAreEdges(text: string, i: nat)
    requires i <= |text|
    ensures IsBoundary(LowerAll(text), i) <==> IsEdge(text, i)
  {
    if i > 0 {
      CharsAgreeExactly(text[i - 1], text[i - 1]);
    }
    if i < |text| {
      CharsAgreeExactly(text[i], text[i]);
    }
  }

  lemma WordIsFoundExactly(text: string, word: string, i: nat)
    ensures WordAt(LowerAll(text), LowerAll(word), i) <==> HasWordAt(text, word, i)
  {
    if i + |word| <= |text| {
      var part := text[i..i + |word|];
      assert LowerAll(text)[i..i + |word|] == LowerAll(part);
      TextsAgreeExactly(part, word);
      assert forall j :: 0 <= j < |word| ==> part[j] == text[i + j];
      BoundariesAreEdges(text, i);
      BoundariesAreEdges(text, i + |word|);
    }
  }

  /** A line is caught exactly when its description has one of the categories as whole words, in any case. */
  lemma IsCaughtExactly(line: Line, s: Settings)
    ensures IsCaught(line, s)
       <==> exists k, i: nat :: 0 <= k < |s.params.categories|
                                && HasWordAt(line.description, s.params.categories[k], i)
  {
    forall k, i: nat | 0 <= k < |s.params.categories|
      ensures WordAt(LowerAll(line.description), LowerAll(s.params.categories[k]), i)
         <==> HasWordAt(line.description, s.params.categories[k], i)
    {
      WordIsFoundExactly(line.description, s.params.categories[k], i);
    }
    if IsCaught(line, s) {
      var k :| && 0 <= k < |s.params.categories|
               && ContainsWord(LowerAll(line.description), LowerAll(s.params.categories[k]));
      var i :| && 0 <= i <= |line.description|
               && WordAt(LowerAll(line.description), LowerAll(s.params.categories[k]), i);
      assert HasWordAt(line.description, s.params.categories[k], i);
    }
    forall k, i: nat | 0 <= k < |s.params.categories| && HasWordAt(line.description, s.params.categories[k], i)
      ensures IsCaught(line, s)
    {
      assert WordAt(LowerAll(line.description), LowerAll(s.params.categories[k]), i);
    }
  }

  /**
   * A category that begins and ends with a letter or a digit, as every shipped one does, catches only
   * where nothing of a word stands on either side of it: "bar" does not catch "Barista".
   */
  lemma WholeWordsOnly(text: string, word: string, i: nat)
    requires word != [] && !IsBreak(word[0]) && !IsBreak(word[|word| - 1])
    ensures HasWordAt(text, word, i)
       <==> && i + |word| <= |text|
            && (forall j :: 0 <= j < |word| ==> SameIgnoringCase(text[i + j], word[j]))
            && (i == 0 || IsBreak(text[i - 1]))
            && (i + |word| == |text| || IsBreak(text[i + |word|]))
  {
    if i + |word| <= |text| && forall j :: 0 <= j < |word| ==> SameIgnoringCase(text[i + j], word[j]) {
      assert SameIgnoringCase(text[i + 0], word[0]) && SameIgnoringCase(text[i + (|word| - 1)], word[|word| - 1]);
    }
  }

  // Lodging

  /** `n` is the nights a stay is judged by: those stated, or one when none are. */
  predicate IsFor(line: Line, n: nat) {
    n > 0 && (line.nights == Some(n) || (n == 1 && (line.nights == None || line.nights == Some(0))))
  }

  /**
   * Exactly when a stay is cut. Half-even rounding of the nightly tariff leaves an excess of up to
   * half a paisa a night uncut, and a tie goes to the employee exactly when the limit is even.
   */
  lemma LodgingIsCutExactly(line: Line, s: Settings, n: nat)
    requires line.head.Lodging? && s.cityClass in s.params.lodgingLimits && IsFor(line, n)
    ensures var limit := s.params.lodgingLimits[s.cityClass];
      LodgingExcess(line, s) > 0
      <==> || 2 * line.gross > (2 * limit + 1) * n
           || (2 * line.gross == (2 * limit + 1) * n && limit % 2 == 1)
  {
    var limit := s.params.lodgingLimits[s.cityClass];
    HalfEvenExceeds(line.gross, n, limit);
    ExcessSign(line.gross, n, limit);
  }

  /**
   * What is taken off: by how much the nightly tariff exceeds the limit, times the nights, when the
   * nightly tariff is the whole paisa nearest to the exact one, and of two the even one.
   */
  lemma LodgingExcessExactly(line: Line, s: Settings, n: nat, perNight: int)
    requires line.head.Lodging? && s.cityClass in s.params.lodgingLimits && IsFor(line, n)
    requires 2 * Abs(perNight * n - line.gross) <= n
    requires 2 * Abs(perNight * n - line.gross) == n ==> perNight % 2 == 0
    ensures var limit := s.params.lodgingLimits[s.cityClass];
      LodgingExcess(line, s) == if perNight > limit then (perNight - limit) * n else 0
  {
    HalfEvenIs(line.gross, n, perNight);
  }

  /** Within the limit is never cut; more than half a paisa a night above it always is. */
  lemma LodgingRoundingBound(line: Line, s: Settings, n: nat)
    requires line.head.Lodging? && s.cityClass in s.params.lodgingLimits && IsFor(line, n)
    ensures var limit := s.params.lodgingLimits[s.cityClass];
      && (line.gross <= limit * n ==> LodgingExcess(line, s) == 0)
      && (2 * line.gross > 2 * (limit * n) + n ==> LodgingExcess(line, s) > 0)
      && (LodgingExcess(line, s) != 0 ==> 2 * Abs(line.gross - LodgingExcess(line, s) - limit * n) <= n)
  {
    var limit := s.params.lodgingLimits[s.cityClass];
    HalfEvenExceeds(line.gross, n, limit);
    ExcessSign(line.gross, n, limit);
    ExcessIsNear(line.gross, n, limit);
    TwiceProduct(limit, n);
  }

  /** A stay that nothing else touches is allowed its tariff and its tax, less what is taken off it. */
  lemma StayIsAllowed(line: Line, s: Settings, already: int)
    requires line.head.Lodging? && !IsCaught(line, s)
    ensures Evaluated(line, s, already).allowed == Max(line.gross + line.taxShare - LodgingExcess(line, s), 0)
  {
    AllowedIsWhatRemains(line, s, already);
  }

  /**
   * A cut stay that no other rule touches keeps the tax on its tariff in full, unless a negative share
   * outweighs what is left of the tariff; it is then reimbursed near its limit with its tax on top.
   */
  lemma CutStayKeepsItsTax(line: Line, s: Settings, already: int, n: nat)
    requires line.head.Lodging? && s.cityClass in s.params.lodgingLimits && IsFor(line, n)
    requires LodgingExcess(line, s) != 0 && !IsCaught(line, s)
    ensures var kept := line.gross - LodgingExcess(line, s) + line.taxShare;
      var allowed := Evaluated(line, s, already).allowed;
      && (allowed == kept <==> kept >= 0)
      && (kept >= 0 ==> 2 * Abs(allowed - line.taxShare - s.params.lodgingLimits[s.cityClass] * n) <= n)
  {
    LodgingRoundingBound(line, s, n);
    StayIsAllowed(line, s, already);
  }

  /** With a limit of at least a paisa and no negative tax, something is always left. */
  lemma CutStayLeavesSomething(line: Line, s: Settings)
    requires line.head.Lodging? && s.cityClass in s.params.lodgingLimits && LodgingExcess(line, s) != 0
    requires s.params.lodgingLimits[s.cityClass] >= 1 && line.taxShare >= 0
    ensures line.gross - LodgingExcess(line, s) + line.taxShare >= 0
  {
    var n := Nights(line);
    LodgingRoundingBound(line, s, n);
    TaxIsKept(line.gross, LodgingExcess(line, s), s.params.lodgingLimits[s.cityClass], n);
  }

  lemma TaxIsKept(gross: int, excess: int, limit: int, n: int)
    requires n > 0 && limit >= 1 && 2 * Abs(gross - excess - limit * n) <= n
    ensures gross - excess >= 0
  {
    assert limit * n >= 1 * n;
  }

  // Holding

  lemma HoldsInParts(a: seq<Decision>, b: seq<Decision>)
    ensures AnyHold(a + b) <==> AnyHold(a) || AnyHold(b)
  {
    forall k | 0 <= k < |b| && b[k].outcome.Hold?
      ensures AnyHold(a + b)
    {
      assert (a + b)[|a| + k] == b[k];
    }
    forall k | 0 <= k < |a| && a[k].outcome.Hold?
      ensures AnyHold(a + b)
    {
      assert (a + b)[k] == a[k];
    }
  }

  /** Of eight lists joined, when four hold nothing the other four decide. */
  lemma HoldsOfEight(a: seq<Decision>, b: seq<Decision>, c: seq<Decision>, d: seq<Decision>,
                     e: seq<Decision>, f: seq<Decision>, g: seq<Decision>, h: seq<Decision>)
    requires !AnyHold(a) && !AnyHold(d) && !AnyHold(e) && !AnyHold(g)
    ensures AnyHold(a + b + c + d + e + f + g + h) <==> AnyHold(b) || AnyHold(c) || AnyHold(f) || AnyHold(h)
  {
    HoldsInParts(a + b + c + d + e + f + g, h);
    HoldsInParts(a + b + c + d + e + f, g);
    HoldsInParts(a + b + c + d + e, f);
    HoldsInParts(a + b + c + d, e);
    HoldsInParts(a + b + c, d);
    HoldsInParts(a + b, c);
    HoldsInParts(a, b);
  }

  predicate LacksProof(line: Line) {
    line.proofRef == None || line.proofRef == Some("")
  }

  lemma SingleHold(decisions: seq<Decision>)
    requires |decisions| <= 1
    ensures AnyHold(decisions) <==> decisions != [] && decisions[0].outcome.Hold?
  {
  }

  lemma AttendeesHold(line: Line, s: Settings)
    ensures AnyHold(AttendeesRule(line, s)) <==> line.head.BusinessEntertainment? && s.attendees == []
  {
    SingleHold(AttendeesRule(line, s));
  }

  lemma PriorApprovalHolds(line: Line, s: Settings)
    ensures AnyHold(PriorApprovalRule(line, s))
       <==> && line.head.BusinessEntertainment? && s.params.priorApprovalThreshold.Some?
            && line.gross + line.taxShare > s.params.priorApprovalThreshold.value && !s.priorApproval
  {
    SingleHold(PriorApprovalRule(line, s));
  }

  lemma MealsBillHolds(line: Line, s: Settings)
    ensures AnyHold(MealsBillRule(line, s))
       <==> && line.head.Meals? && s.params.billRequiredAbove.Some?
            && line.gross + line.taxShare > s.params.billRequiredAbove.value && LacksProof(line)
  {
    SingleHold(MealsBillRule(line, s));
  }

  lemma MissingProofHolds(line: Line)
    ensures AnyHold(ProofRule(line)) <==> line.paidBy.ByEmployee? && LacksProof(line)
  {
    SingleHold(ProofRule(line));
  }

  lemma HeldByARule(line: Line, s: Settings, already: int)
    ensures Evaluated(line, s, already).status.Held?
       <==> || AnyHold(AttendeesRule(line, s))
            || AnyHold(PriorApprovalRule(line, s))
            || AnyHold(MealsBillRule(line, s))
            || AnyHold(ProofRule(line))
  {
    HoldsOfEight(ConveyanceRule(line), AttendeesRule(line, s), PriorApprovalRule(line, s), LodgingRule(line, s),
                 MealsCapRule(line, s, already), MealsBillRule(line, s), NonReimbursableRule(line, s), ProofRule(line));
  }

  /**
   * What a line is held for, and nothing else: an entertainment without attendees; one above the
   * threshold that nobody approved beforehand; a meal above its threshold without a bill; and any
   * line the employee paid that has no proof.
   */
  lemma HeldExactly(line: Line, s: Settings, already: int)
    ensures var amount := line.gross + line.taxShare;
      Evaluated(line, s, already).status.Held?
      <==> || (line.head.BusinessEntertainment? && s.attendees == [])
           || (&& line.head.BusinessEntertainment? && s.params.priorApprovalThreshold.Some?
               && amount > s.params.priorApprovalThreshold.value && !s.priorApproval)
           || (&& line.head.Meals? && s.params.billRequiredAbove.Some?
               && amount > s.params.billRequiredAbove.value && LacksProof(line))
           || (line.paidBy.ByEmployee? && LacksProof(line))
  {
    HeldByARule(line, s, already);
    AttendeesHold(line, s);
    PriorApprovalHolds(line, s);
    MealsBillHolds(line, s);
    MissingProofHolds(line);
  }

  lemma SingleDecision(decisions: seq<Decision>, d: Decision)
    requires |decisions| <= 1
    ensures d in decisions <==> decisions != [] && decisions[0] == d
  {
  }

  lemma MemberOfEight(a: seq<Decision>, b: seq<Decision>, c: seq<Decision>, d: seq<Decision>,
                      e: seq<Decision>, f: seq<Decision>, g: seq<Decision>, h: seq<Decision>, x: Decision)
    ensures x in a + b + c + d + e + f + g + h
       <==> x in a || x in b || x in c || x in d || x in e || x in f || x in g || x in h
  {
  }

  /** A decision is among a line's when one of the eight rules made it. */
  lemma DecisionsOfEight(line: Line, s: Settings, already: int, x: Decision)
    ensures x in Evaluated(line, s, already).decisions
       <==> || x in ConveyanceRule(line) || x in AttendeesRule(line, s) || x in PriorApprovalRule(line, s)
            || x in LodgingRule(line, s) || x in MealsCapRule(line, s, already) || x in MealsBillRule(line, s)
            || x in NonReimbursableRule(line, s) || x in ProofRule(line)
  {
    MemberOfEight(ConveyanceRule(line), AttendeesRule(line, s), PriorApprovalRule(line, s), LodgingRule(line, s),
                  MealsCapRule(line, s, already), MealsBillRule(line, s), NonReimbursableRule(line, s),
                  ProofRule(line), x);
  }

  lemma EntertainmentHolds(line: Line, s: Settings, rule: RuleId)
    ensures Decision(rule, Hold, 0) in AttendeesRule(line, s)
       <==> rule.EntertainmentAttendees? && line.head.BusinessEntertainment? && s.attendees == []
    ensures Decision(rule, Hold, 0) in PriorApprovalRule(line, s)
       <==> && rule.EntertainmentPriorApproval? && line.head.BusinessEntertainment?
            && s.params.priorApprovalThreshold.Some? && !s.priorApproval
            && line.gross + line.taxShare > s.params.priorApprovalThreshold.value
  {
    SingleDecision(AttendeesRule(line, s), Decision(rule, Hold, 0));
    SingleDecision(PriorApprovalRule(line, s), Decision(rule, Hold, 0));
  }

  lemma ProofHolds(line: Line, s: Settings, rule: RuleId)
    ensures Decision(rule, Hold, 0) in MealsBillRule(line, s)
       <==> && rule.MealsBillThreshold? && line.head.Meals? && s.params.billRequiredAbove.Some?
            && line.gross + line.taxShare > s.params.billRequiredAbove.value && LacksProof(line)
    ensures Decision(rule, Hold, 0) in ProofRule(line)
       <==> rule.ProofRequired? && line.paidBy.ByEmployee? && LacksProof(line)
  {
    SingleDecision(MealsBillRule(line, s), Decision(rule, Hold, 0));
    SingleDecision(ProofRule(line), Decision(rule, Hold, 0));
  }

  lemma LimitsHoldNothing(line: Line, s: Settings, already: int, rule: RuleId)
    ensures Decision(rule, Hold, 0) !in ConveyanceRule(line) && Decision(rule, Hold, 0) !in LodgingRule(line, s)
    ensures Decision(rule, Hold, 0) !in MealsCapRule(line, s, already)
    ensures Decision(rule, Hold, 0) !in NonReimbursableRule(line, s)
  {
  }

  /** Each hold names the rule it is for. */
  lemma HoldsNameTheirRules(line: Line, s: Settings, already: int, rule: RuleId)
    ensures var amount, held := line.gross + line.taxShare, Decision(rule, Hold, 0);
      held in Evaluated(line, s, already).decisions
      <==> || (rule.EntertainmentAttendees? && line.head.BusinessEntertainment? && s.attendees == [])
           || (&& rule.EntertainmentPriorApproval? && line.head.BusinessEntertainment?
               && s.params.priorApprovalThreshold.Some? && !s.priorApproval
               && amount > s.params.priorApprovalThreshold.value)
           || (&& rule.MealsBillThreshold? && line.head.Meals? && s.params.billRequiredAbove.Some?
               && amount > s.params.billRequiredAbove.value && LacksProof(line))
           || (rule.ProofRequired? && line.paidBy.ByEmployee? && LacksProof(line))
  {
    DecisionsOfEight(line, s, already, Decision(rule, Hold, 0));
    EntertainmentHolds(line, s, rule);
    ProofHolds(line, s, rule);
    LimitsHoldNothing(line, s, already, rule);
  }

  lemma LimitsCut(line: Line, s: Settings, already: int, rule: RuleId, effect: int)
    ensures Decision(rule, Disallow, effect) in LodgingRule(line, s)
       <==> rule.LodgingTariffLimit? && effect == LodgingExcess(line, s) > 0
    ensures Decision(rule, Disallow, effect) in MealsCapRule(line, s, already)
       <==> && rule.MealsDailyCap? && line.head.Meals? && line.date.Some? && s.cityClass in s.params.mealLimits
            && effect == already + line.gross + line.taxShare - s.params.mealLimits[s.cityClass] > 0
  {
    SingleDecision(LodgingRule(line, s), Decision(rule, Disallow, effect));
    SingleDecision(MealsCapRule(line, s, already), Decision(rule, Disallow, effect));
    if HasLodgingLimit(line, s) {
      ExcessSign(line.gross, Nights(line), s.params.lodgingLimits[s.cityClass]);
    }
  }

  lemma OtherRulesCutNothing(line: Line, s: Settings, rule: RuleId, effect: int)
    ensures Decision(rule, Disallow, effect) !in ConveyanceRule(line)
    ensures Decision(rule, Disallow, effect) !in AttendeesRule(line, s)
    ensures Decision(rule, Disallow, effect) !in PriorApprovalRule(line, s)
    ensures Decision(rule, Disallow, effect) !in MealsBillRule(line, s)
    ensures Decision(rule, Disallow, effect) !in ProofRule(line)
  {
  }

  /** Nothing is taken off without a decision that says by which rule and how much. */
  lemma CutsNameTheirRules(line: Line, s: Settings, already: int, rule: RuleId, effect: int)
    ensures Decision(rule, Disallow, effect) in Evaluated(line, s, already).decisions
       <==> || (rule.LodgingTariffLimit? && effect == LodgingExcess(line, s) > 0)
            || (&& rule.MealsDailyCap? && line.head.Meals? && line.date.Some? && s.cityClass in s.params.mealLimits
                && effect == already + line.gross + line.taxShare - s.params.mealLimits[s.cityClass] > 0)
            || (rule.NonReimbursableCategory? && IsCaught(line, s) && effect == line.gross + line.taxShare)
  {
    DecisionsOfEight(line, s, already, Decision(rule, Disallow, effect));
    LimitsCut(line, s, already, rule, effect);
    OtherRulesCutNothing(line, s, rule, effect);
    SingleDecision(NonReimbursableRule(line, s), Decision(rule, Disallow, effect));
  }

  lemma EntertainmentPasses(line: Line, s: Settings, rule: RuleId)
    ensures Decision(rule, Allow, 0) in ConveyanceRule(line) <==> rule.ConveyanceActuals? && line.head.Transport?
    ensures Decision(rule, Allow, 0) in AttendeesRule(line, s)
       <==> rule.EntertainmentAttendees? && line.head.BusinessEntertainment? && s.attendees != []
    ensures Decision(rule, Allow, 0) in PriorApprovalRule(line, s)
       <==> && rule.EntertainmentPriorApproval? && line.head.BusinessEntertainment?
            && s.params.priorApprovalThreshold.Some? && s.priorApproval
            && line.gross + line.taxShare > s.params.priorApprovalThreshold.value
  {
    SingleDecision(ConveyanceRule(line), Decision(rule, Allow, 0));
    SingleDecision(AttendeesRule(line, s), Decision(rule, Allow, 0));
    SingleDecision(PriorApprovalRule(line, s), Decision(rule, Allow, 0));
  }

  lemma LimitsPass(line: Line, s: Settings, already: int, rule: RuleId)
    ensures Decision(rule, Allow, 0) in LodgingRule(line, s)
       <==> && rule.LodgingTariffLimit? && line.head.Lodging? && s.cityClass in s.params.lodgingLimits
            && LodgingExcess(line, s) == 0
    ensures Decision(rule, Allow, 0) in MealsCapRule(line, s, already)
       <==> && rule.MealsDailyCap? && line.head.Meals? && line.date.Some? && s.cityClass in s.params.mealLimits
            && already + line.gross + line.taxShare <= s.params.mealLimits[s.cityClass]
  {
    SingleDecision(LodgingRule(line, s), Decision(rule, Allow, 0));
    SingleDecision(MealsCapRule(line, s, already), Decision(rule, Allow, 0));
    if HasLodgingLimit(line, s) {
      ExcessSign(line.gross, Nights(line), s.params.lodgingLimits[s.cityClass]);
    }
  }

  lemma NothingElsePasses(line: Line, s: Settings, rule: RuleId)
    ensures Decision(rule, Allow, 0) !in MealsBillRule(line, s) && Decision(rule, Allow, 0) !in ProofRule(line)
    ensures Decision(rule, Allow, 0) !in NonReimbursableRule(line, s)
  {
  }

  /** A rule with a limit or a condition that is met says so, and the others say nothing. */
  lemma PassesNameTheirRules(line: Line, s: Settings, already: int, rule: RuleId)
    ensures Decision(rule, Allow, 0) in Evaluated(line, s, already).decisions
       <==> || (rule.ConveyanceActuals? && line.head.Transport?)
            || (rule.EntertainmentAttendees? && line.head.BusinessEntertainment? && s.attendees != [])
            || (&& rule.EntertainmentPriorApproval? && line.head.BusinessEntertainment?
                && s.params.priorApprovalThreshold.Some? && s.priorApproval
                && line.gross + line.taxShare > s.params.priorApprovalThreshold.value)
            || (&& rule.LodgingTariffLimit? && line.head.Lodging? && s.cityClass in s.params.lodgingLimits
                && LodgingExcess(line, s) == 0)
            || (&& rule.MealsDailyCap? && line.head.Meals? && line.date.Some? && s.cityClass in s.params.mealLimits
                && already + line.gross + line.taxShare <= s.params.mealLimits[s.cityClass])
  {
    DecisionsOfEight(line, s, already, Decision(rule, Allow, 0));
    EntertainmentPasses(line, s, rule);
    LimitsPass(line, s, already, rule);
    NothingElsePasses(line, s, rule);
  }

  // Meals

  /** The daily limit a capped line is held to; a negative limit allows nothing. */
  function Cap(s: Settings): nat {
    if s.cityClass in s.params.mealLimits then Max(s.params.mealLimits[s.cityClass], 0) else 0
  }

  /** What a line would be allowed if nothing capped it. */
  function Worth(line: Line, s: Settings): nat {
    if IsCaught(line, s) then 0 else Max(line.Claimable(), 0)
  }

  /** A capped meal is allowed what fits under the cap, and no more than it is worth. */
  lemma CappedMealFillsTheCap(line: Line, s: Settings, already: int)
    requires IsCapped(line, s) && 0 <= already <= Cap(s)
    ensures already + Evaluated(line, s, already).allowed == Min(Cap(s), already + Worth(line, s))
  {
    AllowedIsWhatRemains(line, s, already);
  }

  /** A dated meal under a daily limit is allowed what the day's meals have left of it, up to its amount. */
  lemma MealIsAllowedTheRest(line: Line, s: Settings, already: int)
    requires line.head.Meals? && line.date.Some? && s.cityClass in s.params.mealLimits && !IsCaught(line, s)
    ensures Evaluated(line, s, already).allowed
         == Max(Min(line.gross + line.taxShare, s.params.mealLimits[s.cityClass] - already), 0)
  {
    AllowedIsWhatRemains(line, s, already);
  }

  /** A line that is no capped meal is judged without regard to the day's meals. */
  lemma UncappedIgnoresTheDay(line: Line, s: Settings, already: int)
    requires !IsCapped(line, s)
    ensures Evaluated(line, s, already) == Evaluated(line, s, 0)
  {
  }
}
