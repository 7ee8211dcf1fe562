/** One trip from its documents to a settled, routed draft. */
module Pipeline {
  import opened Domain
  import opened Sums
  import opened Evidence
  import opened Tax
  import opened Bills
  import opened Dedup
  import opened Policy
  import opened Engine
  import opened Summary
  import opened Lifecycle
  import opened Routing
  import opened Workbook

  /**
   * A document as the pipeline meets it: of a kind that makes no claim lines, unreadable, with
   * figures the claimant typed in, or read by the extractor.
   */
  datatype Document =
    | SetAside(name: string)
    | Unreadable(name: string)
    | Typed(name: string, items: seq<ExtractedItem>, proofRef: string)
    | Read(name: string, result: ExtractionResult, proofRef: string)

  datatype PolicyVersion = PolicyVersion(rules: Params, routing: RoutingParams)

  datatype Request = Request(claimant: EmployeeRef, cityClass: string, documents: seq<Document>, advances: seq<int>)

  datatype ClaimDraft = ClaimDraft(
    outcomes: seq<LineOutcome>,
    summary: SettlementSummary,
    chain: seq<ChainStep>,
    needsInput: set<string>)
  {
    predicate Submittable() {
      CanSubmit(outcomes)
    }
  }

  datatype BuildError = Unapportioned(tax: TaxError) | Unrouted(routing: RoutingError)

  // Collecting the lines

  /** A line with its share of its bill's tax and the document that proves it. */
  datatype Piece = Piece(item: ExtractedItem, taxShare: int, proofRef: string)

  datatype Collection = Collection(pieces: seq<Piece>, needsInput: set<string>)

  function PiecesOf(charges: seq<Charge>, proofRef: string): (pieces: seq<Piece>)
    ensures |pieces| == |charges|
  {
    seq(|charges|, i requires 0 <= i < |charges| => Piece(charges[i].item, charges[i].taxShare, proofRef))
  }

  /** A typed correction states no subtotal and no total. */
  function TypedResult(items: seq<ExtractedItem>): ExtractionResult {
    ExtractionResult(Extracted, items, None, None, None)
  }

  function Charged(c: Collection, result: ExtractionResult, proofRef: string): Result<Collection, TaxError> {
    var charges := WithTaxShares(result);
    if charges.Failure? then Failure(charges.error)
    else Success(c.(pieces := c.pieces + PiecesOf(charges.value, proofRef)))
  }

  function WithDocument(c: Collection, document: Document): Result<Collection, TaxError> {
    match document
    case SetAside(_) => Success(c)
    case Unreadable(name) => Success(c.(needsInput := c.needsInput + {name}))
    case Typed(_, items, proofRef) => Charged(c, TypedResult(items), proofRef)
    case Read(name, result, proofRef) =>
      if result.status.NeedsInput? then Success(c.(needsInput := c.needsInput + {name}))
      else Charged(c, result, proofRef)
  }

  function Collected(documents: seq<Document>): Result<Collection, TaxError> {
    if documents == [] then Success(Collection([], {}))
    else
      var front := Collected(documents[..|documents| - 1]);
      if front.Failure? then front else WithDocument(front.value, documents[|documents| - 1])
  }

  function ItemsOf(pieces: seq<Piece>): (items: seq<ExtractedItem>)
    ensures |items| == |pieces|
  {
    seq(|pieces|, i requires 0 <= i < |pieces| => pieces[i].item)
  }

  // Drafting

  /** Drafting rejects another person's expense, records what the company paid, and allows the rest. */
  function DraftStatus(item: ExtractedItem): LineStatus {
    if item.thirdParty then LineStatus.Rejected
    else if item.companyPaid then LineStatus.Memo
    else LineStatus.Allowed
  }

  function PresetOf(item: ExtractedItem, withdrawn: set<string>): Option<LineStatus> {
    if item.description in withdrawn then Some(LineStatus.Withdrawn)
    else if DraftStatus(item).Rejected? || DraftStatus(item).Memo? then Some(DraftStatus(item))
    else None
  }

  function LineOf(piece: Piece): Line {
    Line(piece.item.head, piece.item.description, piece.item.gross,
         if piece.item.companyPaid then ByCompany else ByEmployee,
         if piece.item.TxnDay().Some? then Some(piece.item.TxnDay().value.number) else None,
         piece.taxShare, piece.item.nights, Some(piece.proofRef))
  }

  function KeptPieces(pieces: seq<Piece>): (kept: seq<Piece>) {
    Pick(pieces, Kept(Fingerprints(ItemsOf(pieces))))
  }

  function EntriesOf(kept: seq<Piece>, withdrawn: set<string>): (entries: seq<Entry>)
    ensures |entries| == |kept|
    ensures forall i :: 0 <= i < |kept| ==> entries[i] == Entry(LineOf(kept[i]), PresetOf(kept[i].item, withdrawn))
  {
    seq(|kept|, i requires 0 <= i < |kept| => Entry(LineOf(kept[i]), PresetOf(kept[i].item, withdrawn)))
  }

  /** The pipeline never says who attended an entertainment, nor that it was approved beforehand. */
  function SettingsFor(request: Request, policy: PolicyVersion): Settings {
    Settings(policy.rules, request.cityClass, [], false)
  }

  function OutcomesOf(request: Request, policy: PolicyVersion, pieces: seq<Piece>, withdrawn: set<string>):
    seq<LineOutcome>
  {
    Outcomes(EntriesOf(KeptPieces(pieces), withdrawn), SettingsFor(request, policy), map[])
  }

  ghost function Drafted(request: Request, policy: PolicyVersion, directory: Directory, withdrawn: set<string>):
    Result<ClaimDraft, BuildError>
  {
    var collected := Collected(request.documents);
    if collected.Failure? then Failure(Unapportioned(collected.error))
    else
      var outcomes := OutcomesOf(request, policy, collected.value.pieces, withdrawn);
      var summary := Summarise(outcomes, Sum(request.advances));
      var chain := ChainOf(summary.netReimbursable, request.claimant, directory, policy.routing);
      if chain.Failure? then Failure(Unrouted(chain.error))
      else Success(ClaimDraft(outcomes, summary, chain.value, collected.value.needsInput))
  }

  // The pipeline itself

  /** Parallel lists hold the same lines as the pieces do. */
  predicate Parallel(pieces: seq<Piece>, items: seq<ExtractedItem>, taxShares: seq<int>, proofs: seq<string>) {
    && |pieces| == |items| == |taxShares| == |proofs|
    && forall i :: 0 <= i < |pieces| ==> pieces[i] == Piece(items[i], taxShares[i], proofs[i])
  }

  method AppendCharges(charges: seq<Charge>, proofRef: string, items: seq<ExtractedItem>, taxShares: seq<int>,
                       proofs: seq<string>, ghost pieces: seq<Piece>)
    returns (items': seq<ExtractedItem>, taxShares': seq<int>, proofs': seq<string>)
    requires Parallel(pieces, items, taxShares, proofs)
    ensures Parallel(pieces + PiecesOf(charges, proofRef), items', taxShares', proofs')
  {
    items', taxShares', proofs' := items, taxShares, proofs;
    for k := 0 to |charges|
      invariant Parallel(pieces + PiecesOf(charges, proofRef)[..k], items', taxShares', proofs')
    {
      items' := items' + [charges[k].item];
      taxShares' := taxShares' + [charges[k].taxShare];
      proofs' := proofs' + [proofRef];
    }
    assert PiecesOf(charges, proofRef)[..|charges|] == PiecesOf(charges, proofRef);
  }

  method CollectDocuments(documents: seq<Document>)
    returns (r: Result<(seq<ExtractedItem>, seq<int>, seq<string>, set<string>), TaxError>)
    ensures r.Failure? <==> Collected(documents).Failure?
    ensures r.Failure? ==> r.error == Collected(documents).error
    ensures r.Success? ==>
              && Parallel(Collected(documents).value.pieces, r.value.0, r.value.1, r.value.2)
              && r.value.3 == Collected(documents).value.needsInput
  {
    var items: seq<ExtractedItem>, taxShares: seq<int>, proofs: seq<string> := [], [], [];
    var needsInput: set<string> := {};
    for i := 0 to |documents|
      invariant Collected(documents[..i]).Success?
      invariant Parallel(Collected(documents[..i]).value.pieces, items, taxShares, proofs)
      invariant needsInput == Collected(documents[..i]).value.needsInput
    {
      assert documents[..i + 1][..i] == documents[..i];
      var document := documents[i];
      if document.SetAside? {
        continue;
      }
      if document.Unreadable? || (document.Read? && document.result.status.NeedsInput?) {
        needsInput := needsInput + {document.name};
        continue;
      }
      var result := if document.Typed? then TypedResult(document.items) else document.result;
      var charges := WithTaxShares(result);
      if charges.Failure? {
        FailureStays(documents, i + 1);
        return Failure(charges.error);
      }
      items, taxShares, proofs := AppendCharges(charges.value, document.proofRef, items, taxShares, proofs,
                                                Collected(documents[..i]).value.pieces);
    }
    assert documents[..|documents|] == documents;
    return Success((items, taxShares, proofs, needsInput));
  }

  /** Once a bill cannot be apportioned the whole draft fails, whatever follows. */
  lemma {:induction false} FailureStays(documents: seq<Document>, k: nat)
    requires k <= |documents| && Collected(documents[..k]).Failure?
    ensures Collected(documents) == Collected(documents[..k])
    decreases |documents|
  {
    if k == |documents| {
      assert documents[..k] == documents;
    } else {
      var front := documents[..|documents| - 1];
      assert front[..k] == documents[..k];
      FailureStays(front, k);
    }
  }

  /** The kept lines drafted in order, with the statuses already settled for them by position. */
  method DraftLines(ghost pieces: seq<Piece>, kept: seq<nat>, items: seq<ExtractedItem>, taxShares: seq<int>,
                    proofs: seq<string>, withdrawn: set<string>)
    returns (lines: seq<Line>, presets: map<nat, LineStatus>)
    requires Parallel(pieces, items, taxShares, proofs)
    requires forall k :: 0 <= k < |kept| ==> kept[k] < |pieces|
    ensures Entries(lines, presets) == EntriesOf(Pick(pieces, kept), withdrawn)
  {
    lines, presets := [], map[];
    for position := 0 to |kept|
      invariant |lines| == position
      invariant forall p :: 0 <= p < position ==> lines[p] == LineOf(pieces[kept[p]])
      invariant forall p: nat :: p in presets ==> p < position
      invariant forall p: nat :: p < position ==>
                  (if p in presets then Some(presets[p]) else None) == PresetOf(items[kept[p]], withdrawn)
    {
      var index := kept[position];
      var item := items[index];
      if item.description in withdrawn {
        presets := presets[position := LineStatus.Withdrawn];
      } else if DraftStatus(item).Rejected? || DraftStatus(item).Memo? {
        presets := presets[position := DraftStatus(item)];
      }
      lines := lines + [LineOf(Piece(item, taxShares[index], proofs[index]))];
    }
  }

  method BuildClaim(request: Request, policy: PolicyVersion, directory: Directory, withdrawn: set<string>)
    returns (r: Result<ClaimDraft, BuildError>)
    ensures r == Drafted(request, policy, directory, withdrawn)
  {
    var collected := CollectDocuments(request.documents);
    if collected.Failure? {
      return Failure(Unapportioned(collected.error));
    }
    var (items, taxShares, proofs, needsInput) := collected.value;
    ghost var pieces := Collected(request.documents).value.pieces;
    assert ItemsOf(pieces) == items;
    var dedup := FindDuplicates(items);
    var lines, presets := DraftLines(pieces, dedup.kept, items, taxShares, proofs, withdrawn);
    var context := new EvaluationContext(SettingsFor(request, policy));
    var outcomes := EvaluateLines(lines, context, presets);
    assert outcomes == OutcomesOf(request, policy, pieces, withdrawn);
    var summary := Summarise(outcomes, Sum(request.advances));
    var chain := ResolveChain(summary.netReimbursable, request.claimant, directory, policy.routing);
    if chain.Failure? {
      return Failure(Unrouted(chain.error));
    }
    return Success(ClaimDraft(outcomes, summary, chain.value, needsInput));
  }

  // What every draft promises

  /** Drafting and withdrawal between them set aside every line the company paid. */
  lemma CompanyPaidIsSetAside(kept: seq<Piece>, withdrawn: set<string>)
    ensures CompanyLinesAreSettled(EntriesOf(kept, withdrawn))
  {
  }

  /**
   * A draft's net is the sum of what its lines are allowed, never negative, and is settled against
   * the advance on one side only.
   */
  lemma DraftNetIsWhatIsAllowed(request: Request, policy: PolicyVersion, directory: Directory, withdrawn: set<string>)
    ensures Drafted(request, policy, directory, withdrawn).Success? ==>
              var d := Drafted(request, policy, directory, withdrawn).value;
              && d.summary.netReimbursable == SumBy(AllowedOf(), d.outcomes) >= 0
              && d.summary.payable - d.summary.recoverable == d.summary.netReimbursable - Sum(request.advances)
              && (d.summary.payable == 0 || d.summary.recoverable == 0)
  {
    if Drafted(request, policy, directory, withdrawn).Success? {
      OutcomesNetIsWhatIsAllowed(request, policy, withdrawn);
    }
  }

  lemma OutcomesNetIsWhatIsAllowed(request: Request, policy: PolicyVersion, withdrawn: set<string>)
    requires Collected(request.documents).Success?
    ensures var outcomes := OutcomesOf(request, policy, Collected(request.documents).value.pieces, withdrawn);
      var summary := Summarise(outcomes, Sum(request.advances));
      && summary.netReimbursable == SumBy(AllowedOf(), outcomes) >= 0
      && summary.payable - summary.recoverable == summary.netReimbursable - Sum(request.advances)
      && (summary.payable == 0 || summary.recoverable == 0)
  {
    var kept := KeptPieces(Collected(request.documents).value.pieces);
    var entries, s := EntriesOf(kept, withdrawn), SettingsFor(request, policy);
    CompanyPaidIsSetAside(kept, withdrawn);
    NetIsWhatWasAllowed(entries, s, map[], Sum(request.advances));
    SettlementBalances(Outcomes(entries, s, map[]), Sum(request.advances));
  }

  // What becomes of each kept piece

  /** Left to the rules: not withdrawn, the claimant's own, and not paid by the company. */
  predicate IsJudged(item: ExtractedItem, withdrawn: set<string>) {
    item.description !in withdrawn && !item.thirdParty && !item.companyPaid
  }

  /** The number of the day stated, or else of the timestamp's day. */
  function DayNumber(item: ExtractedItem): Option<int> {
    match (item.txnDate, item.txnDatetime)
    case (Some(d), _) => Some(d.number)
    case (None, Some(t)) => Some(t.day.number)
    case (None, None) => None
  }

  predicate StandsFor(line: Line, piece: Piece) {
    && line.head == piece.item.head && line.description == piece.item.description
    && line.gross == piece.item.gross && line.taxShare == piece.taxShare
    && (line.paidBy.ByCompany? <==> piece.item.companyPaid)
    && line.date == DayNumber(piece.item) && line.nights == piece.item.nights
    && line.proofRef == Some(piece.proofRef)
  }

  /** Set aside for one stated reason, with no money. */
  predicate IsSetAside(o: LineOutcome, status: LineStatus, why: Decision) {
    o.status == status && o.allowed == 0 && o.disallowed == 0 && o.decisions == [why]
  }

  /** What the meals before the `k`-th line were allowed on its day. */
  function AllowedBefore(outcomes: seq<LineOutcome>, k: nat): int
    requires k < |outcomes|
  {
    if outcomes[k].line.date.Some? then SumBy(MealGot(outcomes[k].line.date.value), outcomes[..k]) else 0
  }

  /**
   * Every kept piece becomes the line it stands for. One withdrawn by its description is withdrawn;
   * else one that is another person's expense is rejected, whoever paid; else one the company paid is
   * a memo; none of these carries money. Any other is judged by the rules of the policy version for
   * the request's city class, after the meals of its day that come before it.
   */
  lemma EachKeptPieceHasItsOutcome(request: Request, policy: PolicyVersion, directory: Directory,
                                   withdrawn: set<string>, k: nat)
    requires Drafted(request, policy, directory, withdrawn).Success?
    requires k < |KeptPieces(Collected(request.documents).value.pieces)|
    ensures var kept := KeptPieces(Collected(request.documents).value.pieces);
      var outcomes := Drafted(request, policy, directory, withdrawn).value.outcomes;
      && |outcomes| == |kept|
      && StandsFor(outcomes[k].line, kept[k])
      && var item, o := kept[k].item, outcomes[k];
         && (item.description in withdrawn ==>
               IsSetAside(o, LineStatus.Withdrawn, Decision(LineWithdrawn, Inform, 0)))
         && (item.description !in withdrawn && item.thirdParty ==>
               IsSetAside(o, LineStatus.Rejected, Decision(ThirdPartyClaimant, Outcome.Reject, 0)))
         && (item.description !in withdrawn && !item.thirdParty && item.companyPaid ==>
               IsSetAside(o, LineStatus.Memo, Decision(AirCompanyBorne, Inform, 0)))
         && (IsJudged(item, withdrawn) ==>
               o == Evaluated(o.line, Settings(policy.rules, request.cityClass, [], false), AllowedBefore(outcomes, k)))
  {
    var kept := KeptPieces(Collected(request.documents).value.pieces);
    var entries, s := EntriesOf(kept, withdrawn), SettingsFor(request, policy);
    assert s == Settings(policy.rules, request.cityClass, [], false);
    EntryHasItsOutcome(entries, s, k);
    PieceIsSettledBy(kept[k], withdrawn);
  }

  lemma EntryHasItsOutcome(entries: seq<Entry>, s: Settings, k: nat)
    requires k < |entries|
    ensures var outcomes := Outcomes(entries, s, map[]);
      && outcomes[k].line == entries[k].line
      && outcomes[k] == OutcomeOf(entries[k], s, AllowedBefore(outcomes, k))
  {
    EveryOutcomeBalances(entries, s, map[], k);
    if entries[k].line.date.Some? {
      AlreadyIsWhatMealsGot(entries, s, entries[k].line.date.value, k);
    }
  }

  lemma PieceIsSettledBy(piece: Piece, withdrawn: set<string>)
    ensures StandsFor(LineOf(piece), piece)
    ensures var preset := PresetOf(piece.item, withdrawn);
      && (preset == Some(LineStatus.Withdrawn) <==> piece.item.description in withdrawn)
      && (preset == Some(LineStatus.Rejected) <==> piece.item.description !in withdrawn && piece.item.thirdParty)
      && (preset == Some(LineStatus.Memo)
          <==> piece.item.description !in withdrawn && !piece.item.thirdParty && piece.item.companyPaid)
      && (preset == None <==> IsJudged(piece.item, withdrawn))
  {
  }

  function JudgedClaim(withdrawn: set<string>): Piece -> int {
    (p: Piece) => if IsJudged(p.item, withdrawn) then p.item.gross + p.taxShare else 0
  }

  function CompanyClaim(): Piece -> int {
    (p: Piece) => if p.item.companyPaid then p.item.gross + p.taxShare else 0
  }

  /** The gross is what the pieces left to the rules claim, and the memo what the company's do. */
  lemma DraftGrossIsWhatIsJudged(request: Request, policy: PolicyVersion, directory: Directory,
                                 withdrawn: set<string>)
    requires Drafted(request, policy, directory, withdrawn).Success?
    ensures var kept := KeptPieces(Collected(request.documents).value.pieces);
      var summary := Drafted(request, policy, directory, withdrawn).value.summary;
      && summary.employeePaidGross == SumBy(JudgedClaim(withdrawn), kept)
      && summary.companyPaidMemo == SumBy(CompanyClaim(), kept)
  {
    PiecesGross(KeptPieces(Collected(request.documents).value.pieces), withdrawn, SettingsFor(request, policy),
                Sum(request.advances));
  }

  lemma PiecesGross(kept: seq<Piece>, withdrawn: set<string>, s: Settings, advance: int)
    ensures var summary := Summarise(Outcomes(EntriesOf(kept, withdrawn), s, map[]), advance);
      && summary.employeePaidGross == SumBy(JudgedClaim(withdrawn), kept)
      && summary.companyPaidMemo == SumBy(CompanyClaim(), kept)
  {
    var entries := EntriesOf(kept, withdrawn);
    GrossOfEntries(entries, s, map[]);
    forall i | 0 <= i < |kept|
      ensures UnsettledEmployee()(entries[i]) == JudgedClaim(withdrawn)(kept[i])
    {
      PieceIsSettledBy(kept[i], withdrawn);
    }
    SumByCongruent(UnsettledEmployee(), entries, JudgedClaim(withdrawn), kept);
    SumByCongruent(CompanyClaimable(), entries, CompanyClaim(), kept);
  }

  /** What a piece is worth as a meal of a day: nothing when it is set aside or in an excluded category. */
  function MealWorth(withdrawn: set<string>, s: Settings, day: int): Piece -> int {
    (p: Piece) =>
      if IsJudged(p.item, withdrawn) && p.item.head.Meals? && DayNumber(p.item) == Some(day)
         && !IsCaught(LineOf(p), s)
      then Max(p.item.gross + p.taxShare, 0) else 0
  }

  /**
   * On every day a draft's meals are allowed between them what they are worth, or the daily limit of
   * the policy version for the request's city class when that is less.
   */
  lemma DraftMealsFillTheCap(request: Request, policy: PolicyVersion, directory: Directory, withdrawn: set<string>,
                             day: int)
    requires Drafted(request, policy, directory, withdrawn).Success?
    requires request.cityClass in policy.rules.mealLimits
    ensures var kept := KeptPieces(Collected(request.documents).value.pieces);
      SumBy(MealGot(day), Drafted(request, policy, directory, withdrawn).value.outcomes)
      == Min(Max(policy.rules.mealLimits[request.cityClass], 0),
             SumBy(MealWorth(withdrawn, Settings(policy.rules, request.cityClass, [], false), day), kept))
  {
    var kept := KeptPieces(Collected(request.documents).value.pieces);
    var entries, s := EntriesOf(kept, withdrawn), SettingsFor(request, policy);
    var outcomes := Outcomes(entries, s, map[]);
    AlreadyIsWhatMealsGot(entries, s, day, |entries|);
    DayTotalClosedForm(entries, s, day, |entries|);
    assert outcomes[..|entries|] == outcomes && entries[..|entries|] == entries;
    MealWorthOfEntries(kept, withdrawn, s, day);
  }

  lemma MealWorthOfEntries(kept: seq<Piece>, withdrawn: set<string>, s: Settings, day: int)
    requires s.cityClass in s.params.mealLimits
    ensures DayWorth(EntriesOf(kept, withdrawn), s, day) == SumBy(MealWorth(withdrawn, s, day), kept)
  {
    var entries := EntriesOf(kept, withdrawn);
    forall i | 0 <= i < |kept|
      ensures MealOn(s, day)(entries[i]) == MealWorth(withdrawn, s, day)(kept[i])
    {
      PieceIsSettledBy(kept[i], withdrawn);
    }
    SumByCongruent(MealOn(s, day), entries, MealWorth(withdrawn, s, day), kept);
  }

  // Where each piece comes from

  /** Documents are collected in order: what some yield stands before what later ones do. */
  lemma {:induction false} CollectedInOrder(before: seq<Document>, after: seq<Document>)
    ensures Collected(before + after).Success? <==> Collected(before).Success? && Collected(after).Success?
    ensures Collected(before + after).Success? ==>
              var b, a := Collected(before).value, Collected(after).value;
              Collected(before + after).value == Collection(b.pieces + a.pieces, b.needsInput + a.needsInput)
    decreases |after|
  {
    if after == [] {
      assert before + after == before;
      if Collected(before).Success? {
        var b := Collected(before).value;
        assert Collection(b.pieces + [], b.needsInput + {}) == b;
      }
    } else {
      var n := |after| - 1;
      CollectedInOrder(before, after[..n]);
      assert (before + after)[..|before + after| - 1] == before + after[..n];
      if Collected(before).Success? && Collected(after[..n]).Success? {
        DocumentAddsToAny(Collected(before).value, Collected(after[..n]).value, after[n]);
      }
    }
  }

  /** What a document adds does not depend on what was collected before it. */
  lemma DocumentAddsToAny(b: Collection, a: Collection, document: Document)
    ensures var r := WithDocument(Collection(b.pieces + a.pieces, b.needsInput + a.needsInput), document);
      && (r.Success? <==> WithDocument(a, document).Success?)
      && (r.Success? ==>
            r.value == Collection(b.pieces + WithDocument(a, document).value.pieces,
                                  b.needsInput + WithDocument(a, document).value.needsInput))
  {
    var r := WithDocument(Collection(b.pieces + a.pieces, b.needsInput + a.needsInput), document);
    if r.Success? {
      assert r.value.needsInput == b.needsInput + WithDocument(a, document).value.needsInput;
      assert r.value.pieces == b.pieces + WithDocument(a, document).value.pieces;
    }
  }

  /** The figures a document is charged by, when it yields any: as read, or as typed with no totals. */
  predicate Yields(document: Document, items: seq<ExtractedItem>, tax: int, proofRef: string) {
    match document
    case SetAside(_) => false
    case Unreadable(_) => false
    case Typed(_, typed, proof) => items == typed && tax == 0 && proofRef == proof
    case Read(_, result, proof) =>
      !result.status.NeedsInput? && items == result.items && proofRef == proof && tax == TaxStated(result)
  }

  /**
   * One document yields a piece for each of its items, in order, with the document's own proof and
   * the item's own share of the tax by which the stated total exceeds the subtotal. Promotions and
   * the like yield nothing; a document that could not be read is listed; and tax over lines that
   * come to nothing cannot be shared out.
   */
  lemma DocumentYieldsItsItems(document: Document, items: seq<ExtractedItem>, tax: int, proofRef: string)
    requires Yields(document, items, tax, proofRef)
    ensures Collected([document]).Failure? <==> items != [] && tax > 0 && Sum(Evidence.Amounts(items)) == 0
    ensures Collected([document]).Success? ==>
              && Collected([document]).value.needsInput == {}
              && |Collected([document]).value.pieces| == |items|
              && forall i :: 0 <= i < |items| ==>
                   && Collected([document]).value.pieces[i].item == items[i]
                   && Collected([document]).value.pieces[i].proofRef == proofRef
                   && IsShareOf(Collected([document]).value.pieces[i].taxShare, items, tax, i)
  {
    var result := if document.Typed? then TypedResult(document.items) else document.result;
    CollectedAlone(document);
    ChargedAlone(result, items, tax, proofRef);
  }

  lemma CollectedAlone(document: Document)
    ensures Collected([document]) == WithDocument(Collection([], {}), document)
  {
    assert [document][..0] == [];
  }

  lemma ChargedAlone(result: ExtractionResult, items: seq<ExtractedItem>, tax: int, proofRef: string)
    requires items == result.items && tax == TaxStated(result)
    ensures var r := Charged(Collection([], {}), result, proofRef);
      && (r.Failure? <==> items != [] && tax > 0 && Sum(Evidence.Amounts(items)) == 0)
      && (r.Success? ==>
            && r.value.needsInput == {} && |r.value.pieces| == |items|
            && forall i :: 0 <= i < |items| ==>
                 && r.value.pieces[i].item == items[i] && r.value.pieces[i].proofRef == proofRef
                 && IsShareOf(r.value.pieces[i].taxShare, items, tax, i))
  {
    LinesCarryTheirOwnShares(result);
    var charges := WithTaxShares(result);
    if charges.Success? {
      assert [] + PiecesOf(charges.value, proofRef) == PiecesOf(charges.value, proofRef);
    }
  }

  lemma OtherDocumentsYieldNothing(document: Document)
    ensures document.SetAside? ==> Collected([document]) == Success(Collection([], {}))
    ensures IsUnread(document) ==> Collected([document]) == Success(Collection([], {document.name}))
  {
    CollectedAlone(document);
    assert {} + {document.name} == {document.name};
  }

  // Conservation from the documents to the draft

  function PieceClaim(): Piece -> int {
    (p: Piece) => p.item.gross + p.taxShare
  }

  function EntryClaim(): Entry -> int {
    (e: Entry) => e.line.Claimable()
  }

  function SetAsideClaim(): Entry -> int {
    (e: Entry) => if IsSettled(e) then e.line.Claimable() else 0
  }

  function DuplicatePieces(pieces: seq<Piece>): seq<Piece> {
    var keys := Fingerprints(ItemsOf(pieces));
    GrossIsConserved(PieceClaim(), pieces, keys);
    Pick(pieces, Indices(Suppressed(keys)))
  }

  /**
   * Every paisa collected from the documents ends in exactly one place: the net, the disallowed
   * total, a line set aside, or a suppressed duplicate.
   */
  lemma EveryPaisaIsAccountedFor(request: Request, policy: PolicyVersion, directory: Directory, withdrawn: set<string>)
    ensures Drafted(request, policy, directory, withdrawn).Success? ==>
              var pieces := Collected(request.documents).value.pieces;
              var summary := Drafted(request, policy, directory, withdrawn).value.summary;
              SumBy(PieceClaim(), pieces)
              == summary.netReimbursable + summary.disallowedTotal
                 + SumBy(SetAsideClaim(), EntriesOf(KeptPieces(pieces), withdrawn))
                 + SumBy(PieceClaim(), DuplicatePieces(pieces))
  {
    if Drafted(request, policy, directory, withdrawn).Success? {
      var pieces := Collected(request.documents).value.pieces;
      GrossIsConserved(PieceClaim(), pieces, Fingerprints(ItemsOf(pieces)));
      KeptPaiseAreAccountedFor(KeptPieces(pieces), withdrawn, SettingsFor(request, policy));
      OutcomesNetIsWhatIsAllowed(request, policy, withdrawn);
    }
  }

  lemma KeptPaiseAreAccountedFor(kept: seq<Piece>, withdrawn: set<string>, s: Settings)
    ensures var entries := EntriesOf(kept, withdrawn);
      SumBy(PieceClaim(), kept)
      == SumBy(AllowedOf(), Outcomes(entries, s, map[])) + SumBy(CountedDisallowed(), Outcomes(entries, s, map[]))
         + SumBy(SetAsideClaim(), entries)
  {
    var entries := EntriesOf(kept, withdrawn);
    SumByCongruent(PieceClaim(), kept, EntryClaim(), entries);
    SumByAdds(Unsettled(), SetAsideClaim(), EntryClaim(), entries);
    SumByAdds(UnsettledEmployee(), UnsettledCompany(), Unsettled(), entries);
    AllowedAndDisallowedAddUp(entries, s, map[]);
  }

  // From what the bills state

  /** What an accepted document states: a bill with both totals its total, any other its lines. */
  function StatedBy(document: Document): int {
    match document
    case SetAside(_) => 0
    case Unreadable(_) => 0
    case Typed(_, items, _) => Sum(Evidence.Amounts(items))
    case Read(_, result, _) =>
      if result.status.NeedsInput? then 0
      else if result.statedSubtotal.Some? && result.statedTotal.Some? then result.statedTotal.value
      else Sum(Evidence.Amounts(result.items))
  }

  function Stated(): Document -> int {
    (document: Document) => StatedBy(document)
  }

  /** A bill with both totals came through the guard, and its total can be reached from its lines. */
  predicate CanClaimItsTotal(result: ExtractionResult) {
    var subtotal, total := result.statedSubtotal, result.statedTotal;
    subtotal.Some? && total.Some? ==>
      && result == FromItems(result.items, subtotal, total, None)
      && (total.value == subtotal.value || (total.value > subtotal.value && subtotal.value != 0))
  }

  predicate CanClaimWhatItStates(document: Document) {
    document.Read? && document.result.status.Extracted? ==> CanClaimItsTotal(document.result)
  }

  lemma PiecesClaimTheirCharges(charges: seq<Charge>, proofRef: string)
    ensures SumBy(PieceClaim(), PiecesOf(charges, proofRef)) == SumBy(ClaimableOf(), charges)
  {
    SumByCongruent(PieceClaim(), PiecesOf(charges, proofRef), ClaimableOf(), charges);
  }

  lemma ResultClaimsWhatItStates(result: ExtractionResult)
    requires result.status.Extracted? && CanClaimItsTotal(result) && WithTaxShares(result).Success?
    ensures SumBy(ClaimableOf(), WithTaxShares(result).value)
         == if result.statedSubtotal.Some? && result.statedTotal.Some? then result.statedTotal.value
            else Sum(Evidence.Amounts(result.items))
  {
    if result.statedSubtotal.Some? && result.statedTotal.Some? {
      BillIsConserved(result.items, result.statedSubtotal.value, result.statedTotal.value);
    } else {
      UntaxedTotal(result.items);
    }
  }

  lemma DocumentClaimsWhatItStates(c: Collection, document: Document)
    requires CanClaimWhatItStates(document) && WithDocument(c, document).Success?
    ensures SumBy(PieceClaim(), WithDocument(c, document).value.pieces)
         == SumBy(PieceClaim(), c.pieces) + StatedBy(document)
  {
    if document.Typed? || (document.Read? && document.result.status.Extracted?) {
      var result := if document.Typed? then TypedResult(document.items) else document.result;
      ResultClaimsWhatItStates(result);
      PiecesClaimTheirCharges(WithTaxShares(result).value, document.proofRef);
      SumByConcat(PieceClaim(), c.pieces, PiecesOf(WithTaxShares(result).value, document.proofRef));
    }
  }

  lemma {:induction false} CollectedClaimsWhatIsStated(documents: seq<Document>)
    requires forall i :: 0 <= i < |documents| ==> CanClaimWhatItStates(documents[i])
    requires Collected(documents).Success?
    ensures SumBy(PieceClaim(), Collected(documents).value.pieces) == SumBy(Stated(), documents)
  {
    if documents != [] {
      var n := |documents| - 1;
      CollectedClaimsWhatIsStated(documents[..n]);
      DocumentClaimsWhatItStates(Collected(documents[..n]).value, documents[n]);
    }
  }

  /**
   * From the bills to the settlement: what the accepted documents state is the net, what was
   * disallowed, what was set aside and what was a duplicate, to the paisa.
   */
  lemma StatedTotalsAreAccountedFor(request: Request, policy: PolicyVersion, directory: Directory,
                                    withdrawn: set<string>)
    requires forall i :: 0 <= i < |request.documents| ==> CanClaimWhatItStates(request.documents[i])
    ensures Drafted(request, policy, directory, withdrawn).Success? ==>
              var pieces := Collected(request.documents).value.pieces;
              var summary := Drafted(request, policy, directory, withdrawn).value.summary;
              SumBy(Stated(), request.documents)
              == summary.netReimbursable + summary.disallowedTotal
                 + SumBy(SetAsideClaim(), EntriesOf(KeptPieces(pieces), withdrawn))
                 + SumBy(PieceClaim(), DuplicatePieces(pieces))
  {
    if Drafted(request, policy, directory, withdrawn).Success? {
      CollectedClaimsWhatIsStated(request.documents);
      EveryPaisaIsAccountedFor(request, policy, directory, withdrawn);
    }
  }

  // The spreadsheet

  /** Memo rows come only from drafting, so they are always company-paid. */
  lemma MemoRowsAreCompanyPaid(kept: seq<Piece>, withdrawn: set<string>, s: Settings)
    ensures MemoIsCompanyPaid(Outcomes(EntriesOf(kept, withdrawn), s, map[]))
  {
    var entries := EntriesOf(kept, withdrawn);
    forall i | 0 <= i < |entries| && Outcomes(entries, s, map[])[i].status.Memo?
      ensures entries[i].line.paidBy.ByCompany? && Outcomes(entries, s, map[])[i].line == entries[i].line
    {
      EveryOutcomeBalances(entries, s, map[], i);
    }
  }

  /**
   * For every draft that fits the form, the form's own arithmetic arrives at what the employee paid,
   * the net, the payable and the recoverable amount. It arrives at the company memo exactly when the
   * company-paid lines left off the form come to nothing.
   */
  lemma ExportedDraftAgrees(request: Request, policy: PolicyVersion, directory: Directory, withdrawn: set<string>,
                            cells: map<Cell, Value>, trip: Trip)
    requires Drafted(request, policy, directory, withdrawn).Success?
    requires BlankTemplate(cells) && Fits(Drafted(request, policy, directory, withdrawn).value.outcomes)
    ensures var d := Drafted(request, policy, directory, withdrawn).value;
      var exported := Exported(cells, d.outcomes, d.summary, trip);
      && EmployeePaid(exported) == d.summary.employeePaidGross
      && NetOnForm(exported) == d.summary.netReimbursable
      && PayableOnForm(exported) == d.summary.payable
      && RecoverableOnForm(exported) == d.summary.recoverable
      && CompanyPaid(exported) + SumBy(CompanyOffForm(), d.outcomes) == d.summary.companyPaidMemo
      && (CompanyPaid(exported) == d.summary.companyPaidMemo <==> SumBy(CompanyOffForm(), d.outcomes) == 0)
  {
    var d := Drafted(request, policy, directory, withdrawn).value;
    CompanyRowAgreesExactly(cells, d.outcomes, Sum(request.advances), trip);
    MemoRowsAreCompanyPaid(KeptPieces(Collected(request.documents).value.pieces), withdrawn,
                           SettingsFor(request, policy));
    WorkbookAgreesWithSummary(cells, d.outcomes, Sum(request.advances), trip);
  }

  // Withdrawal

  lemma WithdrawingMore(kept: seq<Piece>, withdrawn: set<string>, more: set<string>)
    requires withdrawn <= more
    ensures Withdrawing(EntriesOf(kept, withdrawn), EntriesOf(kept, more))
  {
  }

  /**
   * Withdrawing more lines never raises the net or the payable amount. When the bands meet at every
   * paisa and each asks at least what the one below it asks, the claim still routes, through no more
   * levels, asking nobody who was not asked already.
   */
  lemma WithdrawalIsMonotone(request: Request, policy: PolicyVersion, directory: Directory,
                             withdrawn: set<string>, more: set<string>)
    requires withdrawn <= more && Drafted(request, policy, directory, withdrawn).Success?
    ensures var before := Drafted(request, policy, directory, withdrawn);
      var after := Drafted(request, policy, directory, more);
      && (after.Success? ==>
            && 0 <= after.value.summary.netReimbursable <= before.value.summary.netReimbursable
            && after.value.summary.payable <= before.value.summary.payable
            && after.value.summary.recoverable >= before.value.summary.recoverable)
      && (Contiguous(policy.routing.matrix) && Nested(policy.routing.matrix) ==>
            && after.Success?
            && |after.value.chain| <= |before.value.chain|
            && Asked(after.value.chain) <= Asked(before.value.chain))
  {
    var kept := KeptPieces(Collected(request.documents).value.pieces);
    var s := SettingsFor(request, policy);
    var entries, entries' := EntriesOf(kept, withdrawn), EntriesOf(kept, more);
    CompanyPaidIsSetAside(kept, withdrawn);
    WithdrawingMore(kept, withdrawn, more);
    WithdrawalNeverRaisesTheNet(entries, entries', s, Sum(request.advances));
    if Contiguous(policy.routing.matrix) && Nested(policy.routing.matrix) {
      SmallerValueAsksNobodyNew(Summarise(Outcomes(entries', s, map[]), Sum(request.advances)).netReimbursable,
                                Summarise(Outcomes(entries, s, map[]), Sum(request.advances)).netReimbursable,
                                request.claimant, directory, policy.routing);
    }
  }

  /** What a request's lines come to under a withdrawal, whether or not that can be routed. */
  function NetUnder(request: Request, policy: PolicyVersion, withdrawn: set<string>): int
    requires Collected(request.documents).Success?
  {
    Summarise(OutcomesOf(request, policy, Collected(request.documents).value.pieces, withdrawn), Sum(request.advances))
    .netReimbursable
  }

  predicate IsCovered(value: int, matrix: seq<Band>) {
    exists i :: 0 <= i < |matrix| && Covers(matrix[i], value)
  }

  /** The values the shipped bands leave out. */
  predicate InAShippedGap(value: int) {
    2500000 < value < 2500100 || 7500000 < value < 7500100 || 20000000 < value < 20000100
  }

  /**
   * A draft that built still builds under any other withdrawal exactly when some band covers what is
   * then left; under the shipped bands it is lost exactly when that falls in one of their gaps.
   */
  lemma WithdrawalRoutesExactly(request: Request, policy: PolicyVersion, directory: Directory,
                                withdrawn: set<string>, more: set<string>)
    ensures Drafted(request, policy, directory, withdrawn).Success? ==>
              && (Drafted(request, policy, directory, more).Success?
                  <==> IsCovered(NetUnder(request, policy, more), policy.routing.matrix))
              && (policy.routing.matrix == SHIPPED_MATRIX ==>
                    (Drafted(request, policy, directory, more).Failure?
                     <==> InAShippedGap(NetUnder(request, policy, more))))
  {
    if Drafted(request, policy, directory, withdrawn).Success? {
      var net := NetUnder(request, policy, more);
      DraftRoutesByItsNet(request, policy, directory, more, net);
      assert RolesForValue(net, policy.routing.matrix).Success? <==> IsCovered(net, policy.routing.matrix);
      OutcomesNetIsWhatIsAllowed(request, policy, more);
      ShippedMatrixGaps(net);
    }
  }

  function AugustTenth(): Day {
    Day(739838, "2026-08-10")
  }

  /** Two lines of which withdrawing the second leaves a net between two of the shipped bands. */
  function TwoLines(): seq<ExtractedItem> {
    [ExtractedItem(2500050, "visa", None, Some(AugustTenth()), None, None, None, Misc, false, false),
     ExtractedItem(99950, "porterage", None, Some(AugustTenth()), None, None, None, Misc, false, false)]
  }

  function TwoPieces(): seq<Piece> {
    [Piece(TwoLines()[0], 0, "bill"), Piece(TwoLines()[1], 0, "bill")]
  }

  function TwoLineRequest(claimant: EmployeeRef): Request {
    Request(claimant, "", [Typed("bill", TwoLines(), "bill")], [])
  }

  predicate IsPlain(piece: Piece) {
    && piece.item.head.Misc? && !piece.item.companyPaid && !piece.item.thirdParty
    && piece.proofRef != "" && piece.item.gross + piece.taxShare >= 0
  }

  /** A line no rule touches is allowed in full, unless it is withdrawn. */
  lemma PlainLineIsAllowed(piece: Piece, s: Settings, withdrawn: set<string>)
    requires IsPlain(piece) && s.params.categories == []
    ensures OutcomeOf(Entry(LineOf(piece), PresetOf(piece.item, withdrawn)), s, 0).allowed
         == if piece.item.description in withdrawn then 0 else piece.item.gross + piece.taxShare
  {
    AllowedIsWhatRemains(LineOf(piece), s, 0);
  }

  lemma TwoPlainLinesNet(a: Piece, b: Piece, s: Settings, withdrawn: set<string>)
    requires IsPlain(a) && IsPlain(b) && s.params.categories == []
    ensures Summarise(Outcomes(EntriesOf([a, b], withdrawn), s, map[]), 0).netReimbursable
         == (if a.item.description in withdrawn then 0 else a.item.gross + a.taxShare)
          + (if b.item.description in withdrawn then 0 else b.item.gross + b.taxShare)
  {
    var entries := EntriesOf([a, b], withdrawn);
    var outcomes := Outcomes(entries, s, map[]);
    CompanyPaidIsSetAside([a, b], withdrawn);
    NetIsWhatWasAllowed(entries, s, map[], 0);
    UncappedOutcome(entries, s, 0);
    UncappedOutcome(entries, s, 1);
    PlainLineIsAllowed(a, s, withdrawn);
    PlainLineIsAllowed(b, s, withdrawn);
    SumOfTwo(AllowedOf(), outcomes);
  }

  /** What is no capped meal is judged alike on any day. */
  lemma UncappedOutcome(entries: seq<Entry>, s: Settings, i: nat)
    requires i < |entries| && !entries[i].line.head.Meals?
    ensures Outcomes(entries, s, map[])[i] == OutcomeOf(entries[i], s, 0)
  {
    var day := entries[i].line.date;
    UncappedIgnoresTheDay(entries[i].line, s, if day.Some? then Already(entries, s, map[], day.value, i) else 0);
  }

  lemma SumOfTwo<T>(f: T -> int, s: seq<T>)
    requires |s| == 2
    ensures SumBy(f, s) == f(s[0]) + f(s[1])
  {
    assert s == ([] + [s[0]]) + [s[1]];
    SumByPush(f, [] + [s[0]], s[1]);
    SumByPush(f, [], s[0]);
  }

  lemma DifferentAmountsAreKept(a: Piece, b: Piece)
    requires a.item.gross != b.item.gross
    ensures KeptPieces([a, b]) == [a, b]
  {
    var items := ItemsOf([a, b]);
    assert items[0] == a.item && items[1] == b.item;
    FingerprintIsExact(a.item, b.item);
    assert Fingerprints(items)[0] == Fingerprint(a.item) && Fingerprints(items)[1] == Fingerprint(b.item);
    DistinctKeysAreAllKept(Fingerprints(items));
  }

  lemma OneTypedDocument(name: string, items: seq<ExtractedItem>, proofRef: string)
    requires items != []
    ensures Collected([Typed(name, items, proofRef)]) == Success(Collection(PiecesOf(Untaxed(items), proofRef), {}))
  {
    var documents := [Typed(name, items, proofRef)];
    assert documents[..0] == [];
    assert [] + PiecesOf(Untaxed(items), proofRef) == PiecesOf(Untaxed(items), proofRef);
  }

  /**
   * Under the matrix the policy ships with, whose bands leave gaps between whole rupees, withdrawing
   * a line can lose a claim its route: a draft that built stops building.
   */
  lemma WithdrawalCanLoseTheRoute(claimant: EmployeeRef, directory: Directory, policy: PolicyVersion)
    requires policy.routing.matrix == SHIPPED_MATRIX && policy.rules.categories == []
    requires AncestorsOf(claimant, directory, 12).Success?
    ensures Drafted(TwoLineRequest(claimant), policy, directory, {}).Success?
    ensures Drafted(TwoLineRequest(claimant), policy, directory, {"porterage"}) == Failure(Unrouted(NoBand(2500050)))
  {
    TwoLineDraft(claimant, directory, policy, {});
    TwoLineDraft(claimant, directory, policy, {"porterage"});
    ShippedMatrixGaps(2600000);
    ShippedMatrixGaps(2500050);
    NoBandSaysTheValue(2500050, SHIPPED_MATRIX);
  }

  function TwoLineNet(withdrawn: set<string>): int {
    if "porterage" in withdrawn then 2500050 else 2600000
  }

  lemma TwoLinesComeTo(claimant: EmployeeRef, policy: PolicyVersion, withdrawn: set<string>)
    requires policy.rules.categories == [] && "visa" !in withdrawn
    ensures Collected(TwoLineRequest(claimant).documents).Success?
    ensures NetUnder(TwoLineRequest(claimant), policy, withdrawn) == TwoLineNet(withdrawn)
  {
    TwoLinesAreKept();
    NetOfKeptPieces(TwoLineRequest(claimant), policy, withdrawn, TwoPieces());
    TwoPlainLinesNet(TwoPieces()[0], TwoPieces()[1], SettingsFor(TwoLineRequest(claimant), policy), withdrawn);
  }

  lemma NetOfKeptPieces(request: Request, policy: PolicyVersion, withdrawn: set<string>, pieces: seq<Piece>)
    requires Collected(request.documents) == Success(Collection(pieces, {})) && KeptPieces(pieces) == pieces
    requires request.advances == []
    ensures NetUnder(request, policy, withdrawn)
         == Summarise(Outcomes(EntriesOf(pieces, withdrawn), SettingsFor(request, policy), map[]), 0).netReimbursable
  {
  }

  /** The example's draft stands or falls with the band its net falls in. */
  lemma TwoLineDraft(claimant: EmployeeRef, directory: Directory, policy: PolicyVersion, withdrawn: set<string>)
    requires AncestorsOf(claimant, directory, 12).Success?
    requires policy.rules.categories == [] && "visa" !in withdrawn
    ensures var r := Drafted(TwoLineRequest(claimant), policy, directory, withdrawn);
      var roles := RolesForValue(TwoLineNet(withdrawn), policy.routing.matrix);
      && (roles.Success? ==> r.Success? && r.value.summary.netReimbursable == TwoLineNet(withdrawn))
      && (roles.Failure? ==> r == Failure(Unrouted(roles.error)))
  {
    TwoLinesComeTo(claimant, policy, withdrawn);
    DraftRoutesByItsNet(TwoLineRequest(claimant), policy, directory, withdrawn, TwoLineNet(withdrawn));
  }

  lemma TwoLinesAreKept()
    ensures Collected([Typed("bill", TwoLines(), "bill")]) == Success(Collection(TwoPieces(), {}))
    ensures KeptPieces(TwoPieces()) == TwoPieces()
  {
    OneTypedDocument("bill", TwoLines(), "bill");
    assert PiecesOf(Untaxed(TwoLines()), "bill") == TwoPieces();
    DifferentAmountsAreKept(TwoPieces()[0], TwoPieces()[1]);
  }

  /** With a sound reporting line, whether a draft builds is decided by the band of its net. */
  lemma DraftRoutesByItsNet(request: Request, policy: PolicyVersion, directory: Directory, withdrawn: set<string>,
                            net: int)
    requires Collected(request.documents).Success?
    requires AncestorsOf(request.claimant, directory, 12).Success?
    requires net == NetUnder(request, policy, withdrawn)
    ensures var r, roles := Drafted(request, policy, directory, withdrawn), RolesForValue(net, policy.routing.matrix);
      && (roles.Success? ==> r.Success? && r.value.summary.netReimbursable == net)
      && (roles.Failure? ==> r == Failure(Unrouted(roles.error)))
  {
  }

  lemma {:induction false} NoBandSaysTheValue(value: int, matrix: seq<Band>)
    ensures RolesForValue(value, matrix).Failure? ==> RolesForValue(value, matrix) == Failure(NoBand(value))
  {
    if matrix != [] {
      NoBandSaysTheValue(value, matrix[1..]);
    }
  }

  // A company-paid line withdrawn

  function TaxiRequest(claimant: EmployeeRef): Request {
    Request(claimant, "", [Typed("bill", [Taxi()], "bill")], [])
  }

  function Taxi(): ExtractedItem {
    ExtractedItem(100, "taxi", None, Some(AugustTenth()), None, None, None, Misc, false, true)
  }

  lemma OneLineIsKept(piece: Piece)
    ensures KeptPieces([piece]) == [piece]
  {
    DistinctKeysAreAllKept(Fingerprints(ItemsOf([piece])));
  }

  lemma OneLineIsWithdrawn(piece: Piece, withdrawn: set<string>, s: Settings)
    requires piece.item.description in withdrawn
    ensures Outcomes(EntriesOf([piece], withdrawn), s, map[]) == [WithdrawnOutcome(LineOf(piece))]
  {
  }

  lemma TaxiIsWithdrawn(claimant: EmployeeRef, policy: PolicyVersion)
    ensures Collected(TaxiRequest(claimant).documents) == Success(Collection([Piece(Taxi(), 0, "bill")], {}))
    ensures OutcomesOf(TaxiRequest(claimant), policy, [Piece(Taxi(), 0, "bill")], {"taxi"})
         == [WithdrawnOutcome(LineOf(Piece(Taxi(), 0, "bill")))]
  {
    var piece := Piece(Taxi(), 0, "bill");
    OneTypedDocument("bill", [Taxi()], "bill");
    assert PiecesOf(Untaxed([Taxi()]), "bill") == [piece];
    OneLineIsKept(piece);
    OneLineIsWithdrawn(piece, {"taxi"}, SettingsFor(TaxiRequest(claimant), policy));
  }

  /**
   * A company-paid line that is withdrawn leaves the form but not the summary: the draft states a
   * memo of 100 paise and its exported form sums the company's rows to nothing.
   */
  lemma WithdrawnCompanyLineContradictsTheForm(claimant: EmployeeRef, directory: Directory, policy: PolicyVersion,
                                               cells: map<Cell, Value>, trip: Trip)
    requires policy.routing.matrix == SHIPPED_MATRIX && AncestorsOf(claimant, directory, 12).Success?
    requires BlankTemplate(cells)
    ensures var r := Drafted(TaxiRequest(claimant), policy, directory, {"taxi"});
      && r.Success? && Fits(r.value.outcomes)
      && r.value.summary.companyPaidMemo == 100
      && CompanyPaid(Exported(cells, r.value.outcomes, r.value.summary, trip)) == 0
  {
    var outcome := WithdrawnOutcome(LineOf(Piece(Taxi(), 0, "bill")));
    TaxiIsWithdrawn(claimant, policy);
    OneWithdrawnLine(outcome);
    ShippedMatrixGaps(0);
    DraftRoutesByItsNet(TaxiRequest(claimant), policy, directory, {"taxi"}, 0);
    CompanyRowAgreesExactly(cells, [outcome], 0, trip);
  }

  lemma OneWithdrawnLine(o: LineOutcome)
    requires o.status.Withdrawn?
    ensures Fits([o])
    ensures SumBy(CompanyOffForm(), [o]) == SumBy(CompanyMemo(), [o]) == CompanyMemo()(o)
    ensures Summarise([o], 0).netReimbursable == 0
  {
    assert [] + [o] == [o] && [o][..0] == [];
    SumByPush(CompanyOffForm(), [], o);
    SumByPush(CompanyMemo(), [], o);
    SumByPush(EmployeeGross(), [], o);
    SumByPush(CountedDisallowed(), [], o);
  }

  // What blocks a submission

  predicate IsUnread(document: Document) {
    document.Unreadable? || (document.Read? && document.result.status.NeedsInput?)
  }

  predicate DiffersInNeedsInput(r: Result<Collection, TaxError>, r': Result<Collection, TaxError>, name: string) {
    && (r.Failure? ==> r' == r)
    && (r.Success? ==> r' == Success(r.value.(needsInput := r.value.needsInput + {name})))
  }

  lemma {:induction false} UnreadOnlyNeedsInput(before: seq<Document>, document: Document, after: seq<Document>)
    requires IsUnread(document)
    ensures DiffersInNeedsInput(Collected(before + after), Collected(before + [document] + after), document.name)
    decreases |after|
  {
    var all := before + [document] + after;
    if after == [] {
      assert before + after == before && all[..|all| - 1] == before;
    } else {
      var n := |after| - 1;
      UnreadOnlyNeedsInput(before, document, after[..n]);
      assert all[..|all| - 1] == before + [document] + after[..n];
      assert (before + after)[..|before + after| - 1] == before + after[..n];
      var c := Collected(before + after[..n]);
      if c.Success? {
        assert c.value.needsInput + {document.name} + {after[n].name}
             == c.value.needsInput + {after[n].name} + {document.name};
      }
    }
  }

  /**
   * A document that could not be read, wherever it stands among the others, changes nothing but the
   * list of documents that need input: the same lines, money and chain, submittable or not as before.
   */
  lemma UnreadDocumentDoesNotBlock(request: Request, policy: PolicyVersion, directory: Directory,
                                   withdrawn: set<string>, before: seq<Document>, document: Document,
                                   after: seq<Document>)
    requires IsUnread(document) && request.documents == before + after
    ensures var r := Drafted(request, policy, directory, withdrawn);
      var r' := Drafted(request.(documents := before + [document] + after), policy, directory, withdrawn);
      && (r.Failure? ==> r' == r)
      && (r.Success? ==>
            && r' == Success(r.value.(needsInput := r.value.needsInput + {document.name}))
            && (r'.value.Submittable() <==> r.value.Submittable()))
  {
    UnreadOnlyNeedsInput(before, document, after);
  }

  /** A draft can be submitted exactly when this holds of its kept lines. */
  predicate NothingMissing(kept: seq<Piece>, withdrawn: set<string>) {
    && (forall i :: 0 <= i < |kept| && IsJudged(kept[i].item, withdrawn)
          ==> !kept[i].item.head.BusinessEntertainment? && kept[i].proofRef != "")
    && (exists i :: 0 <= i < |kept| && IsJudged(kept[i].item, withdrawn))
  }

  lemma LineIsHeldExactly(piece: Piece, request: Request, policy: PolicyVersion, already: int)
    requires !piece.item.companyPaid
    ensures Evaluated(LineOf(piece), SettingsFor(request, policy), already).status.Held?
       <==> piece.item.head.BusinessEntertainment? || piece.proofRef == ""
  {
    var line, s := LineOf(piece), SettingsFor(request, policy);
    HeldExactly(line, s, already);
  }

  lemma KeptLineIsHeldExactly(request: Request, policy: PolicyVersion, kept: seq<Piece>, withdrawn: set<string>, i: nat)
    requires i < |kept|
    ensures var e := EntriesOf(kept, withdrawn)[i];
      && (IsSettled(e) <==> !IsJudged(kept[i].item, withdrawn))
      && (Outcomes(EntriesOf(kept, withdrawn), SettingsFor(request, policy), map[])[i].status.Held?
          <==> && IsJudged(kept[i].item, withdrawn)
               && (kept[i].item.head.BusinessEntertainment? || kept[i].proofRef == ""))
  {
    var entries, s := EntriesOf(kept, withdrawn), SettingsFor(request, policy);
    var day := entries[i].line.date;
    var already := if day.Some? then Already(entries, s, map[], day.value, i) else 0;
    if IsJudged(kept[i].item, withdrawn) {
      LineIsHeldExactly(kept[i], request, policy, already);
    }
  }

  /**
   * As the pipeline stands, attendees never reach the rules, so an entertainment line holds a claim
   * until it is withdrawn; beyond that only a line without proof, or having no line left, blocks it.
   */
  lemma SubmittableExactly(request: Request, policy: PolicyVersion, directory: Directory, withdrawn: set<string>)
    ensures Drafted(request, policy, directory, withdrawn).Success? ==>
              (Drafted(request, policy, directory, withdrawn).value.Submittable()
               <==> NothingMissing(KeptPieces(Collected(request.documents).value.pieces), withdrawn))
  {
    if Drafted(request, policy, directory, withdrawn).Success? {
      OutcomesSubmittableExactly(request, policy, KeptPieces(Collected(request.documents).value.pieces), withdrawn);
    }
  }

  lemma OutcomesSubmittableExactly(request: Request, policy: PolicyVersion, kept: seq<Piece>, withdrawn: set<string>)
    ensures CanSubmit(Outcomes(EntriesOf(kept, withdrawn), SettingsFor(request, policy), map[]))
       <==> NothingMissing(kept, withdrawn)
  {
    var entries, s := EntriesOf(kept, withdrawn), SettingsFor(request, policy);
    var outcomes := Outcomes(entries, s, map[]);
    CanSubmitExactly(entries, s, map[]);
    forall i | 0 <= i < |kept|
      ensures IsSettled(entries[i]) <==> !IsJudged(kept[i].item, withdrawn)
      ensures outcomes[i].status.Held?
         <==> && IsJudged(kept[i].item, withdrawn)
              && (kept[i].item.head.BusinessEntertainment? || kept[i].proofRef == "")
    {
      KeptLineIsHeldExactly(request, policy, kept, withdrawn, i);
    }
  }
}
