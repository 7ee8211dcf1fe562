/**
 * Exporting a settled claim into the settlement form: which cells are written, and why the form's
 * own formulas arrive at the application's figures. Amounts are paise.
 */
module Workbook {
  import opened Domain
  import opened Sums
  import opened Policy
  import opened Summary

  datatype Cell = Cell(column: char, row: nat)

  datatype Value = Text(text: string) | Amount(paise: int) | Count(n: nat) | DayText(day: Option<int>)

  datatype Trip = Trip(toDate: int, destinationCity: string)

  datatype Section = LodgingSection | TransportSection | OtherSection

  function FirstRow(section: Section): nat {
    match section
    case LodgingSection => 11
    case TransportSection => 19
    case OtherSection => 33
  }

  function Capacity(section: Section): nat {
    match section
    case LodgingSection => 4
    case TransportSection => 10
    case OtherSection => 8
  }

  predicate OnTheForm(o: LineOutcome) {
    !o.status.Rejected? && !o.status.Withdrawn?
  }

  function SectionOf(head: Head): Section {
    if head.Lodging? then LodgingSection
    else if head.Transport? then TransportSection
    else OtherSection
  }

  /** The outcomes a section shows, in claim order. */
  function Shown(outcomes: seq<LineOutcome>, section: Section): seq<LineOutcome> {
    if outcomes == [] then []
    else
      var n := |outcomes| - 1;
      Shown(outcomes[..n], section)
      + (if OnTheForm(outcomes[n]) && SectionOf(outcomes[n].line.head) == section then [outcomes[n]] else [])
  }

  predicate Fits(outcomes: seq<LineOutcome>) {
    forall section: Section :: |Shown(outcomes, section)| <= Capacity(section)
  }

  datatype FormError = FormCapacity(section: Section)

  method SplitBySection(outcomes: seq<LineOutcome>)
    returns (r: Result<(seq<LineOutcome>, seq<LineOutcome>, seq<LineOutcome>), FormError>)
    ensures r.Success? <==> Fits(outcomes)
    ensures r.Success? ==>
              r.value == (Shown(outcomes, LodgingSection), Shown(outcomes, TransportSection),
                          Shown(outcomes, OtherSection))
    ensures r.Failure? ==> |Shown(outcomes, r.error.section)| > Capacity(r.error.section)
  {
    var lodging, transport, other := [], [], [];
    for k := 0 to |outcomes|
      invariant lodging == Shown(outcomes[..k], LodgingSection)
      invariant transport == Shown(outcomes[..k], TransportSection)
      invariant other == Shown(outcomes[..k], OtherSection)
    {
      var outcome := outcomes[k];
      assert outcomes[..k + 1][..k] == outcomes[..k];
      if !OnTheForm(outcome) {
        continue;
      }
      if outcome.line.head.Lodging? {
        lodging := lodging + [outcome];
      } else if outcome.line.head.Transport? {
        transport := transport + [outcome];
      } else {
        other := other + [outcome];
      }
    }
    assert outcomes[..|outcomes|] == outcomes;
    if |lodging| > Capacity(LodgingSection) {
      return Failure(FormCapacity(LodgingSection));
    }
    if |transport| > Capacity(TransportSection) {
      return Failure(FormCapacity(TransportSection));
    }
    if |other| > Capacity(OtherSection) {
      return Failure(FormCapacity(OtherSection));
    }
    return Success((lodging, transport, other));
  }

  // Rows

  function PaidByText(paidBy: PaidBy): Value {
    if paidBy.ByEmployee? then Text("Employee") else Text("Company")
  }

  function ProofText(line: Line): Value {
    Text(if line.proofRef.Some? then line.proofRef.value else "")
  }

  predicate Contains(text: string, part: string) {
    exists i :: 0 <= i <= |text| && part <= text[i..]
  }

  /** The text before and after the first occurrence of `part`. */
  function Partition(text: string, part: string): (string, string)
    decreases |text|
  {
    if part <= text then ("", text[|part|..])
    else if text == [] then ("", "")
    else
      var (before, after) := Partition(text[1..], part);
      ([text[0]] + before, after)
  }

  // The cells one line fills in its row, in the order they are written

  function LodgingRow(cells: map<Cell, Value>, line: Line, trip: Trip, row: nat): map<Cell, Value> {
    cells[Cell('B', row) := DayText(line.date)]
         [Cell('C', row) := DayText(Some(trip.toDate))]
         [Cell('D', row) := Count(Nights(line))]
         [Cell('E', row) := Text(line.description)]
         [Cell('F', row) := Text(trip.destinationCity)]
         [Cell('G', row) := PaidByText(line.paidBy)]
         [Cell('H', row) := Amount(line.Claimable())]
         [Cell('I', row) := ProofText(line)]
  }

  function TransportRow(cells: map<Cell, Value>, line: Line, row: nat): map<Cell, Value> {
    var (origin, destination) := Partition(line.description, " to ");
    cells[Cell('B', row) := DayText(line.date)]
         [Cell('D', row) := Text(origin)]
         [Cell('E', row) := Text(destination)]
         [Cell('F', row) := Text(if Contains(line.description, "to") then "Cab" else "Air")]
         [Cell('G', row) := PaidByText(line.paidBy)]
         [Cell('H', row) := Amount(line.Claimable())]
         [Cell('I', row) := ProofText(line)]
  }

  function OtherRow(cells: map<Cell, Value>, line: Line, row: nat): map<Cell, Value> {
    cells[Cell('B', row) := DayText(line.date)]
         [Cell('C', row) := HeadText(line.head)]
         [Cell('D', row) := Text(line.description)]
         [Cell('G', row) := PaidByText(line.paidBy)]
         [Cell('H', row) := Amount(line.Claimable())]
         [Cell('I', row) := ProofText(line)]
  }

  function Row(cells: map<Cell, Value>, section: Section, line: Line, trip: Trip, row: nat): map<Cell, Value> {
    match section
    case LodgingSection => LodgingRow(cells, line, trip, row)
    case TransportSection => TransportRow(cells, line, row)
    case OtherSection => OtherRow(cells, line, row)
  }

  function HeadText(head: Head): Value {
    match head
    case Lodging => Text("Lodging")
    case Transport => Text("Travel & Transportation")
    case Meals => Text("Meals")
    case BusinessEntertainment => Text("Business Entertainment")
    case Misc => Text("Misc")
  }

  /** A sheet after a section's lines are written, one to a row from its first row on. */
  function Written(cells: map<Cell, Value>, section: Section, lines: seq<LineOutcome>, trip: Trip): map<Cell, Value> {
    if lines == [] then cells
    else
      var n := |lines| - 1;
      Row(Written(cells, section, lines[..n], trip), section, lines[n].line, trip, FirstRow(section) + n)
  }

  class Sheet {
    var cells: map<Cell, Value>

    constructor (cells: map<Cell, Value>)
      ensures this.cells == cells
    {
      this.cells := cells;
    }

    method WriteLodging(lines: seq<LineOutcome>, trip: Trip)
      modifies this
      ensures cells == Written(old(cells), LodgingSection, lines, trip)
    {
      for k := 0 to |lines|
        invariant cells == Written(old(cells), LodgingSection, lines[..k], trip)
      {
        var line, row := lines[k].line, FirstRow(LodgingSection) + k;
        cells := cells[Cell('B', row) := DayText(line.date)];
        cells := cells[Cell('C', row) := DayText(Some(trip.toDate))];
        cells := cells[Cell('D', row) := Count(Nights(line))];
        cells := cells[Cell('E', row) := Text(line.description)];
        cells := cells[Cell('F', row) := Text(trip.destinationCity)];
        cells := cells[Cell('G', row) := PaidByText(line.paidBy)];
        cells := cells[Cell('H', row) := Amount(line.Claimable())];
        cells := cells[Cell('I', row) := ProofText(line)];
        assert lines[..k + 1][..k] == lines[..k];
      }
      assert lines[..|lines|] == lines;
    }

    method WriteTransport(lines: seq<LineOutcome>, trip: Trip)
      modifies this
      ensures cells == Written(old(cells), TransportSection, lines, trip)
    {
      for k := 0 to |lines|
        invariant cells == Written(old(cells), TransportSection, lines[..k], trip)
      {
        var line, row := lines[k].line, FirstRow(TransportSection) + k;
        var (origin, destination) := Partition(line.description, " to ");
        cells := cells[Cell('B', row) := DayText(line.date)];
        cells := cells[Cell('D', row) := Text(origin)];
        cells := cells[Cell('E', row) := Text(destination)];
        cells := cells[Cell('F', row) := Text(if Contains(line.description, "to") then "Cab" else "Air")];
        cells := cells[Cell('G', row) := PaidByText(line.paidBy)];
        cells := cells[Cell('H', row) := Amount(line.Claimable())];
        cells := cells[Cell('I', row) := ProofText(line)];
        assert lines[..k + 1][..k] == lines[..k];
      }
      assert lines[..|lines|] == lines;
    }

    method WriteOther(lines: seq<LineOutcome>, trip: Trip)
      modifies this
      ensures cells == Written(old(cells), OtherSection, lines, trip)
    {
      for k := 0 to |lines|
        invariant cells == Written(old(cells), OtherSection, lines[..k], trip)
      {
        var line, row := lines[k].line, FirstRow(OtherSection) + k;
        cells := cells[Cell('B', row) := DayText(line.date)];
        cells := cells[Cell('C', row) := HeadText(line.head)];
        cells := cells[Cell('D', row) := Text(line.description)];
        cells := cells[Cell('G', row) := PaidByText(line.paidBy)];
        cells := cells[Cell('H', row) := Amount(line.Claimable())];
        cells := cells[Cell('I', row) := ProofText(line)];
        assert lines[..k + 1][..k] == lines[..k];
      }
      assert lines[..|lines|] == lines;
    }

    /** Fill in the form, or leave it untouched when a section has too many lines for its rows. */
    method Export(outcomes: seq<LineOutcome>, summary: SettlementSummary, trip: Trip) returns (r: Result<(), FormError>)
      modifies this
      ensures r.Success? <==> Fits(outcomes)
      ensures cells == if r.Success? then Exported(old(cells), outcomes, summary, trip) else old(cells)
    {
      var split := SplitBySection(outcomes);
      if split.Failure? {
        return Failure(split.error);
      }
      WriteLodging(split.value.0, trip);
      WriteTransport(split.value.1, trip);
      WriteOther(split.value.2, trip);
      cells := cells[Cell('H', 46) := Amount(summary.disallowedTotal)];
      cells := cells[Cell('H', 48) := Amount(summary.advanceDrawn)];
      return Success(());
    }
  }

  function Exported(cells: map<Cell, Value>, outcomes: seq<LineOutcome>, summary: SettlementSummary, trip: Trip):
    map<Cell, Value>
  {
    var lodging := Written(cells, LodgingSection, Shown(outcomes, LodgingSection), trip);
    var transport := Written(lodging, TransportSection, Shown(outcomes, TransportSection), trip);
    var other := Written(transport, OtherSection, Shown(outcomes, OtherSection), trip);
    other[Cell('H', 46) := Amount(summary.disallowedTotal)][Cell('H', 48) := Amount(summary.advanceDrawn)]
  }

  // The form's own formulas

  function AmountIn(cells: map<Cell, Value>, cell: Cell): int {
    if cell in cells && cells[cell].Amount? then cells[cell].paise else 0
  }

  /** The word that the form's SUMIF looks for. */
  function WordFor(payer: PaidBy): string {
    match payer
    case ByEmployee => "Employee"
    case ByCompany => "Company"
  }

  predicate Says(payer: PaidBy, cells: map<Cell, Value>, row: nat) {
    Cell('G', row) in cells && cells[Cell('G', row)] == Text(WordFor(payer))
  }

  /** SUMIF of column H over the first `n` rows of a section whose column G names the payer. */
  function SumIf(payer: PaidBy, cells: map<Cell, Value>, section: Section, n: nat): int {
    if n == 0 then 0
    else
      var row := FirstRow(section) + n - 1;
      SumIf(payer, cells, section, n - 1) + (if Says(payer, cells, row) then AmountIn(cells, Cell('H', row)) else 0)
  }

  function PaidOnForm(payer: PaidBy, cells: map<Cell, Value>): int {
    SumIf(payer, cells, LodgingSection, Capacity(LodgingSection))
    + SumIf(payer, cells, TransportSection, Capacity(TransportSection))
    + SumIf(payer, cells, OtherSection, Capacity(OtherSection))
  }

  function EmployeePaid(cells: map<Cell, Value>): int {
    PaidOnForm(ByEmployee, cells)
  }

  function CompanyPaid(cells: map<Cell, Value>): int {
    PaidOnForm(ByCompany, cells)
  }

  function NetOnForm(cells: map<Cell, Value>): int {
    EmployeePaid(cells) - AmountIn(cells, Cell('H', 46))
  }

  function PayableOnForm(cells: map<Cell, Value>): int {
    Max(NetOnForm(cells) - AmountIn(cells, Cell('H', 48)), 0)
  }

  function RecoverableOnForm(cells: map<Cell, Value>): int {
    Max(AmountIn(cells, Cell('H', 48)) - NetOnForm(cells), 0)
  }

  predicate InSection(section: Section, row: nat) {
    FirstRow(section) <= row < FirstRow(section) + Capacity(section)
  }

  /** A template whose section rows have nobody paying for them yet. */
  ghost predicate BlankTemplate(cells: map<Cell, Value>) {
    forall payer: PaidBy, section: Section, row: nat :: InSection(section, row) ==> !Says(payer, cells, row)
  }

  function ClaimableBy(payer: PaidBy): LineOutcome -> int {
    (o: LineOutcome) => if o.line.paidBy == payer then o.line.Claimable() else 0
  }

  lemma RowElsewhere(cells: map<Cell, Value>, section: Section, line: Line, trip: Trip, row: nat, cell: Cell)
    requires cell.row != row
    ensures SameCell(Row(cells, section, line, trip, row), cells, cell)
  {
  }

  /** The row names the line's payer and amount. */
  predicate ShowsLine(cells: map<Cell, Value>, row: nat, line: Line) {
    && Cell('G', row) in cells && cells[Cell('G', row)] == Text(WordFor(line.paidBy))
    && Cell('H', row) in cells && cells[Cell('H', row)] == Amount(line.gross + line.taxShare)
  }

  lemma RowHolds(cells: map<Cell, Value>, section: Section, line: Line, trip: Trip, row: nat)
    ensures ShowsLine(Row(cells, section, line, trip, row), row, line)
  {
  }

  /** Writing a section touches no cell outside the rows it fills. */
  lemma {:induction false} WrittenElsewhere(cells: map<Cell, Value>, section: Section, lines: seq<LineOutcome>,
                                            trip: Trip, cell: Cell)
    requires !(FirstRow(section) <= cell.row < FirstRow(section) + |lines|)
    ensures SameCell(Written(cells, section, lines, trip), cells, cell)
  {
    if lines != [] {
      WrittenElsewhere(cells, section, lines[..|lines| - 1], trip, cell);
      LastRowElsewhere(cells, section, lines, trip, cell);
    }
  }

  predicate SameCell(cells: map<Cell, Value>, others: map<Cell, Value>, cell: Cell) {
    && (cell in cells <==> cell in others)
    && (cell in others ==> cells[cell] == others[cell])
  }

  lemma LastRowElsewhere(cells: map<Cell, Value>, section: Section, lines: seq<LineOutcome>, trip: Trip, cell: Cell)
    requires lines != [] && cell.row != FirstRow(section) + |lines| - 1
    ensures SameCell(Written(cells, section, lines, trip), Written(cells, section, lines[..|lines| - 1], trip), cell)
  {
    var n := |lines| - 1;
    RowElsewhere(Written(cells, section, lines[..n], trip), section, lines[n].line, trip, FirstRow(section) + n, cell);
  }

  lemma OtherRowsStillShow(cells: map<Cell, Value>, section: Section, line: Line, trip: Trip, at: nat, row: nat,
                           shown: Line)
    requires row != at && ShowsLine(cells, row, shown)
    ensures ShowsLine(Row(cells, section, line, trip, at), row, shown)
  {
    RowElsewhere(cells, section, line, trip, at, Cell('G', row));
    RowElsewhere(cells, section, line, trip, at, Cell('H', row));
  }

  lemma LastLineIsShown(cells: map<Cell, Value>, section: Section, lines: seq<LineOutcome>, trip: Trip)
    requires lines != []
    ensures var n := |lines| - 1;
      ShowsLine(Written(cells, section, lines, trip), FirstRow(section) + n, lines[n].line)
  {
    var n := |lines| - 1;
    RowHolds(Written(cells, section, lines[..n], trip), section, lines[n].line, trip, FirstRow(section) + n);
  }

  lemma EarlierLineIsStillShown(cells: map<Cell, Value>, section: Section, lines: seq<LineOutcome>, trip: Trip,
                                row: nat, shown: Line)
    requires lines != [] && row != FirstRow(section) + |lines| - 1
    requires ShowsLine(Written(cells, section, lines[..|lines| - 1], trip), row, shown)
    ensures ShowsLine(Written(cells, section, lines, trip), row, shown)
  {
    var n := |lines| - 1;
    OtherRowsStillShow(Written(cells, section, lines[..n], trip), section, lines[n].line, trip, FirstRow(section) + n,
                       row, shown);
  }

  /** Each line of a section occupies exactly its own row. */
  lemma {:induction false} LineOccupiesItsRow(cells: map<Cell, Value>, section: Section, lines: seq<LineOutcome>,
                                              trip: Trip, k: nat)
    requires k < |lines|
    ensures ShowsLine(Written(cells, section, lines, trip), FirstRow(section) + k, lines[k].line)
  {
    if k < |lines| - 1 {
      LineOccupiesItsRow(cells, section, lines[..|lines| - 1], trip, k);
      EarlierLineIsStillShown(cells, section, lines, trip, FirstRow(section) + k, lines[k].line);
    } else {
      LastLineIsShown(cells, section, lines, trip);
    }
  }

  predicate SameRow(payer: PaidBy, cells: map<Cell, Value>, others: map<Cell, Value>, row: nat) {
    && (Says(payer, cells, row) <==> Says(payer, others, row))
    && AmountIn(cells, Cell('H', row)) == AmountIn(others, Cell('H', row))
  }

  predicate SameRows(payer: PaidBy, cells: map<Cell, Value>, others: map<Cell, Value>, first: nat, n: nat) {
    forall row: nat :: first <= row < first + n ==> SameRow(payer, cells, others, row)
  }

  lemma {:induction false} SumIfOfSameRows(payer: PaidBy, cells: map<Cell, Value>, others: map<Cell, Value>,
                                           section: Section, n: nat)
    requires SameRows(payer, cells, others, FirstRow(section), n)
    ensures SumIf(payer, cells, section, n) == SumIf(payer, others, section, n)
  {
    if n > 0 {
      assert SameRow(payer, cells, others, FirstRow(section) + n - 1);
      SumIfOfSameRows(payer, cells, others, section, n - 1);
    }
  }

  /** A written section sums to what its lines with that payer claim; its unused rows add nothing. */
  lemma {:induction false} SectionSumsItsLines(payer: PaidBy, cells: map<Cell, Value>, section: Section,
                                               lines: seq<LineOutcome>, trip: Trip, n: nat)
    requires |lines| <= n
    requires forall row: nat :: FirstRow(section) + |lines| <= row < FirstRow(section) + n ==> !Says(payer, cells, row)
    ensures SumIf(payer, Written(cells, section, lines, trip), section, n) == SumBy(ClaimableBy(payer), lines)
    decreases n, 1
  {
    if n > |lines| {
      SectionSumsItsLines(payer, cells, section, lines, trip, n - 1);
      UnusedRowStays(payer, cells, section, lines, trip, FirstRow(section) + n - 1);
      UnusedRowAddsNothing(payer, Written(cells, section, lines, trip), section, n - 1);
    } else if n > 0 {
      SectionSumsItsLines(payer, cells, section, lines[..n - 1], trip, n - 1);
      LastRowAdds(payer, cells, section, lines, trip);
      SumByLast(payer, lines);
    }
  }

  lemma SumByLast(payer: PaidBy, lines: seq<LineOutcome>)
    requires lines != []
    ensures var n := |lines| - 1;
      SumBy(ClaimableBy(payer), lines) == SumBy(ClaimableBy(payer), lines[..n]) + ClaimableBy(payer)(lines[n])
  {
  }

  lemma UnusedRowStays(payer: PaidBy, cells: map<Cell, Value>, section: Section, lines: seq<LineOutcome>, trip: Trip,
                       row: nat)
    requires row >= FirstRow(section) + |lines| && !Says(payer, cells, row)
    ensures !Says(payer, Written(cells, section, lines, trip), row)
  {
    WrittenElsewhere(cells, section, lines, trip, Cell('G', row));
  }

  lemma UnusedRowAddsNothing(payer: PaidBy, cells: map<Cell, Value>, section: Section, n: nat)
    requires !Says(payer, cells, FirstRow(section) + n)
    ensures SumIf(payer, cells, section, n + 1) == SumIf(payer, cells, section, n)
  {
  }

  lemma ShownRowAdds(payer: PaidBy, cells: map<Cell, Value>, section: Section, n: nat, o: LineOutcome)
    requires ShowsLine(cells, FirstRow(section) + n, o.line)
    ensures SumIf(payer, cells, section, n + 1) == SumIf(payer, cells, section, n) + ClaimableBy(payer)(o)
  {
  }

  lemma LastRowAdds(payer: PaidBy, cells: map<Cell, Value>, section: Section, lines: seq<LineOutcome>, trip: Trip)
    requires lines != []
    ensures var n := |lines|;
      SumIf(payer, Written(cells, section, lines, trip), section, n)
      == SumIf(payer, Written(cells, section, lines[..n - 1], trip), section, n - 1) + ClaimableBy(payer)(lines[n - 1])
  {
    var n := |lines| - 1;
    LineOccupiesItsRow(cells, section, lines, trip, n);
    ShownRowAdds(payer, Written(cells, section, lines, trip), section, n, lines[n]);
    LastRowKeepsTheOthers(payer, cells, section, lines, trip);
    SumIfOfSameRows(payer, Written(cells, section, lines, trip), Written(cells, section, lines[..n], trip), section, n);
  }

  lemma SameCellsSameRow(payer: PaidBy, cells: map<Cell, Value>, others: map<Cell, Value>, row: nat)
    requires SameCell(cells, others, Cell('G', row)) && SameCell(cells, others, Cell('H', row))
    ensures SameRow(payer, cells, others, row)
  {
  }

  lemma LastRowKeepsTheOthers(payer: PaidBy, cells: map<Cell, Value>, section: Section, lines: seq<LineOutcome>,
                              trip: Trip)
    requires lines != []
    ensures SameRows(payer, Written(cells, section, lines, trip), Written(cells, section, lines[..|lines| - 1], trip),
                     FirstRow(section), |lines| - 1)
  {
    var n := |lines| - 1;
    var written, front := Written(cells, section, lines, trip), Written(cells, section, lines[..n], trip);
    forall row: nat | FirstRow(section) <= row < FirstRow(section) + n
      ensures SameRow(payer, written, front, row)
    {
      LastRowKeepsOther(payer, cells, section, lines, trip, row);
    }
  }

  lemma LastRowKeepsOther(payer: PaidBy, cells: map<Cell, Value>, section: Section, lines: seq<LineOutcome>, trip: Trip,
                          row: nat)
    requires lines != [] && row != FirstRow(section) + |lines| - 1
    ensures SameRow(payer, Written(cells, section, lines, trip), Written(cells, section, lines[..|lines| - 1], trip),
                    row)
  {
    LastRowElsewhere(cells, section, lines, trip, Cell('G', row));
    LastRowElsewhere(cells, section, lines, trip, Cell('H', row));
    SameCellsSameRow(payer, Written(cells, section, lines, trip), Written(cells, section, lines[..|lines| - 1], trip),
                     row);
  }

  // Every line on the form is in exactly one section

  function OnForm(outcomes: seq<LineOutcome>): seq<LineOutcome> {
    if outcomes == [] then []
    else
      var n := |outcomes| - 1;
      OnForm(outcomes[..n]) + (if OnTheForm(outcomes[n]) then [outcomes[n]] else [])
  }

  /** The three sections between them show each line on the form exactly once, and nothing else. */
  lemma {:induction false} SectionsPartitionTheForm(outcomes: seq<LineOutcome>)
    ensures multiset(Shown(outcomes, LodgingSection)) + multiset(Shown(outcomes, TransportSection))
            + multiset(Shown(outcomes, OtherSection)) == multiset(OnForm(outcomes))
  {
    if outcomes != [] {
      SectionsPartitionTheForm(outcomes[..|outcomes| - 1]);
    }
  }

  /** Lodging and transport have sections of their own; everything else is in the third. */
  predicate BelongsIn(section: Section, head: Head) {
    match section
    case LodgingSection => head == Lodging
    case TransportSection => head == Transport
    case OtherSection => head != Lodging && head != Transport
  }

  predicate IsLeftOff(o: LineOutcome) {
    o.status == LineStatus.Rejected || o.status == LineStatus.Withdrawn
  }

  /** How many of the outcomes a section shows. */
  function CountIn(outcomes: seq<LineOutcome>, section: Section): nat {
    if outcomes == [] then 0
    else
      var n := |outcomes| - 1;
      CountIn(outcomes[..n], section)
      + (if !IsLeftOff(outcomes[n]) && BelongsIn(section, outcomes[n].line.head) then 1 else 0)
  }

  /** A line stands in the section of its head, after as many as that section shows of the lines before it. */
  lemma {:induction false} LineHasItsPlace(outcomes: seq<LineOutcome>, section: Section, i: nat)
    requires i < |outcomes| && !IsLeftOff(outcomes[i]) && BelongsIn(section, outcomes[i].line.head)
    ensures |Shown(outcomes, section)| == CountIn(outcomes, section)
    ensures CountIn(outcomes[..i], section) < CountIn(outcomes, section)
    ensures Shown(outcomes, section)[CountIn(outcomes[..i], section)] == outcomes[i]
  {
    var n := |outcomes| - 1;
    SectionShowsCount(outcomes[..n], section);
    if i < n {
      LineHasItsPlace(outcomes[..n], section, i);
      assert outcomes[..n][..i] == outcomes[..i];
    }
  }

  lemma {:induction false} SectionShowsCount(outcomes: seq<LineOutcome>, section: Section)
    ensures |Shown(outcomes, section)| == CountIn(outcomes, section)
  {
    if outcomes != [] {
      SectionShowsCount(outcomes[..|outcomes| - 1], section);
    }
  }

  function OnFormBy(payer: PaidBy): LineOutcome -> int {
    (o: LineOutcome) => if OnTheForm(o) && o.line.paidBy == payer then o.line.Claimable() else 0
  }

  lemma ShownElsewhere(outcomes: seq<LineOutcome>, section: Section)
    requires outcomes != []
    ensures var n := |outcomes| - 1;
      Shown(outcomes, section)
      == if OnTheForm(outcomes[n]) && SectionOf(outcomes[n].line.head) == section
         then Shown(outcomes[..n], section) + [outcomes[n]] else Shown(outcomes[..n], section)
  {
  }

  lemma ShownTotalGrows(payer: PaidBy, outcomes: seq<LineOutcome>, o: LineOutcome, section: Section)
    ensures SumBy(ClaimableBy(payer), Shown(outcomes + [o], section))
         == SumBy(ClaimableBy(payer), Shown(outcomes, section))
            + (if SectionOf(o.line.head) == section then OnFormBy(payer)(o) else 0)
  {
    assert (outcomes + [o])[..|outcomes|] == outcomes;
    ShownElsewhere(outcomes + [o], section);
    SumByPush(ClaimableBy(payer), Shown(outcomes, section), o);
  }

  lemma {:induction false} SectionsSumTheForm(payer: PaidBy, outcomes: seq<LineOutcome>)
    ensures SumBy(ClaimableBy(payer), Shown(outcomes, LodgingSection))
            + SumBy(ClaimableBy(payer), Shown(outcomes, TransportSection))
            + SumBy(ClaimableBy(payer), Shown(outcomes, OtherSection))
         == SumBy(OnFormBy(payer), outcomes)
  {
    if outcomes != [] {
      var front, o := outcomes[..|outcomes| - 1], outcomes[|outcomes| - 1];
      assert outcomes == front + [o];
      SectionsSumTheForm(payer, front);
      ShownTotalGrows(payer, front, o, LodgingSection);
      ShownTotalGrows(payer, front, o, TransportSection);
      ShownTotalGrows(payer, front, o, OtherSection);
      SumByPush(OnFormBy(payer), front, o);
    }
  }

  /** SUMIF over the exported form, for either payer: what that payer paid on every line the form shows. */
  lemma FormSumsWhatItShows(payer: PaidBy, cells: map<Cell, Value>, outcomes: seq<LineOutcome>,
                            summary: SettlementSummary, trip: Trip)
    requires BlankTemplate(cells) && Fits(outcomes)
    ensures PaidOnForm(payer, Exported(cells, outcomes, summary, trip)) == SumBy(OnFormBy(payer), outcomes)
  {
    var l, t, o := Shown(outcomes, LodgingSection), Shown(outcomes, TransportSection), Shown(outcomes, OtherSection);
    var lodging := Written(cells, LodgingSection, l, trip);
    var transport := Written(lodging, TransportSection, t, trip);
    var other := Written(transport, OtherSection, o, trip);
    TotalsCellsAreElsewhere(payer, other, summary);
    SectionKept(payer, transport, OtherSection, o, trip, LodgingSection);
    SectionKept(payer, lodging, TransportSection, t, trip, LodgingSection);
    SectionSumsItsLines(payer, cells, LodgingSection, l, trip, 4) by {
      BlankRows(payer, cells, LodgingSection);
    }
    SectionKept(payer, transport, OtherSection, o, trip, TransportSection);
    SectionSumsItsLines(payer, lodging, TransportSection, t, trip, 10) by {
      BlankRows(payer, cells, TransportSection);
      RowsKept(payer, cells, LodgingSection, l, trip, TransportSection);
      BlankRowsKept(payer, lodging, cells, TransportSection);
    }
    SectionSumsItsLines(payer, transport, OtherSection, o, trip, 8) by {
      BlankRows(payer, cells, OtherSection);
      RowsKept(payer, cells, LodgingSection, l, trip, OtherSection);
      BlankRowsKept(payer, lodging, cells, OtherSection);
      RowsKept(payer, lodging, TransportSection, t, trip, OtherSection);
      BlankRowsKept(payer, transport, lodging, OtherSection);
    }
    SectionsSumTheForm(payer, outcomes);
  }

  lemma BlankRows(payer: PaidBy, cells: map<Cell, Value>, section: Section)
    requires BlankTemplate(cells)
    ensures forall row: nat :: FirstRow(section) <= row < FirstRow(section) + Capacity(section) ==>
              !Says(payer, cells, row)
  {
    forall row: nat | FirstRow(section) <= row < FirstRow(section) + Capacity(section)
      ensures !Says(payer, cells, row)
    {
      assert InSection(section, row);
    }
  }

  lemma BlankRowsKept(payer: PaidBy, cells: map<Cell, Value>, others: map<Cell, Value>, section: Section)
    requires SameRows(payer, cells, others, FirstRow(section), Capacity(section))
    requires forall row: nat :: FirstRow(section) <= row < FirstRow(section) + Capacity(section) ==>
               !Says(payer, others, row)
    ensures forall row: nat :: FirstRow(section) <= row < FirstRow(section) + Capacity(section) ==>
              !Says(payer, cells, row)
  {
    forall row: nat | FirstRow(section) <= row < FirstRow(section) + Capacity(section)
      ensures !Says(payer, cells, row)
    {
      assert SameRow(payer, cells, others, row);
      assert !Says(payer, others, row);
    }
  }

  lemma TotalsCellsAreElsewhere(payer: PaidBy, cells: map<Cell, Value>, summary: SettlementSummary)
    ensures PaidOnForm(payer, cells[Cell('H', 46) := Amount(summary.disallowedTotal)]
                                   [Cell('H', 48) := Amount(summary.advanceDrawn)]) == PaidOnForm(payer, cells)
  {
    var written := cells[Cell('H', 46) := Amount(summary.disallowedTotal)]
                        [Cell('H', 48) := Amount(summary.advanceDrawn)];
    forall row: nat | row < 46
      ensures SameRow(payer, written, cells, row)
    {
    }
    SumIfOfSameRows(payer, written, cells, LodgingSection, Capacity(LodgingSection));
    SumIfOfSameRows(payer, written, cells, TransportSection, Capacity(TransportSection));
    SumIfOfSameRows(payer, written, cells, OtherSection, Capacity(OtherSection));
  }

  /** Writing one section leaves another's rows as they were. */
  lemma RowsKept(payer: PaidBy, cells: map<Cell, Value>, section: Section, lines: seq<LineOutcome>, trip: Trip,
                 elsewhere: Section)
    requires section != elsewhere && |lines| <= Capacity(section)
    ensures SameRows(payer, Written(cells, section, lines, trip), cells, FirstRow(elsewhere), Capacity(elsewhere))
  {
    forall row: nat | FirstRow(elsewhere) <= row < FirstRow(elsewhere) + Capacity(elsewhere)
      ensures SameRow(payer, Written(cells, section, lines, trip), cells, row)
    {
      WrittenElsewhere(cells, section, lines, trip, Cell('G', row));
      WrittenElsewhere(cells, section, lines, trip, Cell('H', row));
    }
  }

  lemma SectionKept(payer: PaidBy, cells: map<Cell, Value>, section: Section, lines: seq<LineOutcome>, trip: Trip,
                    elsewhere: Section)
    requires section != elsewhere && |lines| <= Capacity(section)
    ensures SumIf(payer, Written(cells, section, lines, trip), elsewhere, Capacity(elsewhere))
         == SumIf(payer, cells, elsewhere, Capacity(elsewhere))
  {
    RowsKept(payer, cells, section, lines, trip, elsewhere);
    SumIfOfSameRows(payer, Written(cells, section, lines, trip), cells, elsewhere, Capacity(elsewhere));
  }

  /** A memo row the employee paid would be summed by the form and not by the summary. */
  function EmployeeMemo(): LineOutcome -> int {
    (o: LineOutcome) => if o.status.Memo? && o.line.paidBy.ByEmployee? then o.line.Claimable() else 0
  }

  /** Memo rows are company-paid rows. */
  predicate MemoIsCompanyPaid(outcomes: seq<LineOutcome>) {
    forall i :: 0 <= i < |outcomes| && outcomes[i].status.Memo? ==> outcomes[i].line.paidBy.ByCompany?
  }

  /**
   * The spreadsheet and the application agree: for any claim that fits the form, the form's SUMIF,
   * net, payable and recoverable formulas reach the summary's figures.
   */
  lemma WorkbookAgreesWithSummary(cells: map<Cell, Value>, outcomes: seq<LineOutcome>, advance: int, trip: Trip)
    requires BlankTemplate(cells) && Fits(outcomes)
    requires MemoIsCompanyPaid(outcomes)
    ensures var summary := Summarise(outcomes, advance);
      var exported := Exported(cells, outcomes, summary, trip);
      && EmployeePaid(exported) == summary.employeePaidGross
      && NetOnForm(exported) == summary.netReimbursable
      && PayableOnForm(exported) == summary.payable
      && RecoverableOnForm(exported) == summary.recoverable
  {
    FormSumsWhatItShows(ByEmployee, cells, outcomes, Summarise(outcomes, advance), trip);
    SumByCongruent(OnFormBy(ByEmployee), outcomes, EmployeeGross(), outcomes);
  }

  /** In general the form sums the employee-paid memo rows on top of the summary's gross. */
  lemma FormExceedsSummaryByEmployeeMemo(cells: map<Cell, Value>, outcomes: seq<LineOutcome>, advance: int, trip: Trip)
    requires BlankTemplate(cells) && Fits(outcomes)
    ensures EmployeePaid(Exported(cells, outcomes, Summarise(outcomes, advance), trip))
         == Summarise(outcomes, advance).employeePaidGross + SumBy(EmployeeMemo(), outcomes)
  {
    FormSumsWhatItShows(ByEmployee, cells, outcomes, Summarise(outcomes, advance), trip);
    SumByAdds(EmployeeGross(), EmployeeMemo(), OnFormBy(ByEmployee), outcomes);
  }

  // The company's row

  /** What the company paid on a line the form leaves out. */
  function CompanyOffForm(): LineOutcome -> int {
    (o: LineOutcome) => if !OnTheForm(o) && o.line.paidBy.ByCompany? then o.line.Claimable() else 0
  }

  /**
   * The form's company total falls short of the summary's memo by the company-paid lines that were
   * rejected or withdrawn: the two agree exactly when those lines come to nothing.
   */
  lemma CompanyRowAgreesExactly(cells: map<Cell, Value>, outcomes: seq<LineOutcome>, advance: int, trip: Trip)
    requires BlankTemplate(cells) && Fits(outcomes)
    ensures var summary := Summarise(outcomes, advance);
      var exported := Exported(cells, outcomes, summary, trip);
      && CompanyPaid(exported) + SumBy(CompanyOffForm(), outcomes) == summary.companyPaidMemo
      && (CompanyPaid(exported) == summary.companyPaidMemo <==> SumBy(CompanyOffForm(), outcomes) == 0)
  {
    FormSumsWhatItShows(ByCompany, cells, outcomes, Summarise(outcomes, advance), trip);
    SumByAdds(OnFormBy(ByCompany), CompanyOffForm(), CompanyMemo(), outcomes);
  }

  // The exported form, cell by cell

  predicate Holds(cells: map<Cell, Value>, column: char, row: nat, value: Value) {
    Cell(column, row) in cells && cells[Cell(column, row)] == value
  }

  /** A description cut at its first " to ", or left whole when it has none. */
  ghost predicate IsRoute(description: string, origin: string, destination: string) {
    || (description == origin + " to " + destination && !HasTo(origin + " to"))
    || (!HasTo(description) && origin == description && destination == "")
  }

  ghost predicate HasTo(text: string) {
    exists i: nat :: ToAt(text, i)
  }

  predicate ToAt(text: string, i: nat) {
    i + 4 <= |text| && text[i] == ' ' && text[i + 1] == 't' && text[i + 2] == 'o' && text[i + 3] == ' '
  }

  lemma StartsWithTo(text: string)
    ensures " to " <= text <==> ToAt(text, 0)
  {
    if ToAt(text, 0) {
      assert text[..4] == " to ";
    }
    if " to " <= text {
      assert text[0] == " to "[0] && text[1] == " to "[1] && text[2] == " to "[2] && text[3] == " to "[3];
    }
  }

  /** A text that does not start with it has it exactly when its tail does. */
  lemma NotYet(text: string)
    requires text != [] && !ToAt(text, 0)
    ensures HasTo(text) <==> HasTo(text[1..])
  {
    forall i: nat | ToAt(text[1..], i)
      ensures HasTo(text)
    {
      assert ToAt(text, i + 1);
    }
    forall i: nat | ToAt(text, i)
      ensures HasTo(text[1..])
    {
      assert ToAt(text[1..], i - 1);
    }
  }

  lemma FirstToIsLater(text: string, before: string, after: string)
    requires text != [] && !ToAt(text, 0) && text[1..] == before + " to " + after && !HasTo(before + " to")
    ensures text == [text[0]] + before + " to " + after && !HasTo([text[0]] + before + " to")
  {
    var start := [text[0]] + before + " to";
    assert text == start + " " + after;
    assert ToAt(start, 0) ==> ToAt(text, 0);
    NotYet(start);
    assert start[1..] == before + " to";
  }

  lemma {:induction false} PartitionIsRoute(text: string)
    ensures IsRoute(text, Partition(text, " to ").0, Partition(text, " to ").1)
    decreases |text|
  {
    StartsWithTo(text);
    if ToAt(text, 0) {
      assert text == "" + " to " + text[4..];
      assert "" + " to" == " to";
    } else if text != [] {
      var (before, after) := Partition(text[1..], " to ");
      PartitionIsRoute(text[1..]);
      if text[1..] == before + " to " + after && !HasTo(before + " to") {
        FirstToIsLater(text, before, after);
      } else {
        NotYet(text);
      }
    }
  }

  /** A lodging line's row: when, until when, how many nights, where, who paid, how much and the proof. */
  ghost predicate ReadsAsStay(cells: map<Cell, Value>, row: nat, line: Line, trip: Trip) {
    && Holds(cells, 'B', row, DayText(line.date)) && Holds(cells, 'C', row, DayText(Some(trip.toDate)))
    && (exists n: nat :: IsFor(line, n) && Holds(cells, 'D', row, Count(n)))
    && Holds(cells, 'E', row, Text(line.description)) && Holds(cells, 'F', row, Text(trip.destinationCity))
    && ReadsAsPaid(cells, row, line)
  }

  predicate ReadsAsPaid(cells: map<Cell, Value>, row: nat, line: Line) {
    && Holds(cells, 'G', row, Text(WordFor(line.paidBy)))
    && Holds(cells, 'H', row, Amount(line.gross + line.taxShare))
    && (line.proofRef.Some? ==> Holds(cells, 'I', row, Text(line.proofRef.value)))
  }

  /** A transport line's row: when, from where, to where, by what, and the payment. */
  ghost predicate ReadsAsJourney(cells: map<Cell, Value>, row: nat, line: Line) {
    && Holds(cells, 'B', row, DayText(line.date))
    && (exists origin, destination :: && IsRoute(line.description, origin, destination)
                                      && Holds(cells, 'D', row, Text(origin))
                                      && Holds(cells, 'E', row, Text(destination)))
    && (Holds(cells, 'F', row, Text("Cab")) || Holds(cells, 'F', row, Text("Air")))
    && (Holds(cells, 'F', row, Text("Cab"))
        <==> exists i :: && 0 <= i < |line.description| - 1
                         && line.description[i] == 't' && line.description[i + 1] == 'o')
    && ReadsAsPaid(cells, row, line)
  }

  /** Any other line's row: when, under which head, what, and the payment. */
  predicate ReadsAsOther(cells: map<Cell, Value>, row: nat, line: Line) {
    && Holds(cells, 'B', row, DayText(line.date))
    && (line.head.Meals? ==> Holds(cells, 'C', row, Text("Meals")))
    && (line.head.BusinessEntertainment? ==> Holds(cells, 'C', row, Text("Business Entertainment")))
    && (line.head.Misc? ==> Holds(cells, 'C', row, Text("Misc")))
    && Holds(cells, 'D', row, Text(line.description))
    && ReadsAsPaid(cells, row, line)
  }

  ghost predicate ReadsAs(cells: map<Cell, Value>, section: Section, row: nat, line: Line, trip: Trip) {
    match section
    case LodgingSection => ReadsAsStay(cells, row, line, trip)
    case TransportSection => ReadsAsJourney(cells, row, line)
    case OtherSection => ReadsAsOther(cells, row, line)
  }

  lemma StayReads(cells: map<Cell, Value>, line: Line, trip: Trip, row: nat)
    ensures ReadsAsStay(LodgingRow(cells, line, trip, row), row, line, trip)
  {
    assert IsFor(line, Nights(line)) && Holds(LodgingRow(cells, line, trip, row), 'D', row, Count(Nights(line)));
  }

  lemma ToIsFound(text: string)
    ensures Contains(text, "to") <==> exists i :: 0 <= i < |text| - 1 && text[i] == 't' && text[i + 1] == 'o'
  {
    if Contains(text, "to") {
      var i :| 0 <= i <= |text| && "to" <= text[i..];
      assert text[i] == text[i..][0] == "to"[0] && text[i + 1] == text[i..][1] == "to"[1];
    }
    forall i | 0 <= i < |text| - 1 && text[i] == 't' && text[i + 1] == 'o'
      ensures Contains(text, "to")
    {
      assert text[i..][..2] == "to";
      assert "to" <= text[i..];
    }
  }

  lemma JourneyReads(cells: map<Cell, Value>, line: Line, row: nat)
    ensures ReadsAsJourney(TransportRow(cells, line, row), row, line)
  {
    PartitionIsRoute(line.description);
    ToIsFound(line.description);
    var written := TransportRow(cells, line, row);
    var (origin, destination) := Partition(line.description, " to ");
    assert Holds(written, 'D', row, Text(origin)) && Holds(written, 'E', row, Text(destination));
    assert Holds(written, 'F', row, Text(if Contains(line.description, "to") then "Cab" else "Air"));
    assert "Cab"[0] != "Air"[0];
  }

  lemma RowReads(cells: map<Cell, Value>, section: Section, line: Line, trip: Trip, row: nat)
    ensures ReadsAs(Row(cells, section, line, trip, row), section, row, line, trip)
  {
    match section
    case LodgingSection => StayReads(cells, line, trip, row);
    case TransportSection => JourneyReads(cells, line, row);
    case OtherSection =>
  }

  /** What a row reads as depends on the cells of that row. */
  lemma SameCellsReadAlike(cells: map<Cell, Value>, others: map<Cell, Value>, section: Section, row: nat, line: Line,
                           trip: Trip)
    requires forall column: char :: SameCell(cells, others, Cell(column, row))
    requires ReadsAs(others, section, row, line, trip)
    ensures ReadsAs(cells, section, row, line, trip)
  {
    forall column: char, value: Value
      ensures Holds(cells, column, row, value) <==> Holds(others, column, row, value)
    {
      assert SameCell(cells, others, Cell(column, row));
    }
  }

  lemma SameCellIsTransitive(a: map<Cell, Value>, b: map<Cell, Value>, c: map<Cell, Value>, cell: Cell)
    requires SameCell(a, b, cell) && SameCell(b, c, cell)
    ensures SameCell(a, c, cell)
  {
  }

  /** The cells a section's lines fill, by letter. */
  predicate IsFilled(section: Section, column: char) {
    match section
    case LodgingSection => 'B' <= column <= 'I'
    case TransportSection => column == 'B' || 'D' <= column <= 'I'
    case OtherSection => 'B' <= column <= 'D' || 'G' <= column <= 'I'
  }

  lemma RowFills(cells: map<Cell, Value>, others: map<Cell, Value>, section: Section, line: Line, trip: Trip, row: nat,
                 cell: Cell)
    ensures SameCell(cells, others, cell) ==>
              SameCell(Row(cells, section, line, trip, row), Row(others, section, line, trip, row), cell)
    ensures cell.row != row || !IsFilled(section, cell.column) ==>
              SameCell(Row(cells, section, line, trip, row), cells, cell)
  {
  }

  /** Each cell of a line's row is as that row alone makes it. */
  lemma {:induction false} LineFillsItsRow(cells: map<Cell, Value>, section: Section, lines: seq<LineOutcome>,
                                           trip: Trip, k: nat, cell: Cell)
    requires k < |lines| && cell.row == FirstRow(section) + k
    ensures SameCell(Written(cells, section, lines, trip), Row(cells, section, lines[k].line, trip, cell.row), cell)
  {
    var n := |lines| - 1;
    var front := Written(cells, section, lines[..n], trip);
    if k < n {
      LineFillsItsRow(cells, section, lines[..n], trip, k, cell);
      LastRowElsewhere(cells, section, lines, trip, cell);
      SameCellIsTransitive(Written(cells, section, lines, trip), front,
                           Row(cells, section, lines[k].line, trip, cell.row), cell);
    } else {
      WrittenElsewhere(cells, section, lines[..n], trip, cell);
      RowFills(front, cells, section, lines[n].line, trip, cell.row, cell);
    }
  }

  lemma TotalsAreElsewhere(cells: map<Cell, Value>, summary: SettlementSummary, cell: Cell)
    requires cell != Cell('H', 46) && cell != Cell('H', 48)
    ensures SameCell(cells[Cell('H', 46) := Amount(summary.disallowedTotal)]
                          [Cell('H', 48) := Amount(summary.advanceDrawn)], cells, cell)
  {
  }

  /** On the exported form too: no other section and no total is written over it. */
  lemma FormRowIs(cells: map<Cell, Value>, outcomes: seq<LineOutcome>, summary: SettlementSummary, trip: Trip,
                  section: Section, k: nat, cell: Cell)
    requires Fits(outcomes) && k < |Shown(outcomes, section)| && cell.row == FirstRow(section) + k
    ensures SameCell(Exported(cells, outcomes, summary, trip),
                     Row(cells, section, Shown(outcomes, section)[k].line, trip, cell.row), cell)
  {
    var l, t, o := Shown(outcomes, LodgingSection), Shown(outcomes, TransportSection), Shown(outcomes, OtherSection);
    assert |l| <= Capacity(LodgingSection) && |t| <= Capacity(TransportSection) && |o| <= Capacity(OtherSection);
    var lodging := Written(cells, LodgingSection, l, trip);
    var transport := Written(lodging, TransportSection, t, trip);
    TotalsAreElsewhere(Written(transport, OtherSection, o, trip), summary, cell);
    match section
    case LodgingSection =>
      LineFillsItsRow(cells, LodgingSection, l, trip, k, cell);
      WrittenElsewhere(lodging, TransportSection, t, trip, cell);
      WrittenElsewhere(transport, OtherSection, o, trip, cell);
    case TransportSection =>
      WrittenElsewhere(cells, LodgingSection, l, trip, cell);
      LineFillsItsRow(lodging, TransportSection, t, trip, k, cell);
      RowFills(lodging, cells, TransportSection, t[k].line, trip, cell.row, cell);
      WrittenElsewhere(transport, OtherSection, o, trip, cell);
    case OtherSection =>
      WrittenElsewhere(cells, LodgingSection, l, trip, cell);
      WrittenElsewhere(lodging, TransportSection, t, trip, cell);
      LineFillsItsRow(transport, OtherSection, o, trip, k, cell);
      RowFills(transport, cells, OtherSection, o[k].line, trip, cell.row, cell);
  }

  /** The `k`-th row of each section, as the form is laid out. */
  function RowOf(section: Section, k: nat): nat {
    match section
    case LodgingSection => 11 + k
    case TransportSection => 19 + k
    case OtherSection => 33 + k
  }

  /**
   * Once everything is written, the `k`-th line of a section reads in the section's `k`-th row as it
   * should: neither another section nor the totals cells overwrite it.
   */
  lemma FormShowsEveryLine(cells: map<Cell, Value>, outcomes: seq<LineOutcome>, summary: SettlementSummary, trip: Trip,
                           section: Section, k: nat)
    requires Fits(outcomes) && k < |Shown(outcomes, section)|
    ensures ReadsAs(Exported(cells, outcomes, summary, trip), section, RowOf(section, k),
                    Shown(outcomes, section)[k].line, trip)
  {
    var row, line := RowOf(section, k), Shown(outcomes, section)[k].line;
    forall column: char
      ensures SameCell(Exported(cells, outcomes, summary, trip), Row(cells, section, line, trip, row),
                       Cell(column, row))
    {
      FormRowIs(cells, outcomes, summary, trip, section, k, Cell(column, row));
    }
    RowReads(cells, section, line, trip, row);
    SameCellsReadAlike(Exported(cells, outcomes, summary, trip), Row(cells, section, line, trip, row), section, row,
                       line, trip);
  }

  /** The cells the export may write: the columns its rows fill, and the two totals. */
  predicate IsInput(cell: Cell) {
    || (11 <= cell.row <= 14 && 'B' <= cell.column <= 'I')
    || (19 <= cell.row <= 28 && 'B' <= cell.column <= 'I' && cell.column != 'C')
    || (33 <= cell.row <= 40 && 'B' <= cell.column <= 'I' && cell.column != 'E' && cell.column != 'F')
    || (cell.column == 'H' && (cell.row == 46 || cell.row == 48))
  }

  /** No other cell of the template is touched, so that every formula of the form stays. */
  lemma ExportWritesOnlyInputs(cells: map<Cell, Value>, outcomes: seq<LineOutcome>, summary: SettlementSummary,
                               trip: Trip, cell: Cell)
    requires Fits(outcomes) && !IsInput(cell)
    ensures SameCell(Exported(cells, outcomes, summary, trip), cells, cell)
  {
    var l, t, o := Shown(outcomes, LodgingSection), Shown(outcomes, TransportSection), Shown(outcomes, OtherSection);
    assert |l| <= Capacity(LodgingSection) && |t| <= Capacity(TransportSection) && |o| <= Capacity(OtherSection);
    var lodging := Written(cells, LodgingSection, l, trip);
    var transport := Written(lodging, TransportSection, t, trip);
    SectionWritesOnlyInputs(cells, LodgingSection, l, trip, cell);
    SectionWritesOnlyInputs(lodging, TransportSection, t, trip, cell);
    SectionWritesOnlyInputs(transport, OtherSection, o, trip, cell);
    TotalsAreElsewhere(Written(transport, OtherSection, o, trip), summary, cell);
  }

  lemma SectionWritesOnlyInputs(cells: map<Cell, Value>, section: Section, lines: seq<LineOutcome>, trip: Trip,
                                cell: Cell)
    requires |lines| <= Capacity(section) && !IsInput(cell)
    ensures SameCell(Written(cells, section, lines, trip), cells, cell)
  {
    if FirstRow(section) <= cell.row < FirstRow(section) + |lines| {
      var k := cell.row - FirstRow(section);
      LineFillsItsRow(cells, section, lines, trip, k, cell);
      RowFills(cells, cells, section, lines[k].line, trip, cell.row, cell);
    } else {
      WrittenElsewhere(cells, section, lines, trip, cell);
    }
  }
}
