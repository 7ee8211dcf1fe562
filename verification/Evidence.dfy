/** What extraction hands on: the charges read off a document, not yet judged. */
module Evidence {
  import opened Domain

  /** An ISO date or timestamp as `isoformat` prints it: such a text is not empty and contains no bar. */
  type IsoText = s: string | s != "" && '|' !in s witness "2026-06-17"

  /** A timestamp with its calendar day. `day` also stands for the day number the rules compare. */
  datatype Day = Day(number: int, iso: IsoText)

  datatype Instant = Instant(iso: IsoText, day: Day)

  /**
   * The extractor's reading of a line. The last three fields are the answers the text heuristics
   * give about it: its policy head, whether the evidence names somebody other than the claimant,
   * and whether the payment wording says the company paid.
   */
  datatype ExtractedItem = ExtractedItem(
    gross: int,
    description: string,
    merchant: Option<string>,
    txnDate: Option<Day>,
    txnDatetime: Option<Instant>,
    billNo: Option<string>,
    nights: Option<nat>,
    head: Head,
    thirdParty: bool,
    companyPaid: bool)
  {
    /** The day the line belongs to: the stated date, or else the day of its timestamp. */
    function TxnDay(): Option<Day> {
      if txnDate.Some? then txnDate
      else if txnDatetime.Some? then Some(txnDatetime.value.day)
      else None
    }
  }

  function GrossOf(): ExtractedItem -> int {
    (item: ExtractedItem) => item.gross
  }

  /** An item's gross amounts, in order. */
  function Amounts(items: seq<ExtractedItem>): (amounts: seq<int>)
    ensures |amounts| == |items|
    ensures forall i :: 0 <= i < |items| ==> amounts[i] == items[i].gross
  {
    seq(|items|, i requires 0 <= i < |items| => items[i].gross)
  }
}
