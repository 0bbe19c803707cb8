/** The record and enumeration types of the calculator (types.ts), together
    with the report records that the spreadsheet service builds. */
module Types {

  /** The four cashback categories (`CashbackMode`). */
  datatype Mode = Weekly | Daily | Sports | Aviator

  /** The three supported platforms (`Platform`). */
  datatype Platform = SevenK | Cassino | Vera

  /** The name under which a mode appears in the source, used in aggregation keys. */
  function ModeName(m: Mode): string {
    match m
    case Weekly => "weekly"
    case Daily => "daily"
    case Sports => "sports"
    case Aviator => "aviator"
  }

  /** The upper end of a tier: a number, or `Infinity` for the last tier. */
  datatype Bound = Finite(value: real) | Unbounded

  /** A loss range `[min, max]` and the fraction of the loss paid back in it. */
  datatype Tier = Tier(min: real, max: Bound, percent: real)

  /** The tier list and payout limits that apply to one (mode, platform) pair. */
  datatype RuleSet = RuleSet(tiers: seq<Tier>, minCashback: real, maxCashback: real, baseLimit: real)

  /** The outcome of one calculation; the informational `message` text is not modelled. */
  datatype CashbackResult = CashbackResult(lossAmount: real, cashbackAmount: real, appliedPercent: real)

  /** A spreadsheet cell as the row reader delivers it: a number or a text. */
  datatype Cell = Num(n: real) | Str(s: string)

  /** One spreadsheet line: its (header, cell) pairs in the order the row object lists its keys. */
  type Row = seq<(string, Cell)>

  /** One line of the batch report. */
  datatype ProcessedEntry = ProcessedEntry(date: string, mode: Mode, loss: real, cashback: real, percent: real)

  /** Cashback totals per mode (`detailsByMode`). */
  datatype ModeTotals = ModeTotals(weekly: real, daily: real, sports: real, aviator: real)
  {
    function Get(m: Mode): real {
      match m
      case Weekly => weekly
      case Daily => daily
      case Sports => sports
      case Aviator => aviator
    }

    function Add(m: Mode, amount: real): (t: ModeTotals)
      ensures t.Get(m) == Get(m) + amount
      ensures forall other :: other != m ==> t.Get(other) == Get(other)
    {
      match m
      case Weekly => this.(weekly := weekly + amount)
      case Daily => this.(daily := daily + amount)
      case Sports => this.(sports := sports + amount)
      case Aviator => this.(aviator := aviator + amount)
    }
  }

  /** The result of processing one spreadsheet. */
  datatype BatchReport = BatchReport(summary: seq<ProcessedEntry>, totalCashback: real, detailsByMode: ModeTotals)
}
