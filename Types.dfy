/** The records of `types.ts` that the modelled components share. */
module Types {
  import opened Wrappers
  import opened JsRuntime

  datatype TradeType = Long | Short

  datatype TradeStatus = Win | Loss | BreakEven | Open

  /** The string value of each status (the enum's values). */
  function StatusText(s: TradeStatus): string {
    match s
    case Win => "WIN"
    case Loss => "LOSS"
    case BreakEven => "BREAK_EVEN"
    case Open => "OPEN"
  }

  /** A trade; the optional properties of the interface are `Option`s. */
  datatype Trade = Trade(
    id: string,
    symbol: string,
    entryDate: string,
    exitDate: string,
    tradeType: TradeType,
    setup: string,
    entryPrice: JsNumber,
    exitPrice: JsNumber,
    stopLoss: Option<JsNumber>,
    quantity: JsNumber,
    pnl: JsNumber,
    rMultiple: JsNumber,
    status: TradeStatus,
    mistakes: Option<seq<string>>,
    screenshotUrl: Option<string>,
    notes: Option<string>)

  /** `Partial<Trade>` (an edit form, a payload to create): a field is `None` when the object lacks that key. */
  datatype TradeDraft = TradeDraft(
    id: Option<string>,
    symbol: Option<string>,
    entryDate: Option<string>,
    exitDate: Option<string>,
    tradeType: Option<TradeType>,
    setup: Option<string>,
    entryPrice: Option<JsNumber>,
    exitPrice: Option<JsNumber>,
    stopLoss: Option<JsNumber>,
    quantity: Option<JsNumber>,
    pnl: Option<JsNumber>,
    rMultiple: Option<JsNumber>,
    status: Option<TradeStatus>,
    mistakes: Option<seq<string>>,
    screenshotUrl: Option<string>,
    notes: Option<string>)

  /** `{}`. */
  const EmptyDraft := TradeDraft(None, None, None, None, None, None, None, None, None, None, None, None, None, None, None, None)

  /** The trade as a form with every key present: the copy the trade journal edits. */
  function Whole(t: Trade): (d: TradeDraft)
    ensures d.id == Some(t.id) && d.symbol == Some(t.symbol) && d.pnl == Some(t.pnl)
    ensures d.stopLoss == t.stopLoss && d.mistakes == t.mistakes && d.notes == t.notes
  {
    TradeDraft(
      Some(t.id), Some(t.symbol), Some(t.entryDate), Some(t.exitDate), Some(t.tradeType), Some(t.setup),
      Some(t.entryPrice), Some(t.exitPrice), t.stopLoss, Some(t.quantity), Some(t.pnl), Some(t.rMultiple),
      Some(t.status), t.mistakes, t.screenshotUrl, t.notes)
  }

  datatype BacktestSession = BacktestSession(
    id: string,
    name: string,
    symbol: string,
    strategy: string,
    startDate: string,
    initialBalance: real,
    trades: seq<Trade>)

  /**
   * The status every component derives from the sign of a number (`x > 0 ? WIN : x < 0 ?
   * LOSS : BREAK_EVEN`): never OPEN, and NaN, failing both comparisons, is BREAK_EVEN.
   */
  function StatusOf(x: JsNumber): (s: TradeStatus)
    ensures s != Open
    ensures s == Win <==> IsPositive(x)
    ensures s == Loss <==> IsNegative(x)
    ensures x.NaN? ==> s == BreakEven
  {
    if IsPositive(x) then Win else if IsNegative(x) then Loss else BreakEven
  }
}
