/**
 * The mapping between trades and the rows of the `trades` table in `services/tradeService.ts`:
 * the app's camelCase records on one side, the table's snake_case columns on the other.
 */
module TradeService {
  import opened Wrappers
  import opened JsRuntime
  import opened Types

  /**
   * What `mapToDB` sends to the table: the owner and every column a trade has except `id`,
   * which the table assigns. An absent key is `None`.
   */
  datatype TradePayload = TradePayload(
    user_id: string,
    symbol: Option<string>,
    entry_date: Option<string>,
    exit_date: Option<string>,
    trade_type: Option<TradeType>,
    setup: Option<string>,
    entry_price: Option<JsNumber>,
    exit_price: Option<JsNumber>,
    stop_loss: Option<JsNumber>,
    quantity: Option<JsNumber>,
    pnl: Option<JsNumber>,
    r_multiple: Option<JsNumber>,
    status: Option<TradeStatus>,
    mistakes: Option<seq<string>>,
    notes: Option<string>,
    screenshot_url: Option<string>)

  /** A row as the table returns it: the required columns are there, the nullable ones may be null. */
  datatype TradeRow = TradeRow(
    id: string,
    user_id: string,
    symbol: string,
    entry_date: string,
    exit_date: string,
    trade_type: TradeType,
    setup: string,
    entry_price: JsNumber,
    exit_price: JsNumber,
    stop_loss: Option<JsNumber>,
    quantity: JsNumber,
    pnl: JsNumber,
    r_multiple: JsNumber,
    status: TradeStatus,
    mistakes: Option<seq<string>>,
    notes: Option<string>,
    screenshot_url: Option<string>)

  /**
   * `mapToDB` (services/tradeService.ts:26-43): the owner goes into `user_id` and each
   * property of the trade into its column, the id excepted.
   */
  function MapToDB(trade: TradeDraft, userId: string): (p: TradePayload)
    ensures p.user_id == userId
    ensures p.symbol == trade.symbol && p.entry_date == trade.entryDate && p.exit_date == trade.exitDate
    ensures p.trade_type == trade.tradeType && p.setup == trade.setup
    ensures p.entry_price == trade.entryPrice && p.exit_price == trade.exitPrice && p.stop_loss == trade.stopLoss
    ensures p.quantity == trade.quantity && p.pnl == trade.pnl && p.r_multiple == trade.rMultiple
    ensures p.status == trade.status && p.mistakes == trade.mistakes
    ensures p.notes == trade.notes && p.screenshot_url == trade.screenshotUrl
  {
    TradePayload(
      userId, trade.symbol, trade.entryDate, trade.exitDate, trade.tradeType, trade.setup,
      trade.entryPrice, trade.exitPrice, trade.stopLoss, trade.quantity, trade.pnl, trade.rMultiple,
      trade.status, trade.mistakes, trade.notes, trade.screenshotUrl)
  }

  /** The id never reaches the payload: two trades that differ only in id give the same payload. */
  lemma MapToDBIgnoresId(trade: TradeDraft, id: Option<string>, userId: string)
    ensures MapToDB(trade.(id := id), userId) == MapToDB(trade, userId)
  {
  }

  /**
   * `mapFromDB` (services/tradeService.ts:6-23): each column back into its property, a
   * falsy stop loss (null, 0 or NaN) to none and a null list of mistakes to `[]`.
   */
  function MapFromDB(row: TradeRow): (t: Trade)
    ensures t.id == row.id && t.symbol == row.symbol && t.setup == row.setup
    ensures t.entryDate == row.entry_date && t.exitDate == row.exit_date && t.tradeType == row.trade_type
    ensures t.entryPrice == row.entry_price && t.exitPrice == row.exit_price && t.quantity == row.quantity
    ensures t.pnl == row.pnl && t.rMultiple == row.r_multiple && t.status == row.status
    ensures t.stopLoss.Some? <==> row.stop_loss.Some? && Truthy(row.stop_loss.value)
    ensures t.stopLoss.Some? ==> t.stopLoss == row.stop_loss
    ensures t.mistakes.Some?
    ensures t.mistakes == Some(row.mistakes.GetOr([]))
    ensures t.notes == row.notes && t.screenshotUrl == row.screenshot_url
  {
    Trade(
      row.id, row.symbol, row.entry_date, row.exit_date, row.trade_type, row.setup,
      row.entry_price, row.exit_price,
      if row.stop_loss.Some? && Truthy(row.stop_loss.value) then row.stop_loss else None,
      row.quantity, row.pnl, row.r_multiple, row.status,
      Some(row.mistakes.GetOr([])), row.screenshot_url, row.notes)
  }

  /**
   * The row the table stores for a payload under a new id, when every required column is
   * in the payload; `None` when one is missing.
   */
  function Stored(p: TradePayload, id: string): (r: Option<TradeRow>)
    ensures r.Some? <==>
      && p.symbol.Some? && p.entry_date.Some? && p.exit_date.Some? && p.trade_type.Some? && p.setup.Some?
      && p.entry_price.Some? && p.exit_price.Some? && p.quantity.Some? && p.pnl.Some? && p.r_multiple.Some?
      && p.status.Some?
    ensures r.Some? ==> r.value.id == id && r.value.user_id == p.user_id
  {
    if && p.symbol.Some? && p.entry_date.Some? && p.exit_date.Some? && p.trade_type.Some? && p.setup.Some?
       && p.entry_price.Some? && p.exit_price.Some? && p.quantity.Some? && p.pnl.Some? && p.r_multiple.Some?
       && p.status.Some?
    then
      Some(TradeRow(
        id, p.user_id, p.symbol.value, p.entry_date.value, p.exit_date.value, p.trade_type.value,
        p.setup.value, p.entry_price.value, p.exit_price.value, p.stop_loss, p.quantity.value,
        p.pnl.value, p.r_multiple.value, p.status.value, p.mistakes, p.notes, p.screenshot_url))
    else None
  }

  /** What the round trip does to a trade: a falsy stop loss is dropped, absent mistakes become `[]`. */
  function Normalized(t: Trade): (n: Trade)
    ensures n.stopLoss.Some? ==> Truthy(n.stopLoss.value)
    ensures n.mistakes.Some?
  {
    t.(stopLoss := if t.stopLoss.Some? && Truthy(t.stopLoss.value) then t.stopLoss else None,
       mistakes := Some(t.mistakes.GetOr([])))
  }

  /**
   * Saving a whole trade and reading it back under its own id gives the trade again, up to
   * the stop loss and mistakes `Normalized` adjusts; the owner is the user who saved it.
   */
  lemma RoundTrip(t: Trade, userId: string)
    ensures Stored(MapToDB(Whole(t), userId), t.id).Some?
    ensures Stored(MapToDB(Whole(t), userId), t.id).value.user_id == userId
    ensures MapFromDB(Stored(MapToDB(Whole(t), userId), t.id).value) == Normalized(t)
  {
  }

  /** A trade with a truthy stop loss and a list of mistakes survives the round trip unchanged. */
  lemma RoundTripExact(t: Trade, userId: string)
    requires t.stopLoss.None? || Truthy(t.stopLoss.value)
    requires t.mistakes.Some?
    ensures MapFromDB(Stored(MapToDB(Whole(t), userId), t.id).value) == t
  {
    RoundTrip(t, userId);
  }

  /** A stop loss of 0 does not survive: it is read back as none. */
  lemma ZeroStopLossLost(t: Trade, userId: string)
    requires t.stopLoss == Some(Finite(0.0))
    ensures MapFromDB(Stored(MapToDB(Whole(t), userId), t.id).value).stopLoss.None?
  {
    RoundTrip(t, userId);
  }

  /** Reading a row back is stable: a trade read, saved and read again is the one first read. */
  lemma ReadSaveRead(row: TradeRow)
    ensures MapFromDB(Stored(MapToDB(Whole(MapFromDB(row)), row.user_id), row.id).value) == MapFromDB(row)
  {
    RoundTrip(MapFromDB(row), row.user_id);
  }
}
