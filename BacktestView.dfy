/**
 * The backtesting workspace of `components/BacktestView.tsx`: the list of sessions, the
 * sessions selected for comparison, the active session and its trade form.
 */
module BacktestView {
  import opened Wrappers
  import opened JsRuntime
  import opened Seqs
  import opened Types

  // =======================================================================================
  // Selection

  /** The update of `toggleSelection`: a present id is removed, an absent one appended. */
  function Toggle(ids: seq<string>, id: string): (r: seq<string>)
    ensures id in ids ==> r == Without(ids, id)
    ensures id !in ids ==> r == ids + [id]
    ensures id in r <==> id !in ids
    ensures forall x :: x != id ==> (x in r <==> x in ids)
  {
    if id in ids then Without(ids, id) else ids + [id]
  }

  /** Toggling keeps the selection free of duplicates. */
  lemma ToggleNoDuplicates(ids: seq<string>, id: string)
    requires NoDuplicates(ids)
    ensures NoDuplicates(Toggle(ids, id))
  {
    if id in ids {
      WithoutNoDuplicates(ids, id);
    } else {
      var r := ids + [id];
      forall i, j | 0 <= i < j < |r| ensures r[i] != r[j] {
        if j == |ids| {
          assert r[i] == ids[i];
        }
      }
    }
  }

  /** Selecting a session and toggling it again restores the selection exactly. */
  lemma ToggleTwiceAbsent(ids: seq<string>, id: string)
    requires id !in ids
    ensures Toggle(Toggle(ids, id), id) == ids
  {
    WithoutAppended(ids, id);
  }

  /**
   * Unselecting a selected session and toggling it again restores which sessions are
   * selected, but the session moves to the end of the list.
   */
  lemma ToggleTwicePresent(ids: seq<string>, id: string)
    requires id in ids
    ensures Toggle(Toggle(ids, id), id) == Without(ids, id) + [id]
    ensures forall x :: x in Toggle(Toggle(ids, id), id) <==> x in ids
  {
  }

  /** The order does change: `["a", "b"]` toggled twice on `"a"` is `["b", "a"]`. */
  lemma ToggleTwiceReorders()
    ensures Toggle(Toggle(["a", "b"], "a"), "a") == ["b", "a"]
  {
    var ids := ["a", "b"];
    assert ids == ["a"] + ["b"];
    assert Without(["b"], "a") == ["b"];
    assert Without(ids, "a") == ["b"];
    assert "a" !in ["b"];
  }

  // =======================================================================================
  // Sessions

  /** `sessions.filter(s => s.id !== id)`. */
  function WithoutSession(sessions: seq<BacktestSession>, id: string): (r: seq<BacktestSession>)
    ensures IsSubsequence(r, sessions)
    ensures forall k :: 0 <= k < |r| ==> r[k].id != id
    ensures forall k :: 0 <= k < |sessions| && sessions[k].id != id ==> sessions[k] in r
  {
    var keep := (s: BacktestSession) => s.id != id;
    FilterIsSubsequence(sessions, keep);
    Filter(sessions, keep)
  }

  /** The first session with the id, or -1: the index `sessions.find` stops at. */
  function SessionIndex(sessions: seq<BacktestSession>, id: string): (k: int)
    ensures -1 <= k < |sessions|
    ensures k >= 0 ==> sessions[k].id == id && forall j :: 0 <= j < k ==> sessions[j].id != id
    ensures k == -1 <==> forall j :: 0 <= j < |sessions| ==> sessions[j].id != id
  {
    if sessions == [] then -1
    else if sessions[0].id == id then 0
    else
      var k := SessionIndex(sessions[1..], id);
      if k < 0 then -1 else k + 1
  }

  /** `activeSession`: the first session whose id is the active one; none when no id is active. */
  function ActiveSession(sessions: seq<BacktestSession>, activeId: Option<string>): (r: Option<BacktestSession>)
    ensures activeId.None? ==> r.None?
    ensures r.Some? ==> r.value in sessions && activeId == Some(r.value.id)
    ensures r.Some? ==>
      exists k :: 0 <= k < |sessions| && sessions[k] == r.value && forall j :: 0 <= j < k ==> sessions[j].id != r.value.id
    ensures activeId.Some? && r.None? ==> forall j :: 0 <= j < |sessions| ==> sessions[j].id != activeId.value
  {
    if activeId.None? then None
    else
      var k := SessionIndex(sessions, activeId.value);
      if k < 0 then None else Some(sessions[k])
  }

  /** `sessions.map(s => s.id === id ? updated : s)`. */
  function ReplaceSession(sessions: seq<BacktestSession>, id: string, updated: BacktestSession)
    : (r: seq<BacktestSession>)
    ensures |r| == |sessions|
    ensures forall k :: 0 <= k < |r| ==> r[k] == if sessions[k].id == id then updated else sessions[k]
  {
    seq(|sessions|, k requires 0 <= k < |sessions| => if sessions[k].id == id then updated else sessions[k])
  }

  /** After the replacement the active session is the updated one. */
  lemma ReplaceActive(sessions: seq<BacktestSession>, id: string, updated: BacktestSession)
    requires ActiveSession(sessions, Some(id)).Some? && updated.id == id
    ensures ActiveSession(ReplaceSession(sessions, id, updated), Some(id)) == Some(updated)
  {
    var k := SessionIndex(sessions, id);
    var r := ReplaceSession(sessions, id, updated);
    assert forall j :: 0 <= j < k ==> r[j] == sessions[j];
    SessionIndexIs(r, id, k);
  }

  lemma {:induction false} SessionIndexIs(sessions: seq<BacktestSession>, id: string, k: int)
    requires 0 <= k < |sessions| && sessions[k].id == id
    requires forall j :: 0 <= j < k ==> sessions[j].id != id
    ensures SessionIndex(sessions, id) == k
  {
    if k > 0 {
      assert sessions[0].id != id;
      SessionIndexIs(sessions[1..], id, k - 1);
    }
  }

  // =======================================================================================
  // New trades and sessions

  /** The trade form of a session. */
  datatype TradeForm = TradeForm(
    symbol: string,
    tradeType: TradeType,
    setup: string,
    rMultiple: JsNumber,
    status: TradeStatus,
    notes: string)

  const InitialTradeForm := TradeForm("", Long, "", Finite(0.0), Win, "")

  /** The form for a new session. */
  datatype SessionForm = SessionForm(name: string, symbol: string, strategy: string, balance: real)

  const InitialSessionForm := SessionForm("", "FX:EURUSD", "", 100000.0)

  /** `x * k` for a finite factor `k`. */
  function Scale(x: JsNumber, k: real): (r: JsNumber)
    ensures x.Finite? ==> r == Finite(x.value * k)
    ensures x.NaN? ==> r.NaN?
  {
    if x.Finite? then Finite(x.value * k)
    else if x.NaN? then NaN
    else if k == 0.0 then NaN
    else if k > 0.0 then x
    else Infinite(!x.negative)
  }

  /** `s.replace(from, to)` with a one-character pattern: only the first occurrence. */
  function ReplaceFirst(s: string, from: char, to: char): (r: string)
    ensures |r| == |s|
    ensures from !in s ==> r == s
    ensures from in s ==>
      && r[IndexOf(s, from)] == to
      && forall i :: 0 <= i < |s| && i != IndexOf(s, from) ==> r[i] == s[i]
  {
    var k := IndexOf(s, from);
    if k < 0 then s else s[k := to]
  }

  /** `iso.replace('T', ' ').substring(0, 16)`: `YYYY-MM-DD HH:MM` of an ISO time stamp. */
  function IsoMinute(iso: string): (r: string)
    ensures |r| <= 16
  {
    Take(ReplaceFirst(iso, 'T', ' '), 16)
  }

  /** `iso.split('T')[0]`: the date part of an ISO time stamp. */
  function IsoDay(iso: string): (r: string)
    ensures 'T' !in r
    ensures 'T' !in iso ==> r == iso
  {
    SplitWhole(iso, 'T');
    Split(iso, 'T')[0]
  }

  lemma SplitWhole(s: string, sep: char)
    ensures sep !in s ==> Split(s, sep) == [s]
  {
    if sep !in s {
      SplitNone(s, sep);
    }
  }

  /** The date part is what precedes the first `T`. */
  lemma IsoDayOf(day: string, time: string)
    requires 'T' !in day
    ensures IsoDay(day + "T" + time) == day
  {
    SplitAt(day, 'T', time);
  }

  /**
   * The trade `handleAddTrade` builds (components/BacktestView.tsx:155-172): `bt_trade_`
   * and the clock as id, the form's symbol or `TEST`, its setup or `Backtest Setup`, prices
   * 0, quantity 1, `r` times one percent of the balance as P&L, the status by the sign of
   * `r`, the form's notes and no mistakes. The entry and exit dates come from two readings
   * of the clock, since the source calls `new Date()` once for each.
   */
  function NewTrade(form: TradeForm, balance: real, millis: nat, isoEntry: string, isoExit: string): (t: Trade)
    ensures t.id == "bt_trade_" + NatToString(millis)
    ensures t.symbol == (if form.symbol == "" then "TEST" else form.symbol)
    ensures t.setup == (if form.setup == "" then "Backtest Setup" else form.setup)
    ensures t.entryDate == IsoMinute(isoEntry) && t.exitDate == IsoMinute(isoExit)
    ensures t.tradeType == form.tradeType
    ensures t.entryPrice == Finite(0.0) && t.exitPrice == Finite(0.0) && t.quantity == Finite(1.0)
    ensures t.pnl == Scale(form.rMultiple, balance * 0.01) && t.rMultiple == form.rMultiple
    ensures t.status == StatusOf(form.rMultiple)
    ensures IsPositive(form.rMultiple) ==> t.status == Win
    ensures IsNegative(form.rMultiple) ==> t.status == Loss
    ensures !IsPositive(form.rMultiple) && !IsNegative(form.rMultiple) ==> t.status == BreakEven
    ensures t.notes == Some(form.notes) && t.mistakes == Some([])
    ensures t.stopLoss.None? && t.screenshotUrl.None?
  {
    Trade(
      "bt_trade_" + NatToString(millis),
      if form.symbol == "" then "TEST" else form.symbol,
      IsoMinute(isoEntry), IsoMinute(isoExit),
      form.tradeType,
      if form.setup == "" then "Backtest Setup" else form.setup,
      Finite(0.0), Finite(0.0), None, Finite(1.0),
      Scale(form.rMultiple, balance * 0.01), form.rMultiple,
      StatusOf(form.rMultiple),
      Some([]), None, Some(form.notes))
  }

  /**
   * The session `handleCreateSession` builds (components/BacktestView.tsx:124-132): `bt_`
   * and the clock as id, the form's name or `Session <date>`, its symbol, its strategy or
   * `Manual Backtest`, today's date, its balance and no trades.
   */
  function NewSession(form: SessionForm, millis: nat, localeDate: string, isoNow: string): (s: BacktestSession)
    ensures s.id == "bt_" + NatToString(millis)
    ensures s.name == (if form.name == "" then "Session " + localeDate else form.name)
    ensures s.strategy == (if form.strategy == "" then "Manual Backtest" else form.strategy)
    ensures s.symbol == form.symbol && s.initialBalance == form.balance
    ensures s.startDate == IsoDay(isoNow) && s.trades == []
  {
    BacktestSession(
      "bt_" + NatToString(millis),
      if form.name == "" then "Session " + localeDate else form.name,
      form.symbol,
      if form.strategy == "" then "Manual Backtest" else form.strategy,
      IsoDay(isoNow), form.balance, [])
  }

  /**
   * The symbol the trade form takes from the session (components/BacktestView.tsx:102):
   * the text between the first and second `:` when it is not empty, otherwise the whole
   * symbol.
   */
  function SimpleSymbol(symbol: string): (r: string)
    ensures ':' !in symbol ==> r == symbol
    ensures r == symbol || (':' in symbol && ':' !in r && r != "")
  {
    var parts := Split(symbol, ':');
    SplitWhole(symbol, ':');
    if |parts| >= 2 && parts[1] != "" then parts[1] else symbol
  }

  /**
   * The second `:`-segment is taken when it is not empty: `FX:EURUSD` gives `EURUSD`,
   * `A:B:C` gives `B`, and `FX:` or `A::C` is kept whole.
   */
  lemma SimpleSymbolSegment(exchange: string, ticker: string, tail: string)
    requires ':' !in exchange && ':' !in ticker
    requires tail == "" || tail[0] == ':'
    ensures SimpleSymbol(exchange + ":" + ticker + tail) == if ticker != "" then ticker else exchange + ":" + ticker + tail
  {
    assert exchange + ":" + ticker + tail == exchange + [':'] + (ticker + tail);
    SplitAt(exchange, ':', ticker + tail);
    if tail == "" {
      assert ticker + tail == ticker;
      SplitNone(ticker, ':');
    } else {
      assert ticker + tail == ticker + [':'] + tail[1..];
      SplitAt(ticker, ':', tail[1..]);
    }
  }

  // =======================================================================================
  // Session statistics

  /** `trades.filter(t => t.status === WIN).length`. */
  function WinCount(trades: seq<Trade>): (n: nat)
    ensures n <= |trades|
  {
    if trades == [] then 0 else (if trades[0].status == Win then 1 else 0) + WinCount(trades[1..])
  }

  predicate IsWin(t: Trade) {
    t.status == Win
  }

  /** The count is the length of the filter the source writes. */
  lemma {:induction false} WinCountIsFilter(trades: seq<Trade>)
    ensures WinCount(trades) == |Filter(trades, IsWin)|
  {
    if trades != [] {
      WinCountIsFilter(trades[1..]);
    }
  }

  /** Every trade won exactly when the count is the number of trades; none won exactly when it is 0. */
  lemma {:induction false} WinCountExtremes(trades: seq<Trade>)
    ensures WinCount(trades) == |trades| <==> forall k :: 0 <= k < |trades| ==> trades[k].status == Win
    ensures WinCount(trades) == 0 <==> forall k :: 0 <= k < |trades| ==> trades[k].status != Win
  {
    if trades != [] {
      WinCountExtremes(trades[1..]);
      assert forall k :: 1 <= k < |trades| ==> trades[k] == trades[1..][k - 1];
    }
  }

  /** The win rate: `'0.0'` without trades, else a percentage whose `toFixed(1)` is shown. */
  datatype WinRate = NoTrades | Percent(value: real)

  const NoTradesRateText := "0.0"

  /** The count parts of `calculateSessionStats` (components/BacktestView.tsx:108-110, 119). */
  datatype SessionCounts = SessionCounts(wins: nat, totalTrades: nat, winRate: WinRate)

  function Counts(trades: seq<Trade>): (c: SessionCounts)
    ensures c.totalTrades == |trades| && c.wins == WinCount(trades) && c.wins <= c.totalTrades
    ensures c.winRate.NoTrades? <==> trades == []
    ensures c.winRate.Percent? ==> 0.0 <= c.winRate.value <= 100.0
    ensures c.winRate.Percent? ==> (c.winRate.value == 100.0 <==> c.wins == c.totalTrades)
    ensures c.winRate.Percent? ==> (c.winRate.value == 0.0 <==> c.wins == 0)
  {
    var wins := WinCount(trades);
    var total := |trades|;
    if total == 0 then SessionCounts(wins, total, NoTrades)
    else
      var p := wins as real / total as real * 100.0;
      RatioBounds(wins, total);
      SessionCounts(wins, total, Percent(p))
  }

  lemma RatioBounds(wins: nat, total: nat)
    requires 0 < total && wins <= total
    ensures 0.0 <= wins as real / total as real * 100.0 <= 100.0
    ensures wins as real / total as real * 100.0 == 100.0 <==> wins == total
    ensures wins as real / total as real * 100.0 == 0.0 <==> wins == 0
  {
    UnitRatio(wins as real, total as real);
  }

  /** A share `w / t` of a positive whole lies between 0 and 1, at the ends exactly when `w` does. */
  lemma UnitRatio(w: real, t: real)
    requires 0.0 <= w <= t && t > 0.0
    ensures 0.0 <= w / t <= 1.0
    ensures w / t == 1.0 <==> w == t
    ensures w / t == 0.0 <==> w == 0.0
  {
    var q := w / t;
    assert q * t == w;
    ScaleSign(q, t);
  }

  /** How multiplying by a positive `t` places `q * t` against 0 and `t`. */
  lemma ScaleSign(q: real, t: real)
    requires t > 0.0
    ensures q < 0.0 ==> q * t < 0.0
    ensures q > 1.0 ==> q * t > t
    ensures q == 1.0 <==> q * t == t
    ensures q == 0.0 <==> q * t == 0.0
  {
    assert q * t - t == (q - 1.0) * t;
  }

  /** The text of the win rate, `toFixed(1)` being a parameter. */
  function WinRateText(rate: WinRate, toFixed1: real -> string): (s: string)
    ensures rate.NoTrades? ==> s == NoTradesRateText
  {
    match rate
    case NoTrades => NoTradesRateText
    case Percent(p) => toFixed1(p)
  }

  /** Adding a trade counts one more trade, and one more win exactly when its `r` is positive. */
  lemma CountsAfterAdd(form: TradeForm, balance: real, millis: nat, isoEntry: string, isoExit: string, trades: seq<Trade>)
    ensures Counts([NewTrade(form, balance, millis, isoEntry, isoExit)] + trades).totalTrades == |trades| + 1
    ensures Counts([NewTrade(form, balance, millis, isoEntry, isoExit)] + trades).wins ==
      WinCount(trades) + (if IsPositive(form.rMultiple) then 1 else 0)
  {
    assert ([NewTrade(form, balance, millis, isoEntry, isoExit)] + trades)[1..] == trades;
  }

  // =======================================================================================
  // The component state

  class BacktestWorkspace {
    var sessions: seq<BacktestSession>
    var activeSessionId: Option<string>
    var selectedSessionIds: seq<string>
    var isCreating: bool
    var newSessionForm: SessionForm
    var tradeForm: TradeForm

    /** The initial state, `saved` being what was stored or the sample sessions (components/BacktestView.tsx:57-93). */
    constructor(saved: seq<BacktestSession>)
      ensures sessions == saved && activeSessionId.None? && selectedSessionIds == [] && !isCreating
      ensures newSessionForm == InitialSessionForm && tradeForm == InitialTradeForm
    {
      sessions := saved;
      activeSessionId := None;
      selectedSessionIds := [];
      isCreating := false;
      newSessionForm := InitialSessionForm;
      tradeForm := InitialTradeForm;
    }

    /** `toggleSelection` (components/BacktestView.tsx:185-190). */
    method ToggleSelection(id: string)
      modifies this
      ensures selectedSessionIds == Toggle(old(selectedSessionIds), id)
      ensures sessions == old(sessions) && activeSessionId == old(activeSessionId) && isCreating == old(isCreating)
      ensures newSessionForm == old(newSessionForm) && tradeForm == old(tradeForm)
    {
      selectedSessionIds := if id in selectedSessionIds then Without(selectedSessionIds, id) else selectedSessionIds + [id];
    }

    /**
     * `handleDeleteSession` (components/BacktestView.tsx:140-147), `confirmed` being the
     * answer to the confirmation: the session leaves the list and the selection, and stops
     * being the active one; unconfirmed, nothing changes.
     */
    method DeleteSession(id: string, confirmed: bool)
      modifies this
      ensures !confirmed ==>
        && sessions == old(sessions) && activeSessionId == old(activeSessionId)
        && selectedSessionIds == old(selectedSessionIds)
      ensures confirmed ==>
        && sessions == WithoutSession(old(sessions), id)
        && activeSessionId == (if old(activeSessionId) == Some(id) then None else old(activeSessionId))
        && selectedSessionIds == Without(old(selectedSessionIds), id)
      ensures isCreating == old(isCreating) && newSessionForm == old(newSessionForm) && tradeForm == old(tradeForm)
    {
      if confirmed {
        sessions := WithoutSession(sessions, id);
        if activeSessionId == Some(id) {
          activeSessionId := None;
        }
        selectedSessionIds := Without(selectedSessionIds, id);
      }
    }

    /**
     * `handleAddTrade` (components/BacktestView.tsx:149-183): without an active session
     * nothing happens; otherwise the new trade goes first in the active session, every
     * session with another id is left as it was, and the form keeps its symbol, type and
     * setup while `r`, status and notes are reset.
     */
    method AddTrade(millis: nat, isoEntry: string, isoExit: string)
      modifies this
      ensures ActiveSession(old(sessions), old(activeSessionId)).None? ==>
        sessions == old(sessions) && tradeForm == old(tradeForm)
      ensures ActiveSession(old(sessions), old(activeSessionId)).Some? ==>
        var a := ActiveSession(old(sessions), old(activeSessionId)).value;
        var updated := a.(trades := [NewTrade(old(tradeForm), a.initialBalance, millis, isoEntry, isoExit)] + a.trades);
        && sessions == ReplaceSession(old(sessions), a.id, updated)
        && ActiveSession(sessions, activeSessionId) == Some(updated)
        && tradeForm == old(tradeForm).(rMultiple := Finite(0.0), status := Win, notes := "")
      ensures activeSessionId == old(activeSessionId) && selectedSessionIds == old(selectedSessionIds)
      ensures isCreating == old(isCreating) && newSessionForm == old(newSessionForm)
    {
      var active := ActiveSession(sessions, activeSessionId);
      if active.None? {
        return;
      }
      var a := active.value;
      var newTrade := NewTrade(tradeForm, a.initialBalance, millis, isoEntry, isoExit);
      var updated := a.(trades := [newTrade] + a.trades);
      ReplaceActive(sessions, a.id, updated);
      sessions := ReplaceSession(sessions, a.id, updated);
      tradeForm := tradeForm.(rMultiple := Finite(0.0), status := Win, notes := "");
    }

    /**
     * `handleCreateSession` (components/BacktestView.tsx:121-138): the new session goes last
     * and becomes the active one, the dialog closes and its form is reset.
     */
    method CreateSession(millis: nat, localeDate: string, isoNow: string)
      modifies this
      ensures sessions == old(sessions) + [NewSession(old(newSessionForm), millis, localeDate, isoNow)]
      ensures activeSessionId == Some(NewSession(old(newSessionForm), millis, localeDate, isoNow).id)
      ensures (forall k :: 0 <= k < |old(sessions)| ==> old(sessions)[k].id != "bt_" + NatToString(millis)) ==>
        ActiveSession(sessions, activeSessionId) == Some(NewSession(old(newSessionForm), millis, localeDate, isoNow))
      ensures !isCreating && newSessionForm == InitialSessionForm
      ensures selectedSessionIds == old(selectedSessionIds) && tradeForm == old(tradeForm)
    {
      var s := NewSession(newSessionForm, millis, localeDate, isoNow);
      if forall k :: 0 <= k < |sessions| ==> sessions[k].id != s.id {
        SessionIndexIs(sessions + [s], s.id, |sessions|);
      }
      sessions := sessions + [s];
      activeSessionId := Some(s.id);
      isCreating := false;
      newSessionForm := InitialSessionForm;
    }

    /**
     * The effect that copies the active session's simple symbol into the trade form when
     * the active session changes (components/BacktestView.tsx:99-105).
     */
    method SyncTradeSymbol()
      modifies this
      ensures ActiveSession(old(sessions), old(activeSessionId)).None? ==> tradeForm == old(tradeForm)
      ensures ActiveSession(old(sessions), old(activeSessionId)).Some? ==>
        tradeForm == old(tradeForm).(symbol := SimpleSymbol(ActiveSession(old(sessions), old(activeSessionId)).value.symbol))
      ensures sessions == old(sessions) && activeSessionId == old(activeSessionId)
      ensures selectedSessionIds == old(selectedSessionIds) && isCreating == old(isCreating)
      ensures newSessionForm == old(newSessionForm)
    {
      var active := ActiveSession(sessions, activeSessionId);
      if active.Some? {
        tradeForm := tradeForm.(symbol := SimpleSymbol(active.value.symbol));
      }
    }
  }
}
