/**
 * The month grid of `components/CalendarView.tsx`: the per-day statistics built from the
 * trades, the flat list of day cells with its leading placeholders, the chunking into
 * seven-day weeks with the padded last week, and the weekly totals.
 */
module CalendarView {
  import opened Wrappers
  import opened JsRuntime
  import opened Seqs
  import opened Types

  // =======================================================================================
  // dailyStatsMap

  /** The calendar day a trade is filed under: its entry date up to the first space. */
  function EntryDay(t: Trade): string {
    Split(t.entryDate, ' ')[0]
  }

  datatype DayStat = DayStat(pnl: JsNumber, count: nat)

  /** How many of `ts` were entered on day `d`. */
  function TradesOn(ts: seq<Trade>, d: string): (n: nat)
    ensures n <= |ts|
  {
    if ts == [] then 0
    else TradesOn(ts[..|ts| - 1], d) + (if EntryDay(ts[|ts| - 1]) == d then 1 else 0)
  }

  /** The P&L of the trades entered on day `d`, added up in order from 0. */
  function PnlOn(ts: seq<Trade>, d: string): JsNumber {
    if ts == [] then Finite(0.0)
    else if EntryDay(ts[|ts| - 1]) == d then Add(PnlOn(ts[..|ts| - 1], d), ts[|ts| - 1].pnl)
    else PnlOn(ts[..|ts| - 1], d)
  }

  /** A day without trades has a P&L of 0. */
  lemma {:induction false} PnlOnNoTrades(ts: seq<Trade>, d: string)
    requires TradesOn(ts, d) == 0
    ensures PnlOn(ts, d) == Finite(0.0)
  {
    if ts != [] {
      PnlOnNoTrades(ts[..|ts| - 1], d);
    }
  }

  predicate OnDay(d: string, t: Trade) {
    EntryDay(t) == d
  }

  /** The day count is the length of the list of that day's trades. */
  lemma {:induction false} TradesOnIsFilterLength(ts: seq<Trade>, d: string)
    ensures TradesOn(ts, d) == |Filter(ts, t => OnDay(d, t))|
  {
    if ts != [] {
      var init, last := ts[..|ts| - 1], ts[|ts| - 1];
      TradesOnIsFilterLength(init, d);
      assert ts == init + [last];
      FilterAppend(init, [last], t => OnDay(d, t));
      assert [last][1..] == [];
    }
  }

  /**
   * The `forEach` that fills `dailyStatsMap` (components/CalendarView.tsx:23-32): a day has an
   * entry exactly when some trade was entered on it, and the entry holds that day's trade
   * count and P&L.
   */
  method DailyStatsMap(trades: seq<Trade>) returns (stats: map<string, DayStat>)
    ensures forall d :: d in stats <==> TradesOn(trades, d) > 0
    ensures forall d :: d in stats ==> stats[d] == DayStat(PnlOn(trades, d), TradesOn(trades, d))
  {
    stats := map[];
    for k := 0 to |trades|
      invariant forall d :: d in stats <==> TradesOn(trades[..k], d) > 0
      invariant forall d :: d in stats ==> stats[d] == DayStat(PnlOn(trades[..k], d), TradesOn(trades[..k], d))
    {
      assert trades[..k + 1][..k] == trades[..k];
      var t := trades[k];
      var date := EntryDay(t);
      if date !in stats {
        PnlOnNoTrades(trades[..k], date);
        stats := stats[date := DayStat(Finite(0.0), 0)];
      }
      stats := stats[date := stats[date].(pnl := Add(stats[date].pnl, t.pnl))];
      stats := stats[date := stats[date].(count := stats[date].count + 1)];
    }
    assert trades[..|trades|] == trades;
  }

  // =======================================================================================
  // dayCells

  /** A day of the month as the grid shows it. */
  datatype DayCell = DayCell(day: nat, date: string, pnl: Option<JsNumber>, tradeCount: nat)

  /** A grid cell: `None` is a `null` placeholder. */
  type Cell = Option<DayCell>

  /** The key of day `d`: `${year}-${MM}-${DD}` with the month counted from 1 and both padded to two digits. */
  function DateKey(year: int, month: nat, d: nat): string {
    IntToString(year) + "-" + Pad2(month + 1) + "-" + Pad2(d)
  }

  /** The key is the year, a dash, the two digits of `month + 1`, a dash and the two digits of `d`. */
  lemma DateKeyLayout(year: int, month: nat, d: nat)
    requires month + 1 < 100 && d < 100
    ensures var k := DateKey(year, month, d);
      var n := |IntToString(year)|;
      && |k| == n + 6
      && k[..n] == IntToString(year)
      && k[n] == '-' && k[n + 3] == '-'
      && AllDigits(k[n + 1..n + 3]) && DigitsValue(k[n + 1..n + 3]) == month + 1
      && AllDigits(k[n + 4..]) && DigitsValue(k[n + 4..]) == d
  {
    Pad2Value(month + 1);
    Pad2Value(d);
    DashedLayout(IntToString(year), Pad2(month + 1), Pad2(d));
  }

  /** Where the parts of `y-mm-dd` sit when `mm` and `dd` have two characters each. */
  lemma DashedLayout(y: string, mm: string, dd: string)
    requires |mm| == 2 && |dd| == 2
    ensures var k := y + "-" + mm + "-" + dd;
      && |k| == |y| + 6
      && k[..|y|] == y
      && k[|y|] == '-' && k[|y| + 3] == '-'
      && k[|y| + 1..|y| + 3] == mm
      && k[|y| + 4..] == dd
  {
    var k := y + "-" + mm + "-" + dd;
    assert k == y + ("-" + mm + "-" + dd);
    assert k[|y|..] == "-" + mm + "-" + dd;
  }

  /** Within one month the key determines the day. */
  lemma DateKeyDeterminesDay(year: int, month: nat, d1: nat, d2: nat)
    requires month + 1 < 100 && d1 < 100 && d2 < 100
    requires DateKey(year, month, d1) == DateKey(year, month, d2)
    ensures d1 == d2
  {
    DateKeyLayout(year, month, d1);
    DateKeyLayout(year, month, d2);
  }

  /** The cell of day `d`: its own key, and the day's P&L and count when it has statistics, else no P&L and a count of 0. */
  function DayCellFor(year: int, month: nat, d: nat, stats: map<string, DayStat>): (c: DayCell)
    ensures c.day == d && c.date == DateKey(year, month, d)
    ensures c.date in stats ==> c.pnl == Some(stats[c.date].pnl) && c.tradeCount == stats[c.date].count
    ensures c.date !in stats ==> c.pnl.None? && c.tradeCount == 0
  {
    var dateStr := DateKey(year, month, d);
    if dateStr in stats then DayCell(d, dateStr, Some(stats[dateStr].pnl), stats[dateStr].count)
    else DayCell(d, dateStr, None, 0)
  }

  /**
   * The two loops that fill `dayCells` (components/CalendarView.tsx:39-58): `firstDayOfMonth`
   * placeholders, then the days `1 .. daysInMonth` in order.
   */
  method DayCells(year: int, month: nat, daysInMonth: nat, firstDayOfMonth: nat, stats: map<string, DayStat>)
    returns (cells: seq<Cell>)
    ensures |cells| == firstDayOfMonth + daysInMonth
    ensures forall i :: 0 <= i < firstDayOfMonth ==> cells[i].None?
    ensures forall i :: firstDayOfMonth <= i < |cells| ==>
      cells[i] == Some(DayCellFor(year, month, i - firstDayOfMonth + 1, stats))
  {
    cells := [];
    for i := 0 to firstDayOfMonth
      invariant |cells| == i
      invariant forall j :: 0 <= j < i ==> cells[j].None?
    {
      cells := cells + [None];
    }
    ghost var lead := cells;
    cells := AppendDays(cells, year, month, daysInMonth, stats);
    assert forall i :: 0 <= i < firstDayOfMonth ==> cells[i] == lead[i];
    forall i | firstDayOfMonth <= i < |cells|
      ensures cells[i] == Some(DayCellFor(year, month, i - firstDayOfMonth + 1, stats))
    {
      assert cells[i] == Some(DayCellFor(year, month, i - |lead| + 1, stats));
    }
  }

  /** The second loop of `dayCells`: the days `1 .. daysInMonth` pushed in order after `cells`. */
  method AppendDays(cells: seq<Cell>, year: int, month: nat, daysInMonth: nat, stats: map<string, DayStat>)
    returns (r: seq<Cell>)
    ensures |r| == |cells| + daysInMonth
    ensures r[..|cells|] == cells
    ensures forall j :: |cells| <= j < |r| ==> r[j] == Some(DayCellFor(year, month, j - |cells| + 1, stats))
  {
    r := cells;
    for d := 1 to daysInMonth + 1
      invariant |r| == |cells| + d - 1
      invariant r[..|cells|] == cells
      invariant forall j :: |cells| <= j < |r| ==> r[j] == Some(DayCellFor(year, month, j - |cells| + 1, stats))
    {
      r := r + [Some(DayCellFor(year, month, d, stats))];
    }
  }

  // =======================================================================================
  // weeks

  /**
   * The chunking loop and the padding of the last week (components/CalendarView.tsx:60-79):
   * every week has seven cells, there are `ceil(|cells| / 7)` of them, and read in order they
   * are the cells followed by `null`s only.
   */
  method Weeks(cells: seq<Cell>) returns (weeks: seq<seq<Cell>>)
    ensures forall w :: 0 <= w < |weeks| ==> |weeks[w]| == 7
    ensures |weeks| == (|cells| + 6) / 7
    ensures 7 * |weeks| >= |cells|
    ensures Flatten(weeks) == cells + Repeat(None, 7 * |weeks| - |cells|)
  {
    weeks := [];
    var currentWeek: seq<Cell> := [];
    for i := 0 to |cells|
      invariant forall w :: 0 <= w < |weeks| ==> |weeks[w]| == 7
      invariant |weeks| == i / 7 && |currentWeek| == i % 7
      invariant Flatten(weeks) + currentWeek == cells[..i]
    {
      assert cells[..i + 1] == cells[..i] + [cells[i]];
      NextDay(i);
      currentWeek := currentWeek + [cells[i]];
      if |currentWeek| == 7 {
        FlattenAppend(weeks, currentWeek);
        weeks := weeks + [currentWeek];
        currentWeek := [];
      }
    }
    assert cells[..|cells|] == cells;
    WeekCount(|cells|);
    if |currentWeek| > 0 {
      ghost var pad := 7 - |currentWeek|;
      currentWeek := PadWeek(currentWeek);
      assert Flatten(weeks) + currentWeek == cells + Repeat(None, pad);
      FlattenAppend(weeks, currentWeek);
      weeks := weeks + [currentWeek];
    } else {
      assert Repeat<Cell>(None, 0) == [];
    }
  }

  /** The padding loop of the last week: `null`s are pushed until it has seven cells. */
  method PadWeek(week: seq<Cell>) returns (padded: seq<Cell>)
    requires |week| <= 7
    ensures padded == week + Repeat(None, 7 - |week|)
  {
    padded := week;
    assert Repeat<Cell>(None, 0) == [];
    while |padded| < 7
      invariant |week| <= |padded| <= 7
      invariant padded == week + Repeat(None, |padded| - |week|)
      decreases 7 - |padded|
    {
      ghost var k := |padded| - |week|;
      assert Repeat<Cell>(None, k + 1) == Repeat(None, k) + [None];
      padded := padded + [None];
    }
  }

  /** Counting one more cell: the place in the week moves on, or a new week starts. */
  lemma NextDay(i: nat)
    ensures i % 7 == 6 ==> (i + 1) / 7 == i / 7 + 1 && (i + 1) % 7 == 0
    ensures i % 7 != 6 ==> (i + 1) / 7 == i / 7 && (i + 1) % 7 == i % 7 + 1
  {
  }

  /** The number of weeks `n` cells need. */
  lemma WeekCount(n: nat)
    ensures n % 7 == 0 ==> (n + 6) / 7 == n / 7
    ensures n % 7 != 0 ==> (n + 6) / 7 == n / 7 + 1
    ensures 7 * (n / 7) + n % 7 == n
  {
  }

  // =======================================================================================
  // weeksWithStats

  datatype WeekSummary = WeekSummary(pnl: JsNumber, trades: nat)
  datatype WeekRow = WeekRow(days: seq<Cell>, summary: WeekSummary)

  predicate IsDay(c: Cell) {
    c.Some?
  }

  /** `curr.tradeCount || 0` for a cell, a placeholder counting as 0. */
  function TradeCount(c: Cell): nat {
    match c
    case Some(day) => day.tradeCount
    case None => 0
  }

  /** The trades of a list of cells, a placeholder counting as none: `reduce` over `curr.tradeCount || 0`. */
  function SumTrades(cells: seq<Cell>): nat {
    if cells == [] then 0 else SumTrades(cells[..|cells| - 1]) + TradeCount(cells[|cells| - 1])
  }

  /** `curr.pnl || 0`: a missing, zero or NaN P&L counts as 0. */
  function PnlOrZero(c: Cell): JsNumber {
    match c
    case Some(day) => if day.pnl.Some? && Truthy(day.pnl.value) then day.pnl.value else Finite(0.0)
    case None => Finite(0.0)
  }

  /** `reduce((acc, curr) => acc + (curr.pnl || 0), 0)`. */
  function SumPnl(cells: seq<Cell>): JsNumber {
    if cells == [] then Finite(0.0) else Add(SumPnl(cells[..|cells| - 1]), PnlOrZero(cells[|cells| - 1]))
  }

  lemma {:induction false} SumTradesAppend(a: seq<Cell>, b: seq<Cell>)
    ensures SumTrades(a + b) == SumTrades(a) + SumTrades(b)
    decreases |b|
  {
    if b == [] {
      assert a + b == a;
    } else {
      assert (a + b)[..|a + b| - 1] == a + b[..|b| - 1];
      SumTradesAppend(a, b[..|b| - 1]);
    }
  }

  /** Dropping the placeholders does not change the trade total. */
  lemma {:induction false} SumTradesOfDays(week: seq<Cell>)
    ensures SumTrades(Filter(week, IsDay)) == SumTrades(week)
    decreases |week|
  {
    if week != [] {
      var init, last := week[..|week| - 1], week[|week| - 1];
      assert week == init + [last];
      FilterAppend(init, [last], IsDay);
      assert [last][1..] == [];
      SumTradesOfDays(init);
      SumTradesAppend(Filter(init, IsDay), Filter([last], IsDay));
      if last.Some? {
        assert SumTrades([last]) == SumTrades([]) + last.value.tradeCount;
      }
    }
  }

  /** `weeks.map(...)`: each week with the P&L and trade totals of its non-null cells. */
  function WeeksWithStats(weeks: seq<seq<Cell>>): (rows: seq<WeekRow>)
    ensures |rows| == |weeks|
    ensures forall w :: 0 <= w < |rows| ==> rows[w].days == weeks[w]
    ensures forall w :: 0 <= w < |rows| ==> rows[w].summary.trades == SumTrades(weeks[w])
  {
    forall w | 0 <= w < |weeks| ensures SumTrades(Filter(weeks[w], IsDay)) == SumTrades(weeks[w]) {
      SumTradesOfDays(weeks[w]);
    }
    seq(|weeks|, w requires 0 <= w < |weeks| =>
      var validDays := Filter(weeks[w], IsDay);
      WeekRow(weeks[w], WeekSummary(SumPnl(validDays), SumTrades(validDays))))
  }

  /** The trade totals of the rows, added up. */
  function RowsTrades(rows: seq<WeekRow>): nat {
    if rows == [] then 0 else RowsTrades(rows[..|rows| - 1]) + rows[|rows| - 1].summary.trades
  }

  lemma {:induction false} RowsTradesFlatten(weeks: seq<seq<Cell>>)
    ensures RowsTrades(WeeksWithStats(weeks)) == SumTrades(Flatten(weeks))
    decreases |weeks|
  {
    if weeks != [] {
      var init := weeks[..|weeks| - 1];
      var rows := WeeksWithStats(weeks);
      RowsTradesFlatten(init);
      assert rows[..|rows| - 1] == WeeksWithStats(init);
      assert weeks == init + [weeks[|weeks| - 1]];
      FlattenAppend(init, weeks[|weeks| - 1]);
      SumTradesAppend(Flatten(init), weeks[|weeks| - 1]);
    }
  }

  lemma {:induction false} SumTradesPlaceholders(n: nat)
    ensures SumTrades(Repeat(None, n)) == 0
  {
    if n > 0 {
      assert Repeat<Cell>(None, n)[..n - 1] == Repeat(None, n - 1);
      SumTradesPlaceholders(n - 1);
    }
  }

  /**
   * The weekly trade totals add up to the trade counts of the month's cells, for any weeks
   * that read as the cells followed by placeholders, as `Weeks` produces.
   */
  lemma WeeklyTotalsAddUp(cells: seq<Cell>, weeks: seq<seq<Cell>>, pad: nat)
    requires Flatten(weeks) == cells + Repeat(None, pad)
    ensures RowsTrades(WeeksWithStats(weeks)) == SumTrades(cells)
  {
    RowsTradesFlatten(weeks);
    SumTradesAppend(cells, Repeat(None, pad));
    SumTradesPlaceholders(pad);
  }

  /** `f(1) + ... + f(n)`. */
  function DaySum(f: nat -> nat, n: nat): nat {
    if n == 0 then 0 else DaySum(f, n - 1) + f(n)
  }

  /** How many of `trades` were entered on the days `1 .. n` of the month. */
  function MonthTrades(trades: seq<Trade>, year: int, month: nat, n: nat): nat {
    if n == 0 then 0 else MonthTrades(trades, year, month, n - 1) + TradesOn(trades, DateKey(year, month, n))
  }

  lemma {:induction false} MonthTradesIsDaySum(trades: seq<Trade>, year: int, month: nat, n: nat)
    ensures MonthTrades(trades, year, month, n) == DaySum(d => TradesOn(trades, DateKey(year, month, d)), n)
  {
    if n > 0 {
      MonthTradesIsDaySum(trades, year, month, n - 1);
    }
  }

  /** The cells of `DayCells` hold, all together, the trades entered on a day of the month. */
  lemma MonthCellsTrades(trades: seq<Trade>, year: int, month: nat, firstDay: nat, n: nat, cells: seq<Cell>)
    requires |cells| == firstDay + n
    requires forall i :: 0 <= i < firstDay ==> cells[i].None?
    requires forall i :: firstDay <= i < |cells| ==>
      TradeCount(cells[i]) == TradesOn(trades, DateKey(year, month, i - firstDay + 1))
    ensures SumTrades(cells) == MonthTrades(trades, year, month, n)
  {
    var f := (d: nat) => TradesOn(trades, DateKey(year, month, d));
    DayCellsTrades(cells, firstDay, n, f);
    MonthTradesIsDaySum(trades, year, month, n);
    assert cells[..firstDay + n] == cells;
  }

  /**
   * Leading placeholders followed by cells whose counts are `f(1), f(2), ...`: the first
   * `firstDay + n` cells hold `f(1) + ... + f(n)` trades.
   */
  lemma {:induction false} DayCellsTrades(cells: seq<Cell>, firstDay: nat, n: nat, f: nat -> nat)
    requires firstDay + n <= |cells|
    requires forall i :: 0 <= i < firstDay ==> cells[i].None?
    requires forall i :: firstDay <= i < firstDay + n ==> TradeCount(cells[i]) == f(i - firstDay + 1)
    ensures SumTrades(cells[..firstDay + n]) == DaySum(f, n)
  {
    if n == 0 {
      LeadingPlaceholders(cells, firstDay);
    } else {
      DayCellsTrades(cells, firstDay, n - 1, f);
      var prefix := cells[..firstDay + n];
      assert prefix[..|prefix| - 1] == cells[..firstDay + n - 1];
      assert TradeCount(prefix[|prefix| - 1]) == f(n);
    }
  }

  /** Placeholders only: no trades. */
  lemma {:induction false} LeadingPlaceholders(cells: seq<Cell>, k: nat)
    requires k <= |cells|
    requires forall i :: 0 <= i < k ==> cells[i].None?
    ensures SumTrades(cells[..k]) == 0
  {
    if k > 0 {
      assert cells[..k][..k - 1] == cells[..k - 1];
      LeadingPlaceholders(cells, k - 1);
    }
  }

  /**
   * The grid of one month (components/CalendarView.tsx:23-90): the weekly trade totals add up
   * to the number of trades entered on a day of the month, and the week count is
   * `ceil((firstDayOfMonth + daysInMonth) / 7)`.
   */
  method MonthGrid(trades: seq<Trade>, year: int, month: nat, daysInMonth: nat, firstDayOfMonth: nat)
    returns (rows: seq<WeekRow>)
    ensures |rows| == (firstDayOfMonth + daysInMonth + 6) / 7
    ensures forall w :: 0 <= w < |rows| ==> |rows[w].days| == 7
    ensures RowsTrades(rows) == MonthTrades(trades, year, month, daysInMonth)
  {
    var stats := DailyStatsMap(trades);
    var cells := DayCells(year, month, daysInMonth, firstDayOfMonth, stats);
    var weeks := Weeks(cells);
    rows := WeeksWithStats(weeks);
    WeeklyTotalsAddUp(cells, weeks, 7 * |weeks| - |cells|);
    forall i | firstDayOfMonth <= i < |cells|
      ensures TradeCount(cells[i]) == TradesOn(trades, DateKey(year, month, i - firstDayOfMonth + 1))
    {
      var c := DayCellFor(year, month, i - firstDayOfMonth + 1, stats);
      assert cells[i] == Some(c);
    }
    MonthCellsTrades(trades, year, month, firstDayOfMonth, daysInMonth, cells);
  }
}
