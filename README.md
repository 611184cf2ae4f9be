# Trading journal core, modelled in Dafny

This project models the deterministic core of a trading-journal web app in Dafny and
proves properties of the model. The app records trades, imports them from broker CSV
exports, and shows them in a calendar. It also keeps backtesting sessions. Five parts
are modelled.

- **Broker CSV import** (`services/csvParser.ts`). This covers the regular-expression line
  tokenizer, date normalisation, and sniffing MetaTrader, TradingView or NinjaTrader from
  the header. It also covers the row loop that builds an `ImportResult`: its counters, its
  trade list and its per-row errors.
- **Month calendar** (`components/CalendarView.tsx`). This covers the per-day statistics
  map, the flat list of day cells with leading placeholders, chunking into seven-day weeks
  with a padded last week, and the weekly totals.
- **Trade journal** (`components/TradeLog.tsx`). This covers adding and removing mistake
  tags in the edit form, saving an edit (the merge of trade, form and notes, with the
  status re-derived), the sorted list of all mistakes, the search and filters, and the
  filter button label.
- **Backtesting sessions** (`components/BacktestView.tsx`). This covers toggling the
  comparison selection, deleting, creating and activating a session, adding a trade to
  the active session, the count part of the session statistics, and the short symbol
  shown in the trade form.
- **Database mapping** (`services/tradeService.ts`). These are the two functions between
  app trades and table rows, and their near round trip.

The files:

- `Wrappers.dfy`: `Option`.
- `JsRuntime.dfy`: the JavaScript built-ins the code relies on. These are
  `trim`, `toLowerCase` on ASCII, `includes`, `split`, `join`, `indexOf`, `parseFloat`,
  `padStart(2, '0')`, number-to-string, numbers as finite reals, infinities and NaN, and
  addition on them.
- `Seqs.dfy`: `filter`, removing a value, subsequences, flattening.
- `Types.dfy`: the shared records of `types.ts`, plus the status every component derives
  from the sign of a number.
- `CsvParser.dfy`, `CalendarView.dfy`, `TradeLog.dfy`, `BacktestView.dfy`,
  `TradeService.dfy`: one module per source file.

Model choices:

- **Classes for components.** A component whose handlers update state becomes a class.
  Its hooks are fields, and its handlers are methods with `modifies this`. The classes are
  `TradeLog.TradeLogView` and `BacktestView.BacktestWorkspace`.
- **Loops kept as loops.** The CSV row loop and the calendar loops are `method`s with
  loops. Each is proved equal to a specification function, and the properties are proved
  about that function.
- **Host inputs.** The clock, the host `Date` parser and formatter, and
  `window.confirm` are inputs. In the CSV import they are a `Host` value: `millis`,
  `nowText` and `dateParse`. Elsewhere they are plain parameters: `millis`, `isoNow`,
  `localeDate` and `confirmed`.

A consequence of the code that is easy to miss: a header line
without double quotes is never sniffed as MetaTrader or NinjaTrader. The tokenizer keeps
only the last word of an unquoted field with a space inside, so the joined header never
contains "open time" or "market pos". Such a file gets the unknown-format error. The model
follows the code (`CsvParser.UnquotedHeaderNeverMetaTraderOrNinjaTrader`). Likewise,
toggling a selected session twice restores which sessions are selected, but not their
order (`BacktestView.ToggleTwiceReorders`).

## Model

| member | source | states |
|---|---|---|
| CsvParser.SplitCSVLine | services/csvParser.ts:15-18 | the tokenizer yields at least one field, and every field is already trimmed |
| CsvParser.MatchEnd | services/csvParser.ts:16 | a match ends after its start; an unquoted match always takes the whole run of `[^",\s]` characters, since the lookahead refuses any shorter run |
| CsvParser.UnquotedFieldsHaveNoSpace | services/csvParser.ts:15-18 | on a line without quotes no field contains white space, whether the pattern matched or the comma split was used |
| CsvParser.ParseDate | services/csvParser.ts:21-39 | an empty or missing date gives the current time; a date the host parses gives its formatting; an unparseable date without a dot is returned unchanged |
| CsvParser.MetaTraderDateShape | services/csvParser.ts:30-36 | an unparseable `Y.M.D T` becomes `Y-M-D` followed by the first five characters of the time |
| CsvParser.MetaTraderDateNoTime | services/csvParser.ts:34-35 | an unparseable `Y.M.D` without a time gets `00:00` |
| CsvParser.DetectBrokerFormat | services/csvParser.ts:41-49 | MetaTrader iff "ticket" and "open time" occur in the joined lower-cased header; else NinjaTrader iff "instrument" and "market pos"; else TradingView iff "date/time" and "profit"; else unknown |
| CsvParser.UnquotedHeaderNeverMetaTraderOrNinjaTrader | services/csvParser.ts:15-18 | a header line without quotes is only ever sniffed as TradingView or unknown |
| CsvParser.MetaTraderFields | services/csvParser.ts:93-109 | throws iff there is no type column; a balance line iff the type has neither buy nor sell; otherwise the fields come from their columns |
| CsvParser.TradingViewFields | services/csvParser.ts:110-121 | throws iff there is no type column, never a balance line, and the exit date equals the entry date |
| CsvParser.NinjaTraderFields | services/csvParser.ts:122-133 | throws iff there is no "market pos." column (with the period), and is never a balance line |
| CsvParser.MapRow | services/csvParser.ts:86-161 | a row fails iff its key column is missing, or it is not a balance line and its symbol is missing or empty; a mapped row is an imported trade whose symbol, dates, side, prices, quantity and P&L are those its format's branch read |
| CsvParser.RowOutcome | services/csvParser.ts:78-82 | a line is skipped iff it yields fewer than five fields |
| CsvParser.SplitLines | services/csvParser.ts:52 | at least one line, and no line contains a line feed |
| CsvParser.SplitLinesNone | services/csvParser.ts:52 | text without a line feed is a single line |
| CsvParser.SplitLinesAt | services/csvParser.ts:52 | the first line feed ends the first line, which loses one carriage return before it; the rest is split the same way |
| CsvParser.SplitLinesRejoin | services/csvParser.ts:52 | the `\n`-pieces joined with `\n` give the input back, and each piece is its line or its line plus the dropped carriage return |
| CsvParser.Lines | services/csvParser.ts:52 | the kept lines are non-blank, in input order, and every non-blank line of the split is kept |
| CsvParser.LinesNone | services/csvParser.ts:52 | text without a line feed gives its one line if it is not blank, and no line otherwise |
| CsvParser.LinesAt | services/csvParser.ts:52 | the first line, without its carriage return, is kept iff it is not blank, followed by the lines of the rest |
| CsvParser.ParseBrokerCSV | services/csvParser.ts:51-166 | the returned result equals the specification `Import`, and its bookkeeping is well counted |
| CsvParser.ImportRows | services/csvParser.ts:77-162 | the row loop computes the fold `Tally` of the per-line outcomes |
| CsvParser.RecordRow | services/csvParser.ts:84-161 | one counted row updates the counters, trades and errors as `Record` says |
| CsvParser.ImportTooFewLines | services/csvParser.ts:60-63 | fewer than two non-blank lines: failure, the empty-file message only, no trades, all counters zero |
| CsvParser.ImportUnknownFormat | services/csvParser.ts:68-71 | an unknown header gives failure, the unknown-format message only, no trades, all counters zero |
| CsvParser.TallyCounters | services/csvParser.ts:84-159 | `totalProcessed` counts the rows not skipped, and equals successful plus failed plus the balance lines |
| CsvParser.ImportCounters | services/csvParser.ts:51-166 | success iff some trade was imported; trades count equals `successful`, errors count equals `failed`, and their sum is at most `totalProcessed` whenever the header is recognised |
| CsvParser.ImportCountsExact | services/csvParser.ts:84-161 | for TradingView and NinjaTrader, successful plus failed equals totalProcessed |
| CsvParser.ImportTradesInRowOrder | services/csvParser.ts:77-161 | the trades come from the rows in increasing order; each is that row's mapped trade, with the dates, side, prices, quantity and P&L its format's branch read from that row, setup "Imported", no mistakes, a status from the P&L sign (never OPEN) and id `imp_<clock>_<row>` |
| CsvParser.ImportTradingViewSameExit | services/csvParser.ts:110-121 | every trade imported from a TradingView file has its exit date and price equal to its entry date and price |
| CsvParser.ImportIdPrefix | App.tsx:76 | every imported id starts with `imp_`, the prefix the app uses to tell imported trades apart |
| CsvParser.ImportIdDeterminesRow | services/csvParser.ts:88 | two ids `imp_<clock>_<row>` are equal only for the same row, whatever the clock read |
| CsvParser.ImportIdsDistinct | services/csvParser.ts:88 | the ids of one import are pairwise distinct |
| CsvParser.ImportErrorsNameRows | services/csvParser.ts:158-161 | one error per failed row, in row order, each `Row <n>:` with n at least 2 and one of the two messages a row can throw |
| CsvParser.NinjaTraderWithoutPeriodFails | services/csvParser.ts:122-133 | a NinjaTrader header without a column named exactly "market pos." makes every row fail |
| CsvParser.TradingViewFallbacks | services/csvParser.ts:119-120 | without Contracts and Quantity columns the quantity is 1; without a Profit column the P&L is 0 |
| CalendarView.DailyStatsMap | components/CalendarView.tsx:23-32 | a day has an entry iff some trade was entered on it, and the entry holds that day's P&L sum and trade count |
| CalendarView.PnlOnNoTrades | components/CalendarView.tsx:27-28 | a day without trades has P&L 0 |
| CalendarView.TradesOnIsFilterLength | components/CalendarView.tsx:25-29 | the day count is the number of trades whose entry date, up to its first space, equals that day |
| CalendarView.DateKeyLayout | components/CalendarView.tsx:49 | the key is the year, `-`, the two digits of month+1, `-`, and the two digits of the day |
| CalendarView.DateKeyDeterminesDay | components/CalendarView.tsx:49 | within one month, different days get different keys |
| CalendarView.DayCellFor | components/CalendarView.tsx:49-56 | a cell carries its day, its key, and the day's P&L and count, or no P&L and count 0 |
| CalendarView.DayCells | components/CalendarView.tsx:39-57 | `firstDayOfMonth` placeholders, then days 1 to daysInMonth in order, each with its statistics |
| CalendarView.AppendDays | components/CalendarView.tsx:48-57 | the days 1 to daysInMonth are pushed after the cells already there, which stay unchanged, each day with its own key and statistics |
| CalendarView.Weeks | components/CalendarView.tsx:59-79 | every week has 7 cells; there are ceil(n/7) weeks; read in order they are the cells followed only by nulls |
| CalendarView.PadWeek | components/CalendarView.tsx:75-77 | the partial week followed by exactly as many nulls as it lacks to seven cells |
| CalendarView.WeeksWithStats | components/CalendarView.tsx:82-90 | one row per week, keeping its days, with the week's trade total |
| CalendarView.SumTradesOfDays | components/CalendarView.tsx:83-85 | dropping the placeholders does not change a week's trade total |
| CalendarView.WeeklyTotalsAddUp | components/CalendarView.tsx:59-90 | the weekly trade totals add up to the trade counts of all cells |
| CalendarView.MonthGrid | components/CalendarView.tsx:23-90 | ceil((firstDay+days)/7) rows of 7 cells, whose trade totals add up to the trades entered on a day of the month |
| CalendarView.MonthCellsTrades | components/CalendarView.tsx:39-57 | in cells laid out as `dayCells` is, the trade counts add up to the trades entered on days 1 to n of the month |
| Types.StatusOf | components/TradeLog.tsx:230-232 | never OPEN; WIN iff positive; LOSS iff negative; NaN gives BREAK_EVEN |
| TradeLog.SavedTrade | components/TradeLog.tsx:224-232 | each field comes from the form when the form has it, else from the trade; notes come from the draft; the status comes from the saved P&L's sign |
| TradeLog.SaveEditIdempotent | components/TradeLog.tsx:224-232 | saving the same form and notes again changes nothing |
| TradeLog.SaveEmptyForm | components/TradeLog.tsx:224-232 | with an empty form, only the notes and the derived status change |
| TradeLog.SaveUnchangedCopy | components/TradeLog.tsx:224-232 | saving an unedited copy of the trade only replaces the notes and re-derives the status |
| TradeLog.SavedStatusIgnoresForm | components/TradeLog.tsx:226-232 | a status in the form never survives saving |
| TradeLog.WithMistake | components/TradeLog.tsx:262-274 | empty input: no change; no list: `[m]`; a new tag: appended; an existing tag: no change |
| TradeLog.WithMistakeProperties | components/TradeLog.tsx:262-274 | adding keeps the list duplicate-free, adds exactly that tag, and is idempotent |
| TradeLog.RemoveUndoesAdd | components/TradeLog.tsx:262-281 | removing a newly added tag restores the list |
| TradeLog.StringLessTransitive | components/TradeLog.tsx:290 | the default `sort` order is transitive (also irreflexive and total, by two sibling lemmas) |
| TradeLog.InsertUnique | components/TradeLog.tsx:290 | inserting into a strictly sorted list keeps it strictly sorted and adds exactly the one element |
| TradeLog.AllTagsContents | components/TradeLog.tsx:290 | a tag is in the flat list iff some trade has it |
| TradeLog.AllMistakes | components/TradeLog.tsx:290 | strictly increasing, so sorted and duplicate-free, and a tag appears iff some trade has it |
| TradeLog.StrictlySortedUnique | components/TradeLog.tsx:290 | two strictly sorted lists with the same elements are equal, so the list is determined |
| TradeLog.FilteredTrades | components/TradeLog.tsx:292-301 | a subsequence of the trades; every trade kept matches the search and both filters, and every trade that matches is kept |
| TradeLog.NoFiltersKeepsAll | components/TradeLog.tsx:292-301 | with no search term and both filters at ALL, every trade is listed |
| TradeLog.FilterLabel | components/TradeLog.tsx:303-309 | the caller's translation of 'filters' when neither filter is set; `status • mistake` when both are; otherwise the one that is set |
| TradeLog.TradeLogView.constructor | components/TradeLog.tsx:41-51 | the initial state: nothing selected, an empty form, and nothing unsaved |
| TradeLog.TradeLogView.AddMistake | components/TradeLog.tsx:262-274 | the form's tags become `WithMistake` of the old ones; the input box empties; the unsaved flag is raised iff the list changed |
| TradeLog.TradeLogView.RemoveMistake | components/TradeLog.tsx:276-281 | every occurrence is removed and the form is marked changed; a form without a list is left alone |
| TradeLog.TradeLogView.SaveEdit | components/TradeLog.tsx:221-240 | with a selection, hands `SavedTrade` to the caller, selects it, ends editing, and marks it saved with nothing unsaved; without one, does nothing |
| BacktestView.Toggle | components/BacktestView.tsx:187-189 | a present id is removed, an absent one is appended, and no other id changes membership |
| BacktestView.ToggleNoDuplicates | components/BacktestView.tsx:187-189 | toggling keeps the selection duplicate-free |
| BacktestView.ToggleTwiceAbsent | components/BacktestView.tsx:187-189 | toggling an unselected id twice restores the list exactly |
| BacktestView.ToggleTwicePresent | components/BacktestView.tsx:187-189 | toggling a selected id twice restores membership, with the id moved to the end |
| BacktestView.ToggleTwiceReorders | components/BacktestView.tsx:187-189 | `["a","b"]` toggled twice on "a" gives `["b","a"]` |
| BacktestView.WithoutSession | components/BacktestView.tsx:143 | a subsequence without the id that keeps every other session |
| BacktestView.SessionIndex | components/BacktestView.tsx:96 | the first index holding the id, or -1 iff there is none |
| BacktestView.ActiveSession | components/BacktestView.tsx:96 | none when no id is active or no session has it; otherwise the first session in the list with that id, as `find` returns |
| BacktestView.ReplaceSession | components/BacktestView.tsx:179 | same length; every session with the id is replaced, and the others are kept |
| BacktestView.ReplaceActive | components/BacktestView.tsx:174-179 | after the replacement, the active session is the updated one |
| BacktestView.NewTrade | components/BacktestView.tsx:155-172 | id `bt_trade_<clock>`; entry and exit dates from two clock readings; symbol or TEST; setup or "Backtest Setup"; prices 0; quantity 1; P&L r times 1% of the balance; status WIN/LOSS/BREAK_EVEN by the sign of r; no mistakes |
| BacktestView.NewSession | components/BacktestView.tsx:124-132 | id `bt_<clock>`; name or `Session <date>`; strategy or "Manual Backtest"; today's date; the form's balance; no trades |
| BacktestView.IsoDayOf | components/BacktestView.tsx:129 | the start date is the part of the ISO stamp before the `T` |
| BacktestView.SimpleSymbol | components/BacktestView.tsx:102 | a symbol without `:` is kept; otherwise the result is the symbol or a non-empty colon-free segment |
| BacktestView.SimpleSymbolSegment | components/BacktestView.tsx:102 | for `E:T` followed by nothing or by `:…`, with no `:` in E or T: T when it is not empty, the whole symbol otherwise (`A:B:C` gives B, `A::C` and `FX:` stay whole) |
| BacktestView.WinCountIsFilter | components/BacktestView.tsx:108 | the win count is the length of the WIN filter |
| BacktestView.WinCountExtremes | components/BacktestView.tsx:108 | all trades won iff wins equals the total; no trade won iff wins is 0 |
| BacktestView.Counts | components/BacktestView.tsx:107-119 | totalTrades is the trade count; wins is at most totalTrades; no rate iff no trades; otherwise a percentage in [0, 100], which is 100 iff all trades won and 0 iff none did |
| BacktestView.WinRateText | components/BacktestView.tsx:110 | "0.0" when there are no trades |
| BacktestView.CountsAfterAdd | components/BacktestView.tsx:157-176 | adding a trade adds one to the total, and one to the wins iff r is positive |
| BacktestView.BacktestWorkspace.constructor | components/BacktestView.tsx:57-93 | the stored sessions; no active session; an empty selection; the default forms |
| BacktestView.BacktestWorkspace.ToggleSelection | components/BacktestView.tsx:185-190 | the selection becomes `Toggle` of the old one; nothing else changes |
| BacktestView.BacktestWorkspace.DeleteSession | components/BacktestView.tsx:140-147 | when confirmed, the session leaves the list and the selection, and the active id is cleared iff it was that id; unconfirmed, nothing changes |
| BacktestView.BacktestWorkspace.AddTrade | components/BacktestView.tsx:149-183 | without an active session nothing changes; otherwise the new trade is put first in the active session, other sessions are kept, and r, status and notes are reset in the form |
| BacktestView.BacktestWorkspace.CreateSession | components/BacktestView.tsx:122-138 | the new session is appended and made active (found as active when its id is new); the dialog closes; the form resets |
| BacktestView.BacktestWorkspace.SyncTradeSymbol | components/BacktestView.tsx:99-105 | the trade form takes the active session's short symbol |
| TradeService.MapToDB | services/tradeService.ts:26-43 | `user_id` is the user, and each trade property goes to its column; there is no id column |
| TradeService.MapToDBIgnoresId | services/tradeService.ts:26-43 | the id never reaches the payload |
| TradeService.MapFromDB | services/tradeService.ts:6-23 | each column goes back to its property; the stop loss is kept iff truthy; null mistakes become `[]` |
| TradeService.RoundTrip | services/tradeService.ts:6-43 | saving a whole trade and reading it back gives it again, except that a falsy stop loss is dropped and absent mistakes become `[]` |
| TradeService.RoundTripExact | services/tradeService.ts:6-43 | a trade with a truthy or absent stop loss and a list of mistakes comes back unchanged |
| TradeService.ZeroStopLossLost | services/tradeService.ts:15 | a stop loss of 0 is read back as none |
| TradeService.ReadSaveRead | services/tradeService.ts:6-43 | reading, saving and reading again gives the first reading |

## Left out

- Rendering, the TradingView chart script, recharts, `localStorage` persistence and the
  two-second timer that clears the "saved" flag are left out. They are UI and browser
  state.
- The supabase calls around `mapToDB`/`mapFromDB` are left out, because they are remote
  I/O. Instead, the table's storing of a payload is the function `TradeService.Stored`.
  It assumes the required columns are not null and the id is assigned by the table.
- TradeService.Stored: keeps NaN and infinite numbers as they are. supabase-js sends the
  payload as JSON, where they become `null`, so a CSV-imported trade with a NaN P&L does
  not come back as `RoundTrip` says.
- `Number(...)` in `mapFromDB` is the identity in the model, because the columns hold
  numbers already.
- Host `Date` parsing and formatting, `Date.now()` and `toLocaleDateString` are left out.
  They are inputs of the model, not modelled behaviour.
- CsvParser.Hundredth: together with JsRuntime.RoundTo2, computes the R multiple `parseFloat((pnl / 100).toFixed(2))`
  with exact reals and half-up rounding, not IEEE doubles.
- CalendarView.PnlOn: sums P&L exactly on reals. The source adds doubles, so the sums
  can differ in the last bits.
- BacktestView.NewTrade: computes the P&L `r * (balance * 0.01)` exactly on reals, not
  in floating point.
- BacktestView.WinRateText: the `toFixed(1)` text of a non-zero rate is a parameter.
- The totalR, profit factor and net P&L parts of `calculateSessionStats` are left out.
  They are floating-point sums and ratios.
- TradeLog.StringLess: compares characters as Unicode scalar values. JavaScript's
  default sort compares UTF-16 code units, so the two orders differ only for characters
  outside the Basic Multilingual Plane.
- CsvParser.UndefinedLowerCaseMessage: is V8's wording of the `TypeError`. Firefox and
  Safari word the message differently, so their row errors differ in text.
- `toLowerCase` is modelled for ASCII letters only. Locale and Unicode case mapping are
  not modelled.
- TradeLog.SavedTrade: a form key present with the value `undefined` is not
  distinguished from an absent key. The form only ever holds values copied from a trade
  or typed in.
- Switching the selected trade, entering edit mode, the note editor and image upload in
  the trade journal are not part of this model. The statistics sums in the trade
  journal (`calculateMetrics`) are floating point.
- The comparison view of the backtesting screen is left out. It only renders the
  statistics.
