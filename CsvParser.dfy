/**
 * The broker CSV import of `services/csvParser.ts`: the line tokenizer, the date normaliser,
 * the header sniffer, the per-row field extraction and the row loop that builds an
 * `ImportResult`.
 */
module CsvParser {
  import opened Wrappers
  import opened JsRuntime
  import opened Seqs
  import opened Types

  // =======================================================================================
  // splitCSVLine: the global match of /(".*?"|[^",\s]+)(?=\s*,|\s*$)/ over the line

  /** A character the unquoted alternative `[^",\s]` accepts. */
  predicate IsRunChar(c: char) {
    c != '"' && c != ',' && !IsSpace(c)
  }

  /** The first position at or after `j` that is not white space. */
  function SkipSpaces(s: string, j: nat): (k: nat)
    requires j <= |s|
    ensures j <= k <= |s|
    ensures forall i :: j <= i < k ==> IsSpace(s[i])
    ensures k == |s| || !IsSpace(s[k])
    decreases |s| - j
  {
    if j < |s| && IsSpace(s[j]) then SkipSpaces(s, j + 1) else j
  }

  /** The lookahead `(?=\s*,|\s*$)` at position `j`: only white space before a comma or the end. */
  predicate FieldEndsAt(s: string, j: nat)
    requires j <= |s|
  {
    var k := SkipSpaces(s, j);
    k == |s| || s[k] == ','
  }

  /** The end of the longest run of `[^",\s]` characters starting at `p`. */
  function RunEnd(s: string, p: nat): (e: nat)
    requires p <= |s|
    ensures p <= e <= |s|
    ensures forall i :: p <= i < e ==> IsRunChar(s[i])
    ensures e == |s| || !IsRunChar(s[e])
    decreases |s| - p
  {
    if p < |s| && IsRunChar(s[p]) then RunEnd(s, p + 1) else p
  }

  /**
   * The closing quote the lazy `".*?"` settles on, scanning from `q`: the first `"` that the
   * lookahead accepts, where `.` may not cross a line terminator.
   */
  function ClosingQuote(s: string, q: nat): (r: Option<nat>)
    requires q <= |s|
    ensures r.Some? ==> q <= r.value < |s| && s[r.value] == '"' && FieldEndsAt(s, r.value + 1)
    decreases |s| - q
  {
    if q == |s| then None
    else if s[q] == '"' && FieldEndsAt(s, q + 1) then Some(q)
    else if IsLineTerminator(s[q]) then None
    else ClosingQuote(s, q + 1)
  }

  /**
   * Where a match starting at `p` ends, if the pattern matches there. A shorter run than the
   * longest is always followed by a run character, which the lookahead rejects, so the
   * unquoted alternative can only succeed with the longest run.
   */
  function MatchEnd(s: string, p: nat): (r: Option<nat>)
    requires p < |s|
    ensures r.Some? ==> p < r.value <= |s|
    ensures r.Some? && s[p] != '"' ==> r.value == RunEnd(s, p)
  {
    if s[p] == '"' then
      match ClosingQuote(s, p + 1)
      case Some(q) => Some(q + 1)
      case None => None
    else if IsRunChar(s[p]) && FieldEndsAt(s, RunEnd(s, p)) then Some(RunEnd(s, p))
    else None
  }

  /** `m.replace(/^"|"$/g, '')`: one leading and one trailing quote removed. */
  function StripQuotes(m: string): (r: string)
    ensures '"' !in m ==> r == m
    ensures |r| <= |m|
  {
    var a := if |m| > 0 && m[0] == '"' then 1 else 0;
    var b := if |m| > a && m[|m| - 1] == '"' then |m| - 1 else |m|;
    m[a..b]
  }

  /** Every match of the pattern from position `p` on, each unquoted and trimmed. */
  function Matches(s: string, p: nat): (r: seq<string>)
    requires p <= |s|
    decreases |s| - p
  {
    if p == |s| then []
    else match MatchEnd(s, p)
      case Some(e) => [Trim(StripQuotes(s[p..e]))] + Matches(s, e)
      case None => Matches(s, p + 1)
  }

  /**
   * The `k`-th match from `p` on is the trimmed, unquoted text of a match of the pattern at
   * some `a` at or after `p`, ending at `b`.
   */
  lemma {:induction false} MatchPiece(s: string, p: nat, k: nat) returns (a: nat, b: nat)
    requires p <= |s| && k < |Matches(s, p)|
    ensures p <= a < b <= |s| && MatchEnd(s, a) == Some(b)
    ensures Matches(s, p)[k] == Trim(StripQuotes(s[a..b]))
    decreases |s| - p
  {
    if p == |s| {
      NoMatchesAtEnd(s);
      assert false;
    }
    var m := MatchEnd(s, p);
    if m.None? {
      SkipStep(s, p);
      a, b := MatchPiece(s, p + 1, k);
    } else if k == 0 {
      TakeStep(s, p, k);
      a, b := p, m.value;
    } else {
      TakeStep(s, p, k);
      a, b := MatchPiece(s, m.value, k - 1);
    }
  }

  /** The unfolding of `Matches` where a match at `p` succeeds. */
  lemma TakeUnfold(s: string, p: nat)
    requires p < |s| && MatchEnd(s, p).Some?
    ensures Matches(s, p) == [Trim(StripQuotes(s[p..MatchEnd(s, p).value]))] + Matches(s, MatchEnd(s, p).value)
  {
  }

  /** Nothing matches past the end. */
  lemma NoMatchesAtEnd(s: string)
    ensures Matches(s, |s|) == []
  {
  }

  /** Where nothing matches at `p`, the matches from `p` are those from `p + 1`. */
  lemma SkipStep(s: string, p: nat)
    requires p < |s| && MatchEnd(s, p).None?
    ensures Matches(s, p) == Matches(s, p + 1)
  {
  }

  /** Where a match at `p` ends at `e`, it comes first and the matches from `e` follow. */
  lemma TakeStep(s: string, p: nat, k: nat)
    requires p < |s| && MatchEnd(s, p).Some? && k < |Matches(s, p)|
    ensures var e := MatchEnd(s, p).value;
      && |Matches(s, p)| == |Matches(s, e)| + 1
      && Matches(s, p)[k] == if k == 0 then Trim(StripQuotes(s[p..e])) else Matches(s, e)[k - 1]
  {
    var e := MatchEnd(s, p).value;
    TakeUnfold(s, p);
    ConsAt(Trim(StripQuotes(s[p..e])), Matches(s, e), k);
  }

  /**
   * `splitCSVLine`: the matches of the pattern, or, when nothing matches, the plain split on
   * commas with each piece trimmed. It is lossy: an unquoted field with inner white space
   * keeps only its last word, and empty fields vanish.
   */
  function SplitCSVLine(line: string): (fields: seq<string>)
    ensures |fields| >= 1
    ensures forall k :: 0 <= k < |fields| ==> Trim(fields[k]) == fields[k]
  {
    var m := Matches(line, 0);
    if m != [] then
      forall k | 0 <= k < |m| ensures Trim(m[k]) == m[k] {
        var a, b := MatchPiece(line, 0, k);
        TrimIdempotent(StripQuotes(line[a..b]));
      }
      m
    else
      var pieces := Split(line, ',');
      forall k | 0 <= k < |pieces| ensures Trim(Trim(pieces[k])) == Trim(pieces[k]) {
        TrimIdempotent(pieces[k]);
      }
      seq(|pieces|, k requires 0 <= k < |pieces| => Trim(pieces[k]))
  }

  /** Outside quotes the tokenizer never yields a field with white space in it. */
  lemma UnquotedFieldsHaveNoSpace(line: string)
    requires '"' !in line
    ensures forall k :: 0 <= k < |SplitCSVLine(line)| ==> NoSpace(SplitCSVLine(line)[k])
  {
    MatchesNoSpace(line, 0);
    if Matches(line, 0) == [] {
      NoMatchesAllSeparators(line);
      var pieces := Split(line, ',');
      forall k | 0 <= k < |pieces|
        ensures Trim(pieces[k]) == ""
      {
        PiecesAllSpace(line, k);
        TrimAllSpace(pieces[k]);
      }
    }
  }

  lemma MatchesNoSpace(s: string, p: nat)
    requires p <= |s| && '"' !in s
    ensures forall k :: 0 <= k < |Matches(s, p)| ==> NoSpace(Matches(s, p)[k])
  {
    forall k | 0 <= k < |Matches(s, p)| ensures NoSpace(Matches(s, p)[k]) {
      var a, b := MatchPiece(s, p, k);
      MatchedRunNoSpace(s, a, b);
    }
  }

  /** Without quotes, what a match yields is a run, which keeps no white space once trimmed. */
  lemma MatchedRunNoSpace(s: string, p: nat, e: nat)
    requires p < |s| && '"' !in s
    requires MatchEnd(s, p) == Some(e)
    ensures NoSpace(Trim(StripQuotes(s[p..e])))
  {
    assert s[p] != '"' by {
      assert s[p] in s;
    }
    RunHasNoSpace(s, p, e);
    TrimKeepsNoSpace(s[p..e]);
  }

  /** A run of `[^",\s]` characters has no quote to strip and no white space. */
  lemma RunHasNoSpace(s: string, p: nat, e: nat)
    requires p <= e <= |s|
    requires forall i :: p <= i < e ==> IsRunChar(s[i])
    ensures StripQuotes(s[p..e]) == s[p..e] && NoSpace(s[p..e])
  {
    var run := s[p..e];
    forall i | 0 <= i < |run| ensures IsRunChar(run[i]) {
      assert run[i] == s[p + i];
    }
  }

  /** The pieces of a line made only of white space and commas are white space. */
  lemma PiecesAllSpace(line: string, k: nat)
    requires forall i :: 0 <= i < |line| ==> IsSpace(line[i]) || line[i] == ','
    requires k < |Split(line, ',')|
    ensures forall i :: 0 <= i < |Split(line, ',')[k]| ==> IsSpace(Split(line, ',')[k][i])
  {
    var piece := Split(line, ',')[k];
    SplitChars(line, ',', k);
    forall i | 0 <= i < |piece| ensures IsSpace(piece[i]) {
      assert piece[i] in piece;
      var j :| 0 <= j < |line| && line[j] == piece[i];
    }
  }

  lemma {:induction false} SplitChars(s: string, sep: char, k: nat)
    requires k < |Split(s, sep)|
    ensures forall c :: c in Split(s, sep)[k] ==> c in s
  {
    if |s| > 0 {
      var t := Split(s[1..], sep);
      if s[0] == sep {
        if k > 0 {
          SplitChars(s[1..], sep, k - 1);
        }
      } else {
        SplitChars(s[1..], sep, k);
        if k == 0 {
          assert Split(s, sep)[0] == [s[0]] + t[0];
        } else {
          assert Split(s, sep)[k] == t[k];
        }
      }
    }
  }

  /**
   * Without quotes, a line where nothing matches has no run characters at all: the last run
   * character would start (or sit in) a run that the lookahead accepts.
   */
  lemma NoMatchesAllSeparators(s: string)
    requires '"' !in s && Matches(s, 0) == []
    ensures forall i :: 0 <= i < |s| ==> IsSpace(s[i]) || s[i] == ','
  {
    if i :| 0 <= i < |s| && IsRunChar(s[i]) {
      var last := LastRunChar(s, i);
      MatchesReachLast(s, 0, last);
    }
  }

  function LastRunChar(s: string, i: nat): (l: nat)
    requires i < |s| && IsRunChar(s[i])
    ensures i <= l < |s| && IsRunChar(s[l])
    ensures forall j :: l < j < |s| ==> !IsRunChar(s[j])
    decreases |s| - i
  {
    if exists j :: i < j < |s| && IsRunChar(s[j]) then
      var j :| i < j < |s| && IsRunChar(s[j]);
      LastRunChar(s, j)
    else i
  }

  lemma {:induction false} MatchesReachLast(s: string, p: nat, last: nat)
    requires '"' !in s
    requires p <= last < |s| && IsRunChar(s[last])
    requires forall j :: last < j < |s| ==> !IsRunChar(s[j])
    ensures Matches(s, p) != []
    decreases last - p
  {
    if MatchEnd(s, p).None? {
      if IsRunChar(s[p]) {
        var e := RunEnd(s, p);
        if e > last {
          SeparatorsEndField(s, e);
          assert false;
        }
      }
      assert p < last;
      MatchesReachLast(s, p + 1, last);
    }
  }

  lemma SeparatorsEndField(s: string, e: nat)
    requires '"' !in s && e <= |s|
    requires forall j :: e <= j < |s| ==> !IsRunChar(s[j])
    ensures FieldEndsAt(s, e)
  {
    var k := SkipSpaces(s, e);
    if k < |s| {
      assert s[k] in s;
    }
  }

  // =======================================================================================
  // Host facilities the parser calls and the model takes as parameters

  /**
   * The clock and the host's `Date`: `millis(i)` is `Date.now()` while row `i` is handled,
   * `nowText(i)` is `new Date().toISOString().slice(0, 16).replace('T', ' ')` at that time,
   * and `dateParse(s)` is the same formatting of `new Date(s)`, `None` when that is an
   * invalid date.
   */
  datatype Host = Host(millis: nat -> nat, nowText: nat -> string, dateParse: string -> Option<string>)

  // =======================================================================================
  // parseDate

  /** `xs[k]` inside a template literal: the text "undefined" when out of range. */
  function PartOrUndefined(xs: seq<string>, k: nat): string {
    if k < |xs| then xs[k] else "undefined"
  }

  /** The MetaTrader branch of `parseDate`: `Y.M.D T` becomes `Y-M-D` and the first five characters of `T`. */
  function MetaTraderDate(s: string): string {
    var parts := Split(s, ' ');
    var dateParts := Split(parts[0], '.');
    var timePart := if |parts| > 1 && parts[1] != "" then parts[1] else "00:00";
    PartOrUndefined(dateParts, 0) + "-" + PartOrUndefined(dateParts, 1) + "-" +
    PartOrUndefined(dateParts, 2) + " " + Take(timePart, 5)
  }

  /**
   * `parseDate` applied to `columns[k]` while row `row` is handled (`None` is `undefined`):
   * empty or missing gives the current time; what the host parses, it formats; otherwise a
   * string with a dot goes through the MetaTrader branch and anything else is returned as is.
   */
  function ParseDate(d: Option<string>, host: Host, row: nat): (r: string)
    ensures d.None? || d.value == "" ==> r == host.nowText(row)
    ensures d.Some? && d.value != "" && host.dateParse(d.value).Some? ==> r == host.dateParse(d.value).value
    ensures d.Some? && d.value != "" && host.dateParse(d.value).None? && '.' !in d.value ==> r == d.value
  {
    if d.None? || d.value == "" then host.nowText(row)
    else match host.dateParse(d.value)
      case Some(formatted) => formatted
      case None => if '.' in d.value then MetaTraderDate(d.value) else d.value
  }

  /** A MetaTrader `Y.M.D T` timestamp the host cannot parse becomes `Y-M-D` and the first five characters of `T`. */
  lemma MetaTraderDateShape(y: string, m: string, d: string, t: string, host: Host, row: nat)
    requires '.' !in y && '.' !in m && '.' !in d
    requires ' ' !in y && ' ' !in m && ' ' !in d && ' ' !in t && t != ""
    requires host.dateParse(y + "." + m + "." + d + " " + t).None?
    ensures ParseDate(Some(y + "." + m + "." + d + " " + t), host, row) == y + "-" + m + "-" + d + " " + Take(t, 5)
  {
    var s := y + "." + m + "." + d + " " + t;
    var date := y + "." + m + "." + d;
    assert s == date + [' '] + t;
    assert ' ' !in date;
    SplitAt(date, ' ', t);
    SplitNone(t, ' ');
    DateParts(y, m, d);
    assert '.' in s by { assert s[|y|] == '.'; }
  }

  /** A MetaTrader date without a time the host cannot parse gets the time `00:00`. */
  lemma MetaTraderDateNoTime(y: string, m: string, d: string, host: Host, row: nat)
    requires '.' !in y && '.' !in m && '.' !in d
    requires ' ' !in y && ' ' !in m && ' ' !in d
    requires host.dateParse(y + "." + m + "." + d).None?
    ensures ParseDate(Some(y + "." + m + "." + d), host, row) == y + "-" + m + "-" + d + " 00:00"
  {
    var s := y + "." + m + "." + d;
    assert ' ' !in s;
    SplitNone(s, ' ');
    DateParts(y, m, d);
    var prefix := y + "-" + m + "-" + d;
    assert Take("00:00", 5) == "00:00";
    assert MetaTraderDate(s) == prefix + " " + "00:00";
    assert prefix + " " + "00:00" == prefix + " 00:00";
    assert '.' in s by { assert s[|y|] == '.'; }
  }

  lemma DateParts(y: string, m: string, d: string)
    requires '.' !in y && '.' !in m && '.' !in d
    ensures Split(y + "." + m + "." + d, '.') == [y, m, d]
  {
    assert y + "." + m + "." + d == y + ['.'] + (m + ['.'] + d);
    SplitAt(y, '.', m + ['.'] + d);
    SplitAt(m, '.', d);
    SplitNone(d, '.');
  }

  // =======================================================================================
  // detectBrokerFormat

  datatype BrokerFormat = MetaTrader | TradingView | NinjaTrader | Unknown

  /** `headerRow.join(',').toLowerCase()`. */
  function HeaderText(headerRow: seq<string>): string {
    Lower(Join(headerRow, ","))
  }

  predicate IsMetaTraderHeader(h: string) {
    Contains(h, "ticket") && Contains(h, "open time")
  }

  predicate IsNinjaTraderHeader(h: string) {
    Contains(h, "instrument") && Contains(h, "market pos")
  }

  predicate IsTradingViewHeader(h: string) {
    Contains(h, "date/time") && Contains(h, "profit")
  }

  /**
   * `detectBrokerFormat`: MetaTrader is checked first, then NinjaTrader, then TradingView;
   * UNKNOWN exactly when none of the three pairs of substrings is present.
   */
  function DetectBrokerFormat(headerRow: seq<string>): (f: BrokerFormat)
    ensures var h := HeaderText(headerRow);
      && (f == MetaTrader <==> IsMetaTraderHeader(h))
      && (f == NinjaTrader <==> !IsMetaTraderHeader(h) && IsNinjaTraderHeader(h))
      && (f == TradingView <==> !IsMetaTraderHeader(h) && !IsNinjaTraderHeader(h) && IsTradingViewHeader(h))
      && (f == Unknown <==> !IsMetaTraderHeader(h) && !IsNinjaTraderHeader(h) && !IsTradingViewHeader(h))
  {
    var h := HeaderText(headerRow);
    if IsMetaTraderHeader(h) then MetaTrader
    else if IsNinjaTraderHeader(h) then NinjaTrader
    else if IsTradingViewHeader(h) then TradingView
    else Unknown
  }

  /**
   * A header line without quotes is never recognised as MetaTrader or NinjaTrader: the
   * tokenizer drops every word before a space, so "open time" and "market pos" cannot
   * appear in the joined header.
   */
  lemma UnquotedHeaderNeverMetaTraderOrNinjaTrader(line: string)
    requires '"' !in line
    ensures DetectBrokerFormat(SplitCSVLine(line)) == TradingView || DetectBrokerFormat(SplitCSVLine(line)) == Unknown
  {
    var header := SplitCSVLine(line);
    UnquotedFieldsHaveNoSpace(line);
    JoinNoSpace(header, ",");
    var h := HeaderText(header);
    assert ' ' !in h by {
      var j := Join(header, ",");
      forall i | 0 <= i < |h| ensures h[i] != ' ' {
        assert h[i] == LowerChar(j[i]);
      }
    }
    assert "open time"[4] == ' ';
    assert "market pos"[6] == ' ';
    ContainsNeedsChars(h, "open time", ' ');
    ContainsNeedsChars(h, "market pos", ' ');
  }

  // =======================================================================================
  // Row mapping

  datatype ImportSummary = ImportSummary(totalProcessed: nat, successful: nat, failed: nat)

  datatype ImportResult = ImportResult(
    success: bool,
    trades: seq<Trade>,
    errors: seq<string>,
    summary: ImportSummary)

  const EmptyFileMessage := "CSV file is empty or missing headers."
  const UnknownFormatMessage :=
    "Could not detect broker format. Ensure headers match standard MT4, TradingView, or NinjaTrader exports."
  const MissingFieldsMessage := "Missing required fields (Symbol or PnL)"
  /** The V8 text of the TypeError from calling `toLowerCase` on `undefined`. */
  const UndefinedLowerCaseMessage := "Cannot read properties of undefined (reading 'toLowerCase')"

  /** `columns[headers.indexOf(name)]`. */
  function Column(headers: seq<string>, columns: seq<string>, name: string): Option<string> {
    At(columns, IndexOf(headers, name))
  }

  /** `parseFloat` of a field or of `undefined` (which reads as the text "undefined", NaN). */
  function NumberOf(field: Option<string>): (n: JsNumber)
    ensures field.None? ==> n.NaN?
  {
    match field
    case Some(s) => ParseFloat(s)
    case None => NaN
  }

  /** `trade.pnl / 100`. */
  function Hundredth(n: JsNumber): JsNumber {
    match n
    case Finite(v) => Finite(v / 100.0)
    case _ => n
  }

  /** The id of the trade imported from row `i`: `imp_${Date.now()}_${i}`. */
  function ImportId(millis: nat, i: nat): string {
    "imp_" + NatToString(millis) + "_" + NatToString(i)
  }

  /** The fields one format's branch writes into the partial trade. */
  datatype Fields = Fields(
    entryDate: string,
    exitDate: string,
    symbol: Option<string>,
    tradeType: TradeType,
    entryPrice: JsNumber,
    exitPrice: JsNumber,
    quantity: JsNumber,
    pnl: JsNumber)

  /** What a format's branch does with a row: a MetaTrader `continue`, a throw, or the fields. */
  datatype Extraction = BalanceLine | Threw(message: string) | Extracted(fields: Fields)

  /** The column whose `toLowerCase` each format calls first, and which must therefore exist. */
  function KeyColumn(format: BrokerFormat): string {
    if format == NinjaTrader then "market pos." else "type"
  }

  /** The column each format reads the symbol from. */
  function SymbolColumn(format: BrokerFormat): string {
    match format
    case MetaTrader => "item"
    case TradingView => "symbol"
    case NinjaTrader => "instrument"
    case Unknown => ""
  }

  /** A MetaTrader row whose type is neither a buy nor a sell: balance, deposit, withdrawal. */
  predicate IsBalanceRow(format: BrokerFormat, headers: seq<string>, columns: seq<string>) {
    var key := Column(headers, columns, "type");
    format == MetaTrader && key.Some? &&
    !Contains(Lower(key.value), "buy") && !Contains(Lower(key.value), "sell")
  }

  /** The MetaTrader branch (services/csvParser.ts:93-109). */
  function MetaTraderFields(headers: seq<string>, columns: seq<string>, host: Host, i: nat): (r: Extraction)
    ensures Column(headers, columns, "type").None? <==> r == Threw(UndefinedLowerCaseMessage)
    ensures r.BalanceLine? <==> IsBalanceRow(MetaTrader, headers, columns)
    ensures r.Extracted? ==> var f := r.fields;
      && (f.tradeType == Long <==> Contains(Lower(Column(headers, columns, "type").value), "buy"))
      && f.symbol == Column(headers, columns, "item")
      && f.entryDate == ParseDate(Column(headers, columns, "open time"), host, i)
      && f.exitDate == ParseDate(Column(headers, columns, "close time"), host, i)
      && f.entryPrice == NumberOf(Column(headers, columns, "open price"))
      && f.exitPrice == NumberOf(OrElse(Column(headers, columns, "close price"), At(columns, LastIndexOf(headers, "price"))))
      && f.quantity == NumberOf(Column(headers, columns, "size"))
      && f.pnl == NumberOf(Column(headers, columns, "profit"))
  {
    match Column(headers, columns, "type")
    case None => Threw(UndefinedLowerCaseMessage)
    case Some(typeField) =>
      var typeStr := Lower(typeField);
      if !Contains(typeStr, "buy") && !Contains(typeStr, "sell") then BalanceLine
      else Extracted(Fields(
        ParseDate(Column(headers, columns, "open time"), host, i),
        ParseDate(Column(headers, columns, "close time"), host, i),
        Column(headers, columns, "item"),
        if Contains(typeStr, "buy") then Long else Short,
        NumberOf(Column(headers, columns, "open price")),
        NumberOf(OrElse(Column(headers, columns, "close price"), At(columns, LastIndexOf(headers, "price")))),
        NumberOf(Column(headers, columns, "size")),
        NumberOf(Column(headers, columns, "profit"))))
  }

  /** The TradingView branch (services/csvParser.ts:110-121). */
  function TradingViewFields(headers: seq<string>, columns: seq<string>, host: Host, i: nat): (r: Extraction)
    ensures Column(headers, columns, "type").None? <==> r == Threw(UndefinedLowerCaseMessage)
    ensures !r.BalanceLine?
    ensures r.Extracted? ==> var f := r.fields;
      && (f.tradeType == Short <==> Contains(Lower(Column(headers, columns, "type").value), "short"))
      && f.symbol == Column(headers, columns, "symbol")
      && f.entryDate == ParseDate(Column(headers, columns, "date/time"), host, i)
      && f.exitDate == f.entryDate
      && f.entryPrice == NumberOf(Column(headers, columns, "price"))
      && f.exitPrice == f.entryPrice
      && f.quantity == NumberOf(OrElse(OrElse(Column(headers, columns, "contracts"), Column(headers, columns, "quantity")), Some("1")))
      && f.pnl == NumberOf(OrElse(Column(headers, columns, "profit"), Some("0")))
  {
    match Column(headers, columns, "type")
    case None => Threw(UndefinedLowerCaseMessage)
    case Some(typeField) =>
      var typeStr := Lower(typeField);
      var entryDate := ParseDate(Column(headers, columns, "date/time"), host, i);
      Extracted(Fields(
        entryDate,
        entryDate,
        Column(headers, columns, "symbol"),
        if Contains(typeStr, "short") then Short else Long,
        NumberOf(Column(headers, columns, "price")),
        NumberOf(Column(headers, columns, "price")),
        NumberOf(OrElse(OrElse(Column(headers, columns, "contracts"), Column(headers, columns, "quantity")), Some("1"))),
        NumberOf(OrElse(Column(headers, columns, "profit"), Some("0")))))
  }

  /** The NinjaTrader branch (services/csvParser.ts:122-133): it looks up "market pos." with the period. */
  function NinjaTraderFields(headers: seq<string>, columns: seq<string>, host: Host, i: nat): (r: Extraction)
    ensures Column(headers, columns, "market pos.").None? <==> r == Threw(UndefinedLowerCaseMessage)
    ensures !r.BalanceLine?
    ensures r.Extracted? ==> var f := r.fields;
      && (f.tradeType == Long <==> Contains(Lower(Column(headers, columns, "market pos.").value), "long"))
      && f.symbol == Column(headers, columns, "instrument")
      && f.quantity == NumberOf(Column(headers, columns, "qty"))
      && f.entryPrice == NumberOf(Column(headers, columns, "entry price"))
      && f.exitPrice == NumberOf(Column(headers, columns, "exit price"))
      && f.entryDate == ParseDate(Column(headers, columns, "entry time"), host, i)
      && f.exitDate == ParseDate(Column(headers, columns, "exit time"), host, i)
      && f.pnl == NumberOf(Column(headers, columns, "pnl"))
  {
    match Column(headers, columns, "market pos.")
    case None => Threw(UndefinedLowerCaseMessage)
    case Some(posField) =>
      Extracted(Fields(
        ParseDate(Column(headers, columns, "entry time"), host, i),
        ParseDate(Column(headers, columns, "exit time"), host, i),
        Column(headers, columns, "instrument"),
        if Contains(Lower(posField), "long") then Long else Short,
        NumberOf(Column(headers, columns, "entry price")),
        NumberOf(Column(headers, columns, "exit price")),
        NumberOf(Column(headers, columns, "qty")),
        NumberOf(Column(headers, columns, "pnl"))))
  }

  /** The branch for the detected format; none applies to UNKNOWN, so validation throws. */
  function ExtractFields(format: BrokerFormat, headers: seq<string>, columns: seq<string>, host: Host, i: nat): Extraction {
    match format
    case MetaTrader => MetaTraderFields(headers, columns, host, i)
    case TradingView => TradingViewFields(headers, columns, host, i)
    case NinjaTrader => NinjaTraderFields(headers, columns, host, i)
    case Unknown => Threw(MissingFieldsMessage)
  }

  /** The outcome of the `try` block for one row that passed the column-count gate. */
  datatype RowResult = Balance | Mapped(trade: Trade) | Thrown(message: string)

  /** A trade as the import builds it: derived status and R multiple, setup "Imported", no mistakes. */
  predicate IsImportedTrade(t: Trade, millis: nat, i: nat) {
    && t.id == ImportId(millis, i)
    && t.symbol != ""
    && t.setup == "Imported"
    && t.mistakes == Some([])
    && t.status == StatusOf(t.pnl)
    && t.rMultiple == RoundTo2(Hundredth(t.pnl))
    && t.stopLoss.None? && t.notes.None? && t.screenshotUrl.None?
  }

  /** The trade takes the dates, side, prices, quantity, P&L and symbol the format's branch read. */
  predicate CarriesFields(t: Trade, f: Fields) {
    && f.symbol == Some(t.symbol)
    && t.entryDate == f.entryDate && t.exitDate == f.exitDate
    && t.tradeType == f.tradeType
    && t.entryPrice == f.entryPrice && t.exitPrice == f.exitPrice
    && t.quantity == f.quantity && t.pnl == f.pnl
  }

  /**
   * The `try` block for row `i` (services/csvParser.ts:86-161). A row fails exactly when the
   * format's key column is missing (`toLowerCase` of `undefined` throws) or, for a row that
   * is not a balance line, when its symbol is missing or empty. The P&L plays no part:
   * `isNaN(trade.pnl || 0)` is never true, so an unparseable P&L is imported.
   */
  function MapRow(format: BrokerFormat, headers: seq<string>, columns: seq<string>, i: nat, host: Host): (r: RowResult)
    requires format != Unknown
    ensures r.Balance? <==> IsBalanceRow(format, headers, columns)
    ensures r.Thrown? <==>
      Column(headers, columns, KeyColumn(format)).None? ||
      (!IsBalanceRow(format, headers, columns) &&
       (Column(headers, columns, SymbolColumn(format)).None? || Column(headers, columns, SymbolColumn(format)).value == ""))
    ensures r.Thrown? ==>
      r.message == (if Column(headers, columns, KeyColumn(format)).None? then UndefinedLowerCaseMessage else MissingFieldsMessage)
    ensures r.Mapped? ==> IsImportedTrade(r.trade, host.millis(i), i)
    ensures r.Mapped? ==> Some(r.trade.symbol) == Column(headers, columns, SymbolColumn(format))
    ensures r.Mapped? ==>
      var e := ExtractFields(format, headers, columns, host, i);
      e.Extracted? && CarriesFields(r.trade, e.fields)
  {
    match ExtractFields(format, headers, columns, host, i)
    case BalanceLine => Balance
    case Threw(message) => Thrown(message)
    case Extracted(f) =>
      if f.symbol.None? || f.symbol.value == "" then Thrown(MissingFieldsMessage)
      else Mapped(Trade(
        ImportId(host.millis(i), i), f.symbol.value, f.entryDate, f.exitDate, f.tradeType, "Imported",
        f.entryPrice, f.exitPrice, None, f.quantity, f.pnl, RoundTo2(Hundredth(f.pnl)),
        StatusOf(f.pnl), Some([]), None, None))
  }

  // =======================================================================================
  // parseBrokerCSV

  /** A line without the one carriage return that may end it. */
  function DropCr(a: string): string {
    if |a| > 0 && a[|a| - 1] == '\r' then a[..|a| - 1] else a
  }

  /** `s.split(/\r?\n/)`: split on line feeds, a carriage return before a line feed going with it. */
  function SplitLines(s: string): (lines: seq<string>)
    ensures |lines| >= 1
    ensures forall k :: 0 <= k < |lines| ==> '\n' !in lines[k]
  {
    var pieces := Split(s, '\n');
    seq(|pieces|, k requires 0 <= k < |pieces| => if k < |pieces| - 1 then DropCr(pieces[k]) else pieces[k])
  }

  /** Text without a line feed is one line, a trailing carriage return included. */
  lemma SplitLinesNone(a: string)
    requires '\n' !in a
    ensures SplitLines(a) == [a]
  {
    SplitNone(a, '\n');
  }

  /** The first line feed ends the first line, with the carriage return before it. */
  lemma SplitLinesAt(a: string, b: string)
    requires '\n' !in a
    ensures SplitLines(a + "\n" + b) == [DropCr(a)] + SplitLines(b)
  {
    SplitAt(a, '\n', b);
    var pieces := Split(b, '\n');
    var left := SplitLines(a + "\n" + b);
    var right := [DropCr(a)] + SplitLines(b);
    assert |left| == |right|;
    forall k | 0 <= k < |left| ensures left[k] == right[k] {
      if k > 0 {
        assert ([a] + pieces)[k] == pieces[k - 1];
      }
    }
  }

  /**
   * Joining the `\n`-pieces with `\n` gives the text back, and each piece is its line, or its
   * line with the carriage return the split dropped.
   */
  lemma SplitLinesRejoin(s: string)
    ensures var pieces := Split(s, '\n');
      && Join(pieces, "\n") == s
      && |pieces| == |SplitLines(s)|
      && forall k :: 0 <= k < |pieces| ==>
           pieces[k] == SplitLines(s)[k] || (k < |pieces| - 1 && pieces[k] == SplitLines(s)[k] + "\r")
  {
    JoinSplit(s, '\n');
    var pieces := Split(s, '\n');
    forall k | 0 <= k < |pieces|
      ensures pieces[k] == SplitLines(s)[k] || (k < |pieces| - 1 && pieces[k] == SplitLines(s)[k] + "\r")
    {
      if k < |pieces| - 1 && |pieces[k]| > 0 && pieces[k][|pieces[k]| - 1] == '\r' {
        assert pieces[k] == pieces[k][..|pieces[k]| - 1] + "\r";
      }
    }
  }

  predicate NonBlank(line: string) {
    Trim(line) != ""
  }

  /** The lines the import works on: every line whose trim is non-empty, in order. */
  function Lines(csvContent: string): (lines: seq<string>)
    ensures forall k :: 0 <= k < |lines| ==> Trim(lines[k]) != ""
    ensures IsSubsequence(lines, SplitLines(csvContent))
    ensures forall k :: 0 <= k < |SplitLines(csvContent)| && Trim(SplitLines(csvContent)[k]) != "" ==>
      SplitLines(csvContent)[k] in lines
  {
    FilterIsSubsequence(SplitLines(csvContent), NonBlank);
    Filter(SplitLines(csvContent), NonBlank)
  }

  /** Text without a line feed gives its one line when it is not blank, and nothing otherwise. */
  lemma LinesNone(a: string)
    requires '\n' !in a
    ensures Lines(a) == if Trim(a) != "" then [a] else []
  {
    SplitLinesNone(a);
    assert [a][1..] == [];
  }

  /** The first line is kept when it is not blank, then come the lines after the first line feed. */
  lemma LinesAt(a: string, b: string)
    requires '\n' !in a
    ensures Lines(a + "\n" + b) == (if Trim(DropCr(a)) != "" then [DropCr(a)] else []) + Lines(b)
  {
    SplitLinesAt(a, b);
    FilterAppend([DropCr(a)], SplitLines(b), NonBlank);
    assert [DropCr(a)][1..] == [];
  }

  const InitialResult := ImportResult(false, [], [], ImportSummary(0, 0, 0))

  /** `Row ${i + 1}: ${err.message}`. */
  function RowError(i: nat, message: string): string {
    "Row " + NatToString(i + 1) + ": " + message
  }

  /** What the loop body makes of line `i`: `None` for a row skipped for having fewer than five fields. */
  function RowOutcome(format: BrokerFormat, headers: seq<string>, line: string, i: nat, host: Host): (o: Option<RowResult>)
    requires format != Unknown
    ensures o.None? <==> |SplitCSVLine(line)| < 5
  {
    var columns := SplitCSVLine(line);
    if |columns| < 5 then None else Some(MapRow(format, headers, columns, i, host))
  }

  /** The outcome of every line, indexed by line number (line 0, the header, is never used). */
  function Outcomes(format: BrokerFormat, headers: seq<string>, lines: seq<string>, host: Host): (outs: seq<Option<RowResult>>)
    requires format != Unknown
    ensures |outs| == |lines|
  {
    seq(|lines|, i requires 0 <= i < |lines| => RowOutcome(format, headers, lines[i], i, host))
  }

  /** The bookkeeping of the loop body for one outcome (services/csvParser.ts:82-161). */
  function Record(acc: ImportResult, o: Option<RowResult>, i: nat): ImportResult {
    match o
    case None => acc
    case Some(row) =>
      var counted := acc.(summary := acc.summary.(totalProcessed := acc.summary.totalProcessed + 1));
      match row
      case Balance => counted
      case Mapped(t) =>
        counted.(trades := counted.trades + [t],
                 summary := counted.summary.(successful := counted.summary.successful + 1))
      case Thrown(m) =>
        counted.(errors := counted.errors + [RowError(i, m)],
                 summary := counted.summary.(failed := counted.summary.failed + 1))
  }

  /** The result after the loop has handled rows `1 .. n - 1`. */
  function Tally(outs: seq<Option<RowResult>>, n: nat): ImportResult
    requires 1 <= n <= |outs|
  {
    if n == 1 then InitialResult else Record(Tally(outs, n - 1), outs[n - 1], n - 1)
  }

  /** The lower-cased header names used for column lookup. */
  function LowerAll(headerRow: seq<string>): (headers: seq<string>)
    ensures |headers| == |headerRow|
    ensures forall k :: 0 <= k < |headerRow| ==> headers[k] == Lower(headerRow[k])
  {
    seq(|headerRow|, k requires 0 <= k < |headerRow| => Lower(headerRow[k]))
  }

  /** The format detected from the first non-blank line. */
  function FormatOf(lines: seq<string>): BrokerFormat
    requires |lines| >= 1
  {
    DetectBrokerFormat(SplitCSVLine(lines[0]))
  }

  /** The header names of the first non-blank line. */
  function HeadersOf(lines: seq<string>): seq<string>
    requires |lines| >= 1
  {
    LowerAll(SplitCSVLine(lines[0]))
  }

  /** The row outcomes of an input whose header was recognised. */
  function OutcomesOf(lines: seq<string>, host: Host): seq<Option<RowResult>>
    requires |lines| >= 1 && FormatOf(lines) != Unknown
  {
    Outcomes(FormatOf(lines), HeadersOf(lines), lines, host)
  }

  /** The result for the non-blank lines of an input. */
  function ImportLines(lines: seq<string>, host: Host): ImportResult {
    if |lines| < 2 then InitialResult.(errors := [EmptyFileMessage])
    else if FormatOf(lines) == Unknown then InitialResult.(errors := [UnknownFormatMessage])
    else
      var r := Tally(OutcomesOf(lines, host), |lines|);
      r.(success := |r.trades| > 0)
  }

  /** The value `parseBrokerCSV(csvContent)` returns. */
  function Import(csvContent: string, host: Host): ImportResult {
    ImportLines(Lines(csvContent), host)
  }

  /** The bookkeeping the row loop keeps. */
  predicate CountersAgree(r: ImportResult) {
    && |r.trades| == r.summary.successful
    && |r.errors| == r.summary.failed
    && r.summary.successful + r.summary.failed <= r.summary.totalProcessed
  }

  /** The bookkeeping of every result: the row loop's, or one file-level error with nothing counted. */
  predicate WellCounted(r: ImportResult) {
    && (r.success <==> r.trades != [])
    && (CountersAgree(r) ||
        (r.trades == [] && r.summary == ImportSummary(0, 0, 0) &&
         (r.errors == [EmptyFileMessage] || r.errors == [UnknownFormatMessage])))
  }

  /**
   * `parseBrokerCSV` (services/csvParser.ts:51-166): the file-level checks, then the row loop.
   */
  method ParseBrokerCSV(csvContent: string, host: Host) returns (result: ImportResult)
    ensures result == Import(csvContent, host)
    ensures WellCounted(result)
  {
    var lines := Lines(csvContent);
    ImportLinesCounters(lines, host);
    if |lines| < 2 {
      return InitialResult.(errors := [EmptyFileMessage]);
    }
    var headerRow := SplitCSVLine(lines[0]);
    var format := DetectBrokerFormat(headerRow);
    if format == Unknown {
      return InitialResult.(errors := [UnknownFormatMessage]);
    }
    result := ImportRows(format, LowerAll(headerRow), lines, host);
    result := result.(success := |result.trades| > 0);
  }

  /**
   * The row loop of `parseBrokerCSV` (services/csvParser.ts:77-162): every line after the
   * header, with the column-count `continue` and the try/catch per row.
   */
  method ImportRows(format: BrokerFormat, headers: seq<string>, lines: seq<string>, host: Host) returns (result: ImportResult)
    requires format != Unknown && |lines| >= 1
    ensures result == Tally(Outcomes(format, headers, lines, host), |lines|)
  {
    result := InitialResult;
    ghost var outs := Outcomes(format, headers, lines, host);
    for i := 1 to |lines|
      invariant result == Tally(outs, i)
    {
      assert outs[i] == RowOutcome(format, headers, lines[i], i, host);
      var columns := SplitCSVLine(lines[i]);
      if |columns| < 5 {
        continue;
      }
      var row := MapRow(format, headers, columns, i, host);
      result := RecordRow(result, row, i);
    }
  }

  /** The counters and lists after a row that passed the column-count gate (services/csvParser.ts:84-161). */
  method RecordRow(before: ImportResult, row: RowResult, i: nat) returns (result: ImportResult)
    ensures result == Record(before, Some(row), i)
  {
    result := before;
    result := result.(summary := result.summary.(totalProcessed := result.summary.totalProcessed + 1));
    match row
    case Balance =>
    case Mapped(trade) =>
      result := result.(trades := result.trades + [trade]);
      result := result.(summary := result.summary.(successful := result.summary.successful + 1));
    case Thrown(message) =>
      result := result.(summary := result.summary.(failed := result.summary.failed + 1));
      result := result.(errors := result.errors + [RowError(i, message)]);
  }

  // =======================================================================================
  // Properties of the import

  /** Fewer than two non-blank lines: failure, no trades, the one message, nothing counted. */
  lemma ImportTooFewLines(csvContent: string, host: Host)
    requires |Lines(csvContent)| < 2
    ensures var r := Import(csvContent, host);
      !r.success && r.trades == [] && r.errors == [EmptyFileMessage] && r.summary == ImportSummary(0, 0, 0)
  {
  }

  /** An unrecognised header stops the import with the one message and nothing counted. */
  lemma ImportUnknownFormat(csvContent: string, host: Host)
    requires |Lines(csvContent)| >= 2 && FormatOf(Lines(csvContent)) == Unknown
    ensures var r := Import(csvContent, host);
      !r.success && r.trades == [] && r.errors == [UnknownFormatMessage] && r.summary == ImportSummary(0, 0, 0)
  {
  }

  /** A row that passed the column-count gate, and one that was a MetaTrader balance line. */
  predicate IsCounted(o: Option<RowResult>) { o.Some? }
  predicate IsBalanceOutcome(o: Option<RowResult>) { o == Some(Balance) }

  /** How many of the rows `1 .. n - 1` have an outcome satisfying `p`. */
  function RowsWhere(outs: seq<Option<RowResult>>, n: nat, p: Option<RowResult> -> bool): nat
    requires 1 <= n <= |outs|
  {
    if n == 1 then 0 else RowsWhere(outs, n - 1, p) + (if p(outs[n - 1]) then 1 else 0)
  }

  /**
   * The counters after rows `1 .. n - 1`: `totalProcessed` counts the rows that were not
   * skipped, and it is `successful + failed` plus the balance lines.
   */
  lemma {:induction false} TallyCounters(outs: seq<Option<RowResult>>, n: nat)
    requires 1 <= n <= |outs|
    ensures CountersAgree(Tally(outs, n))
    ensures var s := Tally(outs, n).summary;
      && s.totalProcessed == RowsWhere(outs, n, IsCounted)
      && s.totalProcessed == s.successful + s.failed + RowsWhere(outs, n, IsBalanceOutcome)
  {
    if n > 1 {
      TallyCounters(outs, n - 1);
    }
  }

  /**
   * Whatever the input: `success` exactly when a trade was imported, and either
   * `trades.length == successful`, `errors.length == failed` and
   * `successful + failed <= totalProcessed`, or a file-level error with nothing counted;
   * the former whenever the header was recognised.
   */
  lemma ImportCounters(csvContent: string, host: Host)
    ensures WellCounted(Import(csvContent, host))
    ensures |Lines(csvContent)| >= 2 && FormatOf(Lines(csvContent)) != Unknown ==> CountersAgree(Import(csvContent, host))
  {
    ImportLinesCounters(Lines(csvContent), host);
  }

  lemma ImportLinesCounters(lines: seq<string>, host: Host)
    ensures WellCounted(ImportLines(lines, host))
    ensures |lines| >= 2 && FormatOf(lines) != Unknown ==> CountersAgree(ImportLines(lines, host))
  {
    if |lines| >= 2 && FormatOf(lines) != Unknown {
      TallyCounters(OutcomesOf(lines, host), |lines|);
    }
  }

  lemma NoBalanceRows(format: BrokerFormat, headers: seq<string>, lines: seq<string>, host: Host, n: nat)
    requires format == TradingView || format == NinjaTrader
    requires 1 <= n <= |lines|
    ensures RowsWhere(Outcomes(format, headers, lines, host), n, IsBalanceOutcome) == 0
  {
    var outs := Outcomes(format, headers, lines, host);
    forall k | 1 <= k < n ensures !IsBalanceOutcome(outs[k]) {
      NoBalanceRow(format, headers, lines[k], k, host);
    }
    NoRowsWhere(outs, n, IsBalanceOutcome);
  }

  /** No row is counted by `p` when no row satisfies it. */
  lemma {:induction false} NoRowsWhere(outs: seq<Option<RowResult>>, n: nat, p: Option<RowResult> -> bool)
    requires 1 <= n <= |outs|
    requires forall k :: 1 <= k < n ==> !p(outs[k])
    ensures RowsWhere(outs, n, p) == 0
  {
    if n > 1 {
      NoRowsWhere(outs, n - 1, p);
    }
  }

  /** Only a MetaTrader row can be a balance line. */
  lemma NoBalanceRow(format: BrokerFormat, headers: seq<string>, line: string, i: nat, host: Host)
    requires format == TradingView || format == NinjaTrader
    ensures !IsBalanceOutcome(RowOutcome(format, headers, line, i, host))
  {
    var columns := SplitCSVLine(line);
    if |columns| >= 5 {
      assert !IsBalanceRow(format, headers, columns);
    }
  }

  /**
   * For TradingView and NinjaTrader every counted row is either imported or failed: only a
   * MetaTrader balance line is counted without being either.
   */
  lemma ImportCountsExact(csvContent: string, host: Host)
    requires |Lines(csvContent)| >= 2
    requires FormatOf(Lines(csvContent)) == TradingView || FormatOf(Lines(csvContent)) == NinjaTrader
    ensures var s := Import(csvContent, host).summary; s.successful + s.failed == s.totalProcessed
  {
    var lines := Lines(csvContent);
    TallyCounters(OutcomesOf(lines, host), |lines|);
    NoBalanceRows(FormatOf(lines), HeadersOf(lines), lines, host, |lines|);
  }

  /** The trade carries what the format's branch read from the columns of `line`. */
  predicate RowFieldsIn(format: BrokerFormat, headers: seq<string>, line: string, i: nat, host: Host, t: Trade) {
    var e := ExtractFields(format, headers, SplitCSVLine(line), host, i);
    e.Extracted? && CarriesFields(t, e.fields)
  }

  /** The rows, in increasing order, whose outcome among rows `1 .. n - 1` is an imported trade. */
  function MappedRows(outs: seq<Option<RowResult>>, n: nat): seq<nat>
    requires 1 <= n <= |outs|
  {
    if n == 1 then []
    else if outs[n - 1].Some? && outs[n - 1].value.Mapped? then MappedRows(outs, n - 1) + [n - 1]
    else MappedRows(outs, n - 1)
  }

  /** The trades after rows `1 .. n - 1` are those of `MappedRows`, in the same order. */
  lemma {:induction false} TallyTradesInOrder(outs: seq<Option<RowResult>>, n: nat)
    requires 1 <= n <= |outs|
    ensures var rows := MappedRows(outs, n);
      var trades := Tally(outs, n).trades;
      && |rows| == |trades|
      && (forall k :: 0 <= k < |rows| ==> 1 <= rows[k] < n)
      && (forall j, k :: 0 <= j < k < |rows| ==> rows[j] < rows[k])
      && (forall k :: 0 <= k < |rows| ==> outs[rows[k]] == Some(Mapped(trades[k])))
  {
    if n > 1 {
      TallyTradesInOrder(outs, n - 1);
    }
  }

  /**
   * The imported trades come from the source rows in increasing row order: trade `k` is the
   * trade line `rows[k]` maps to, with the dates, side, prices, quantity and P&L its format's
   * branch read from that line, setup "Imported", no mistakes, the status of its P&L's sign
   * (never OPEN) and the id `imp_<clock>_<row>`.
   */
  lemma ImportTradesInRowOrder(csvContent: string, host: Host)
    requires |Lines(csvContent)| >= 2 && FormatOf(Lines(csvContent)) != Unknown
    ensures var lines := Lines(csvContent);
      var rows := MappedRows(OutcomesOf(lines, host), |lines|);
      var trades := Import(csvContent, host).trades;
      && |rows| == |trades|
      && (forall j, k :: 0 <= j < k < |rows| ==> rows[j] < rows[k])
      && (forall k :: 0 <= k < |rows| ==>
            1 <= rows[k] < |lines| &&
            RowOutcome(FormatOf(lines), HeadersOf(lines), lines[rows[k]], rows[k], host) == Some(Mapped(trades[k])) &&
            IsImportedTrade(trades[k], host.millis(rows[k]), rows[k]) &&
            RowFieldsIn(FormatOf(lines), HeadersOf(lines), lines[rows[k]], rows[k], host, trades[k]))
  {
    ImportLinesTradesInRowOrder(Lines(csvContent), host);
  }

  lemma ImportLinesTradesInRowOrder(lines: seq<string>, host: Host)
    requires |lines| >= 2 && FormatOf(lines) != Unknown
    ensures var rows := MappedRows(OutcomesOf(lines, host), |lines|);
      var trades := ImportLines(lines, host).trades;
      && |rows| == |trades|
      && (forall j, k :: 0 <= j < k < |rows| ==> rows[j] < rows[k])
      && (forall k :: 0 <= k < |rows| ==>
            1 <= rows[k] < |lines| &&
            RowOutcome(FormatOf(lines), HeadersOf(lines), lines[rows[k]], rows[k], host) == Some(Mapped(trades[k])) &&
            IsImportedTrade(trades[k], host.millis(rows[k]), rows[k]) &&
            RowFieldsIn(FormatOf(lines), HeadersOf(lines), lines[rows[k]], rows[k], host, trades[k]))
  {
    var outs := OutcomesOf(lines, host);
    TallyTradesInOrder(outs, |lines|);
    var rows := MappedRows(outs, |lines|);
    var trades := ImportLines(lines, host).trades;
    assert trades == Tally(outs, |lines|).trades;
    forall k | 0 <= k < |rows|
      ensures RowOutcome(FormatOf(lines), HeadersOf(lines), lines[rows[k]], rows[k], host) == Some(Mapped(trades[k]))
      ensures IsImportedTrade(trades[k], host.millis(rows[k]), rows[k])
      ensures RowFieldsIn(FormatOf(lines), HeadersOf(lines), lines[rows[k]], rows[k], host, trades[k])
    {
      assert outs[rows[k]] == RowOutcome(FormatOf(lines), HeadersOf(lines), lines[rows[k]], rows[k], host);
    }
  }

  /**
   * A TradingView export lists executions, not round trips: every trade it imports exits
   * when and where it entered.
   */
  lemma ImportTradingViewSameExit(csvContent: string, host: Host)
    requires |Lines(csvContent)| >= 2 && FormatOf(Lines(csvContent)) == TradingView
    ensures var trades := Import(csvContent, host).trades;
      forall k :: 0 <= k < |trades| ==> trades[k].exitDate == trades[k].entryDate && trades[k].exitPrice == trades[k].entryPrice
  {
    var lines := Lines(csvContent);
    ImportLinesTradesInRowOrder(lines, host);
    var rows := MappedRows(OutcomesOf(lines, host), |lines|);
    var trades := Import(csvContent, host).trades;
    forall k | 0 <= k < |trades|
      ensures trades[k].exitDate == trades[k].entryDate && trades[k].exitPrice == trades[k].entryPrice
    {
      assert RowFieldsIn(TradingView, HeadersOf(lines), lines[rows[k]], rows[k], host, trades[k]);
    }
  }

  /** The number of trailing decimal digits of `s`. */
  function DigitSuffix(s: string): (n: nat)
    ensures n <= |s|
  {
    if |s| > 0 && IsDigit(s[|s| - 1]) then 1 + DigitSuffix(s[..|s| - 1]) else 0
  }

  lemma {:induction false} DigitSuffixAfter(p: string, d: string)
    requires |p| > 0 && !IsDigit(p[|p| - 1]) && AllDigits(d)
    ensures DigitSuffix(p + d) == |d|
  {
    if |d| > 0 {
      assert (p + d)[..|p + d| - 1] == p + d[..|d| - 1];
      DigitSuffixAfter(p, d[..|d| - 1]);
    } else {
      assert p + d == p;
    }
  }

  /** Every imported id starts with `imp_`, which is what tells imported trades apart (App.tsx:76). */
  lemma ImportIdPrefix(millis: nat, i: nat)
    ensures StartsWith(ImportId(millis, i), "imp_")
  {
    var rest := NatToString(millis) + "_" + NatToString(i);
    assert ImportId(millis, i) == "imp_" + rest;
  }

  /** Two ids `imp_<clock>_<row>` are equal only for the same row, whatever the clock read. */
  lemma ImportIdDeterminesRow(m1: nat, i1: nat, m2: nat, i2: nat)
    requires ImportId(m1, i1) == ImportId(m2, i2)
    ensures i1 == i2
  {
    var p1, d1 := "imp_" + NatToString(m1) + "_", NatToString(i1);
    var p2, d2 := "imp_" + NatToString(m2) + "_", NatToString(i2);
    assert p1 + d1 == ImportId(m1, i1) && p2 + d2 == ImportId(m2, i2);
    DigitSuffixAfter(p1, d1);
    DigitSuffixAfter(p2, d2);
    assert d1 == (p1 + d1)[|p1|..];
    assert d2 == (p2 + d2)[|p2|..];
    NatToStringInjective(i1, i2);
  }

  /** The ids of one import are pairwise distinct and all start with `imp_`. */
  lemma ImportIdsDistinct(csvContent: string, host: Host)
    ensures var trades := Import(csvContent, host).trades;
      && (forall k :: 0 <= k < |trades| ==> StartsWith(trades[k].id, "imp_"))
      && (forall j, k :: 0 <= j < k < |trades| ==> trades[j].id != trades[k].id)
  {
    ImportLinesIdsDistinct(Lines(csvContent), host);
  }

  lemma ImportLinesIdsDistinct(lines: seq<string>, host: Host)
    ensures var trades := ImportLines(lines, host).trades;
      && (forall k :: 0 <= k < |trades| ==> StartsWith(trades[k].id, "imp_"))
      && (forall j, k :: 0 <= j < k < |trades| ==> trades[j].id != trades[k].id)
  {
    if |lines| >= 2 && FormatOf(lines) != Unknown {
      ImportLinesTradesInRowOrder(lines, host);
      var rows := MappedRows(OutcomesOf(lines, host), |lines|);
      var trades := ImportLines(lines, host).trades;
      forall k | 0 <= k < |trades| ensures StartsWith(trades[k].id, "imp_") {
        ImportIdPrefix(host.millis(rows[k]), rows[k]);
      }
      forall j, k | 0 <= j < k < |trades| ensures trades[j].id != trades[k].id {
        if trades[j].id == trades[k].id {
          ImportIdDeterminesRow(host.millis(rows[j]), rows[j], host.millis(rows[k]), rows[k]);
        }
      }
    }
  }

  /** The rows, in increasing order, whose outcome among rows `1 .. n - 1` is a thrown error. */
  function ThrownRows(outs: seq<Option<RowResult>>, n: nat): seq<nat>
    requires 1 <= n <= |outs|
  {
    if n == 1 then []
    else if outs[n - 1].Some? && outs[n - 1].value.Thrown? then ThrownRows(outs, n - 1) + [n - 1]
    else ThrownRows(outs, n - 1)
  }

  /** The errors after rows `1 .. n - 1` are those of `ThrownRows`, in order, each naming its row. */
  lemma {:induction false} TallyErrorsInOrder(outs: seq<Option<RowResult>>, n: nat)
    requires 1 <= n <= |outs|
    ensures var rows := ThrownRows(outs, n);
      var errors := Tally(outs, n).errors;
      && |rows| == |errors|
      && (forall k :: 0 <= k < |rows| ==> 1 <= rows[k] < n)
      && (forall j, k :: 0 <= j < k < |rows| ==> rows[j] < rows[k])
      && (forall k :: 0 <= k < |rows| ==>
            outs[rows[k]].Some? && outs[rows[k]].value.Thrown? &&
            errors[k] == RowError(rows[k], outs[rows[k]].value.message))
  {
    if n > 1 {
      TallyErrorsInOrder(outs, n - 1);
    }
  }

  /** A row error names the line, counted from 1 with the header as line 1, and one of the two messages. */
  predicate IsRowError(e: string, i: nat) {
    e == RowError(i, MissingFieldsMessage) || e == RowError(i, UndefinedLowerCaseMessage)
  }

  /**
   * The per-row errors of an import come one per failed row, in row order, each
   * `Row <n>: <message>` with `n >= 2` and one of the two messages a row can throw.
   */
  lemma ImportErrorsNameRows(csvContent: string, host: Host)
    requires |Lines(csvContent)| >= 2 && FormatOf(Lines(csvContent)) != Unknown
    ensures var lines := Lines(csvContent);
      var rows := ThrownRows(OutcomesOf(lines, host), |lines|);
      var errors := Import(csvContent, host).errors;
      && |rows| == |errors|
      && (forall j, k :: 0 <= j < k < |rows| ==> rows[j] < rows[k])
      && (forall k :: 0 <= k < |rows| ==> 1 <= rows[k] < |lines| && IsRowError(errors[k], rows[k]))
  {
    ImportLinesErrors(Lines(csvContent), host);
  }

  lemma ImportLinesErrors(lines: seq<string>, host: Host)
    requires |lines| >= 2 && FormatOf(lines) != Unknown
    ensures var rows := ThrownRows(OutcomesOf(lines, host), |lines|);
      var errors := ImportLines(lines, host).errors;
      && |rows| == |errors|
      && (forall j, k :: 0 <= j < k < |rows| ==> rows[j] < rows[k])
      && (forall k :: 0 <= k < |rows| ==> 1 <= rows[k] < |lines| && IsRowError(errors[k], rows[k]))
  {
    var outs := OutcomesOf(lines, host);
    TallyErrorsInOrder(outs, |lines|);
    var rows := ThrownRows(outs, |lines|);
    var errors := ImportLines(lines, host).errors;
    assert errors == Tally(outs, |lines|).errors;
    forall k | 0 <= k < |rows| ensures IsRowError(errors[k], rows[k]) {
      assert outs[rows[k]] == RowOutcome(FormatOf(lines), HeadersOf(lines), lines[rows[k]], rows[k], host);
    }
  }

  /**
   * A NinjaTrader export whose header has "market pos" but no column named exactly
   * "market pos." is detected, yet every row of it fails on `toLowerCase` of `undefined`.
   */
  lemma NinjaTraderWithoutPeriodFails(headers: seq<string>, columns: seq<string>, i: nat, host: Host)
    requires "market pos." !in headers
    ensures MapRow(NinjaTrader, headers, columns, i, host) == Thrown(UndefinedLowerCaseMessage)
  {
  }

  /** A TradingView row without Contracts and Quantity columns gets quantity 1; without Profit, P&L 0. */
  lemma TradingViewFallbacks(headers: seq<string>, columns: seq<string>, host: Host, i: nat)
    requires Column(headers, columns, "type").Some?
    requires "contracts" !in headers && "quantity" !in headers && "profit" !in headers
    ensures TradingViewFields(headers, columns, host, i).fields.quantity == Finite(1.0)
    ensures TradingViewFields(headers, columns, host, i).fields.pnl == Finite(0.0)
  {
    assert Column(headers, columns, "contracts") == None;
    assert Column(headers, columns, "quantity") == None;
    assert Column(headers, columns, "profit") == None;
    assert NumberOf(Some("1")) == Finite(1.0) by {
      ParseFloatDigit(1);
      assert [DigitChar(1)] == "1";
    }
    assert NumberOf(Some("0")) == Finite(0.0) by {
      ParseFloatDigit(0);
      assert [DigitChar(0)] == "0";
    }
  }
}
