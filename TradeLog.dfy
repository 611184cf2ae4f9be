/**
 * The trade journal of `components/TradeLog.tsx`: the mistake tags of the edit form, saving
 * an edit, the sorted list of every mistake, the search and filters over the trade list and
 * the label of the filter button.
 */
module TradeLog {
  import opened Wrappers
  import opened JsRuntime
  import opened Seqs
  import opened Types

  // =======================================================================================
  // The edit form

  /** An optional property of the form over the trade's own optional property. */
  function Over<T>(form: Option<T>, own: Option<T>): Option<T> {
    if form.Some? then form else own
  }

  /**
   * `{...selectedTrade, ...editForm, notes: noteDraft}` with the status then set by the sign
   * of the P&L (components/TradeLog.tsx:224-232).
   */
  function SavedTrade(sel: Trade, form: TradeDraft, noteDraft: string): (r: Trade)
    ensures r.id == form.id.GetOr(sel.id) && r.symbol == form.symbol.GetOr(sel.symbol)
    ensures r.entryDate == form.entryDate.GetOr(sel.entryDate) && r.exitDate == form.exitDate.GetOr(sel.exitDate)
    ensures r.tradeType == form.tradeType.GetOr(sel.tradeType) && r.setup == form.setup.GetOr(sel.setup)
    ensures r.entryPrice == form.entryPrice.GetOr(sel.entryPrice) && r.exitPrice == form.exitPrice.GetOr(sel.exitPrice)
    ensures r.stopLoss == Over(form.stopLoss, sel.stopLoss) && r.quantity == form.quantity.GetOr(sel.quantity)
    ensures r.pnl == form.pnl.GetOr(sel.pnl) && r.rMultiple == form.rMultiple.GetOr(sel.rMultiple)
    ensures r.mistakes == Over(form.mistakes, sel.mistakes) && r.screenshotUrl == Over(form.screenshotUrl, sel.screenshotUrl)
    ensures r.notes == Some(noteDraft)
    ensures r.status == StatusOf(r.pnl)
  {
    var merged := Trade(
      form.id.GetOr(sel.id), form.symbol.GetOr(sel.symbol), form.entryDate.GetOr(sel.entryDate),
      form.exitDate.GetOr(sel.exitDate), form.tradeType.GetOr(sel.tradeType), form.setup.GetOr(sel.setup),
      form.entryPrice.GetOr(sel.entryPrice), form.exitPrice.GetOr(sel.exitPrice), Over(form.stopLoss, sel.stopLoss),
      form.quantity.GetOr(sel.quantity), form.pnl.GetOr(sel.pnl), form.rMultiple.GetOr(sel.rMultiple),
      form.status.GetOr(sel.status), Over(form.mistakes, sel.mistakes), Over(form.screenshotUrl, sel.screenshotUrl),
      Some(noteDraft));
    merged.(status := StatusOf(merged.pnl))
  }

  /** Saving the same form and notes over the saved trade changes nothing more. */
  lemma SaveEditIdempotent(sel: Trade, form: TradeDraft, noteDraft: string)
    ensures SavedTrade(SavedTrade(sel, form, noteDraft), form, noteDraft) == SavedTrade(sel, form, noteDraft)
  {
  }

  /** With an empty form, saving only replaces the notes and re-derives the status. */
  lemma SaveEmptyForm(sel: Trade, noteDraft: string)
    ensures SavedTrade(sel, EmptyDraft, noteDraft) == sel.(notes := Some(noteDraft), status := StatusOf(sel.pnl))
  {
  }

  /** Saving an unchanged copy of the trade only replaces the notes and re-derives the status. */
  lemma SaveUnchangedCopy(sel: Trade, noteDraft: string)
    ensures SavedTrade(sel, Whole(sel), noteDraft) == sel.(notes := Some(noteDraft), status := StatusOf(sel.pnl))
  {
  }

  /** A status typed into the form never survives saving: only the P&L's sign decides it. */
  lemma SavedStatusIgnoresForm(sel: Trade, form: TradeDraft, noteDraft: string, s: TradeStatus)
    ensures SavedTrade(sel, form.(status := Some(s)), noteDraft) == SavedTrade(sel, form, noteDraft)
  {
  }

  /**
   * The mistakes after `addMistake` with `m` in the input box: unchanged for an empty `m`,
   * `[m]` when the form has no list, the list with `m` appended when it is new, and the
   * list itself when it already holds `m`.
   */
  function WithMistake(ms: Option<seq<string>>, m: string): (r: Option<seq<string>>)
    ensures m == "" ==> r == ms
    ensures m != "" ==> r.Some? && m in r.value
    ensures m != "" && ms.None? ==> r == Some([m])
    ensures m != "" && ms.Some? && m !in ms.value ==> r == Some(ms.value + [m])
    ensures ms.Some? && m in ms.value ==> r == ms
  {
    if m != "" && ms.Some? then
      if m !in ms.value then Some(ms.value + [m]) else ms
    else if m != "" then Some([m])
    else ms
  }

  /** Adding keeps a duplicate-free list duplicate-free, adds exactly `m`, and adding twice is adding once. */
  lemma WithMistakeProperties(ms: seq<string>, m: string)
    requires NoDuplicates(ms) && m != ""
    ensures NoDuplicates(WithMistake(Some(ms), m).value)
    ensures forall x :: x in WithMistake(Some(ms), m).value <==> x in ms || x == m
    ensures WithMistake(WithMistake(Some(ms), m), m) == WithMistake(Some(ms), m)
  {
    var r := WithMistake(Some(ms), m).value;
    if m !in ms {
      forall i, j | 0 <= i < j < |r| ensures r[i] != r[j] {
        if j == |ms| {
          assert r[i] == ms[i];
        }
      }
    }
  }

  /** Removing a mistake undoes adding a new one. */
  lemma RemoveUndoesAdd(ms: seq<string>, m: string)
    requires m != "" && m !in ms
    ensures Without(WithMistake(Some(ms), m).value, m) == ms
  {
    WithoutAppended(ms, m);
  }

  // =======================================================================================
  // allMistakes

  /** JavaScript's default string order: by character codes, a proper prefix first. */
  predicate StringLess(a: string, b: string)
    decreases |a|
  {
    if a == [] then b != []
    else if b == [] then false
    else if a[0] != b[0] then a[0] < b[0]
    else StringLess(a[1..], b[1..])
  }

  lemma {:induction false} StringLessIrreflexive(a: string)
    ensures !StringLess(a, a)
  {
    if a != [] {
      StringLessIrreflexive(a[1..]);
    }
  }

  lemma {:induction false} StringLessTransitive(a: string, b: string, c: string)
    requires StringLess(a, b) && StringLess(b, c)
    ensures StringLess(a, c)
    decreases |a|
  {
    if a != [] && b != [] && c != [] && a[0] == b[0] && b[0] == c[0] {
      StringLessTransitive(a[1..], b[1..], c[1..]);
    }
  }

  lemma {:induction false} StringLessTotal(a: string, b: string)
    requires a != b
    ensures StringLess(a, b) || StringLess(b, a)
    decreases |a|
  {
    if a != [] && b != [] && a[0] == b[0] {
      assert a == [a[0]] + a[1..] && b == [b[0]] + b[1..];
      StringLessTotal(a[1..], b[1..]);
    }
  }

  /** Strictly increasing in the string order; in particular without duplicates. */
  predicate StrictlySorted(s: seq<string>) {
    forall i, j :: 0 <= i < j < |s| ==> StringLess(s[i], s[j])
  }

  /** Insert `x` into a strictly sorted list unless it is already there. */
  function InsertUnique(x: string, s: seq<string>): (r: seq<string>)
    requires StrictlySorted(s)
    ensures StrictlySorted(r)
    ensures forall y :: y in r <==> y in s || y == x
  {
    if s == [] then [x]
    else if x == s[0] then s
    else if StringLess(x, s[0]) then
      forall j | 0 < j < |s| ensures StringLess(x, s[j]) {
        StringLessTransitive(x, s[0], s[j]);
      }
      [x] + s
    else
      StringLessTotal(x, s[0]);
      var rest := InsertUnique(x, s[1..]);
      assert forall y :: y in rest ==> y == x || y in s[1..];
      forall j | 0 <= j < |rest| ensures StringLess(s[0], rest[j]) {
        assert rest[j] in rest;
      }
      [s[0]] + rest
  }

  /** Every mistake of one trade after another: `trades.flatMap(t => t.mistakes || [])`. */
  function AllTags(trades: seq<Trade>): seq<string> {
    if trades == [] then [] else trades[0].mistakes.GetOr([]) + AllTags(trades[1..])
  }

  /** `new Set(tags)` then `sort()`: the tags inserted one by one into a sorted list. */
  function SortedUnique(tags: seq<string>): (r: seq<string>)
    ensures StrictlySorted(r)
    ensures forall y :: y in r <==> y in tags
  {
    if tags == [] then []
    else
      var init := tags[..|tags| - 1];
      assert tags == init + [tags[|tags| - 1]];
      InsertUnique(tags[|tags| - 1], SortedUnique(init))
  }

  /**
   * `allMistakes` (components/TradeLog.tsx:290): strictly increasing, so sorted and without
   * duplicates, and holding exactly the mistakes some trade has.
   */
  function AllMistakes(trades: seq<Trade>): (r: seq<string>)
    ensures StrictlySorted(r)
    ensures forall m :: m in r <==> exists k :: 0 <= k < |trades| && HasMistake(trades[k], m)
  {
    forall m ensures m in AllTags(trades) <==> exists k :: 0 <= k < |trades| && HasMistake(trades[k], m) {
      AllTagsContents(trades, m);
    }
    SortedUnique(AllTags(trades))
  }

  predicate HasMistake(t: Trade, m: string) {
    t.mistakes.Some? && m in t.mistakes.value
  }

  lemma {:induction false} AllTagsContents(trades: seq<Trade>, m: string)
    ensures m in AllTags(trades) <==> exists k :: 0 <= k < |trades| && HasMistake(trades[k], m)
  {
    if trades != [] {
      AllTagsContents(trades[1..], m);
      if HasMistake(trades[0], m) {
        assert HasMistake(trades[0], m);
      }
      if exists k :: 0 <= k < |trades| && HasMistake(trades[k], m) {
        var k :| 0 <= k < |trades| && HasMistake(trades[k], m);
        if k > 0 {
          assert HasMistake(trades[1..][k - 1], m);
        }
      }
    }
  }

  /**
   * A strictly sorted list is determined by its elements, so `AllMistakes` is the one list
   * that `Array.from(new Set(...)).sort()` can produce.
   */
  lemma {:induction false} StrictlySortedUnique(a: seq<string>, b: seq<string>)
    requires StrictlySorted(a) && StrictlySorted(b)
    requires forall x :: x in a <==> x in b
    ensures a == b
  {
    HeadIn(a);
    HeadIn(b);
    if a != [] && b != [] {
      assert a[0] in b && b[0] in a;
      if a[0] != b[0] {
        var i :| 0 <= i < |a| && a[i] == b[0];
        var j :| 0 <= j < |b| && b[j] == a[0];
        assert i > 0 && j > 0;
        StringLessTransitive(a[0], a[i], a[0]);
        StringLessIrreflexive(a[0]);
      }
      forall x ensures x in a[1..] <==> x in b[1..] {
        if x in a[1..] {
          var i :| 1 <= i < |a| && a[i] == x;
          StringLessIrreflexive(x);
          assert x in b;
        }
        if x in b[1..] {
          var i :| 1 <= i < |b| && b[i] == x;
          StringLessIrreflexive(x);
          assert x in a;
        }
      }
      StrictlySortedUnique(a[1..], b[1..]);
      assert a == [a[0]] + a[1..] && b == [b[0]] + b[1..];
    }
  }

  lemma HeadIn(s: seq<string>)
    ensures s != [] ==> s[0] in s
  {
  }

  // =======================================================================================
  // filteredTrades and getFilterLabel

  /** The status filter: `'ALL'` or one status. */
  datatype StatusFilter = AllStatuses | OnlyStatus(status: TradeStatus)

  /** The sentinel of the mistake filter. */
  const AllMistakesFilter := "ALL"

  /** The test of `trades.filter` (components/TradeLog.tsx:293-300). */
  predicate MatchesFilters(t: Trade, searchTerm: string, filterStatus: StatusFilter, filterMistake: string) {
    var term := Lower(searchTerm);
    && (Contains(Lower(t.symbol), term) || Contains(Lower(t.setup), term))
    && (filterStatus.AllStatuses? || t.status == filterStatus.status)
    && (filterMistake == AllMistakesFilter || HasMistake(t, filterMistake))
  }

  /**
   * `filteredTrades`: the trades that match, in their order; every trade kept matches and
   * every trade that matches is kept.
   */
  function FilteredTrades(trades: seq<Trade>, searchTerm: string, filterStatus: StatusFilter, filterMistake: string)
    : (r: seq<Trade>)
    ensures IsSubsequence(r, trades)
    ensures forall k :: 0 <= k < |r| ==> MatchesFilters(r[k], searchTerm, filterStatus, filterMistake)
    ensures forall k :: 0 <= k < |trades| && MatchesFilters(trades[k], searchTerm, filterStatus, filterMistake) ==>
      trades[k] in r
  {
    var keep := t => MatchesFilters(t, searchTerm, filterStatus, filterMistake);
    FilterIsSubsequence(trades, keep);
    Filter(trades, keep)
  }

  lemma EmptyContained(s: string)
    ensures Contains(s, "")
  {
    assert StartsWith(s, "");
  }

  /** No search term and no filter: every trade is listed. */
  lemma NoFiltersKeepsAll(trades: seq<Trade>)
    ensures FilteredTrades(trades, "", AllStatuses, AllMistakesFilter) == trades
  {
    forall t | t in trades ensures MatchesFilters(t, "", AllStatuses, AllMistakesFilter) {
      EmptyContained(Lower(t.symbol));
    }
    FilterAll(trades, t => MatchesFilters(t, "", AllStatuses, AllMistakesFilter));
  }

  /**
   * `getFilterLabel` (components/TradeLog.tsx:303-309), with `filtersText` the translation of
   * 'filters': the translation when neither filter is set, `status • mistake` when both are,
   * otherwise the one that is set.
   */
  function FilterLabel(filterStatus: StatusFilter, filterMistake: string, filtersText: string): (text: string)
    ensures filterStatus.AllStatuses? && filterMistake == AllMistakesFilter ==> text == filtersText
    ensures filterStatus.OnlyStatus? && filterMistake != AllMistakesFilter ==>
      text == StatusText(filterStatus.status) + " • " + filterMistake
    ensures filterStatus.OnlyStatus? && filterMistake == AllMistakesFilter ==> text == StatusText(filterStatus.status)
    ensures filterStatus.AllStatuses? && filterMistake != AllMistakesFilter ==> text == filterMistake
  {
    if filterStatus.AllStatuses? && filterMistake == AllMistakesFilter then filtersText
    else if filterStatus.OnlyStatus? && filterMistake != AllMistakesFilter then
      StatusText(filterStatus.status) + " • " + filterMistake
    else if filterStatus.OnlyStatus? then StatusText(filterStatus.status)
    else filterMistake
  }

  // =======================================================================================
  // The component state

  /** The detail and edit state of the trade journal. */
  class TradeLogView {
    var selectedTrade: Option<Trade>
    var noteDraft: string
    var isSaved: bool
    var isEditing: bool
    var hasUnsavedChanges: bool
    var editForm: TradeDraft
    var newMistake: string

    /** The initial state of the hooks (components/TradeLog.tsx:41-51). */
    constructor()
      ensures selectedTrade.None? && noteDraft == "" && !isSaved && !isEditing && !hasUnsavedChanges
      ensures editForm == EmptyDraft && newMistake == ""
    {
      selectedTrade := None;
      noteDraft := "";
      isSaved := false;
      isEditing := false;
      hasUnsavedChanges := false;
      editForm := EmptyDraft;
      newMistake := "";
    }

    /**
     * `addMistake` (components/TradeLog.tsx:262-274): the input box is always left empty,
     * the form's list becomes `WithMistake` of the old one, and the form is marked changed
     * exactly when the list changed.
     */
    method AddMistake()
      modifies this
      ensures editForm == old(editForm).(mistakes := WithMistake(old(editForm.mistakes), old(newMistake)))
      ensures newMistake == ""
      ensures hasUnsavedChanges == (old(hasUnsavedChanges) || editForm.mistakes != old(editForm.mistakes))
      ensures selectedTrade == old(selectedTrade) && noteDraft == old(noteDraft)
      ensures isSaved == old(isSaved) && isEditing == old(isEditing)
    {
      if newMistake != "" && editForm.mistakes.Some? {
        if newMistake !in editForm.mistakes.value {
          editForm := editForm.(mistakes := Some(editForm.mistakes.value + [newMistake]));
          hasUnsavedChanges := true;
        }
        newMistake := "";
      } else if newMistake != "" {
        editForm := editForm.(mistakes := Some([newMistake]));
        hasUnsavedChanges := true;
        newMistake := "";
      }
    }

    /**
     * `removeMistake` (components/TradeLog.tsx:276-281): every occurrence goes, the others
     * keep their order, and a form without a list is left alone.
     */
    method RemoveMistake(mistakeToRemove: string)
      modifies this
      ensures old(editForm.mistakes).None? ==>
        editForm == old(editForm) && hasUnsavedChanges == old(hasUnsavedChanges)
      ensures old(editForm.mistakes).Some? ==>
        && editForm == old(editForm).(mistakes := Some(Without(old(editForm.mistakes).value, mistakeToRemove)))
        && hasUnsavedChanges
      ensures newMistake == old(newMistake) && selectedTrade == old(selectedTrade) && noteDraft == old(noteDraft)
      ensures isSaved == old(isSaved) && isEditing == old(isEditing)
    {
      if editForm.mistakes.Some? {
        editForm := editForm.(mistakes := Some(Without(editForm.mistakes.value, mistakeToRemove)));
        hasUnsavedChanges := true;
      }
    }

    /**
     * `handleSaveEdit` (components/TradeLog.tsx:221-240): with a selected trade, the merged
     * trade is handed to `onSaveTrade` (the result), becomes the selection, and editing ends
     * with nothing unsaved; without one, nothing happens.
     */
    method SaveEdit() returns (saved: Option<Trade>)
      modifies this
      ensures old(selectedTrade).None? ==>
        && saved.None? && selectedTrade.None? && isEditing == old(isEditing)
        && hasUnsavedChanges == old(hasUnsavedChanges) && isSaved == old(isSaved)
      ensures old(selectedTrade).Some? ==>
        && saved == Some(SavedTrade(old(selectedTrade).value, old(editForm), old(noteDraft)))
        && selectedTrade == saved && !isEditing && !hasUnsavedChanges && isSaved
      ensures editForm == old(editForm) && newMistake == old(newMistake) && noteDraft == old(noteDraft)
    {
      if selectedTrade.None? {
        return None;
      }
      var updatedTrade := SavedTrade(selectedTrade.value, editForm, noteDraft);
      saved := Some(updatedTrade);
      selectedTrade := Some(updatedTrade);
      isEditing := false;
      hasUnsavedChanges := false;
      isSaved := true;
    }
  }
}
