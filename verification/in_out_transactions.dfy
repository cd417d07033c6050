/** The transaction table (features/inwards-outwards/components/in-out-transactions/in-out-transactions.component.ts):
    the filter it sends, the merge of each row with its inventory item,
    the search over the loaded page, and the "start - end of total" label. */
module InOutTransactions {
  import opened Common
  import opened Text
  import opened Time
  import opened Paging
  import opened InventoryModel
  import opened TransactionModel
  import opened InoutService

  /** The type drop-down: `'all'` or one transaction type. */
  datatype TypeChoice = AllTypes | OnlyType(txType: TxType)

  /** A `PageEvent` from the paginator. */
  datatype PageEvent = PageEvent(pageIndex: nat, pageSize: nat)

  /** A table row: the transaction with the columns the merge adds. */
  datatype TxRow = TxRow(tx: Transaction, srNo: nat, itemName: string, unit: string, unitPrice: int, totalValue: int)

  /** The component's fields; an empty date input is absent. */
  datatype TxListState = TxListState(
    pageIndex: nat,
    pageSize: nat,
    filterType: TypeChoice,
    searchTerm: string,
    selectedDate: Option<Date>,
    rows: seq<TxRow>,
    totalLength: nat)

  /** The field initialisers: first page of 10, no filter. */
  function InitialState(): (s: TxListState)
    ensures s.pageIndex == 0 && s.pageSize == 10 && s.filterType == AllTypes
    ensures s.searchTerm == "" && s.selectedDate.None? && s.rows == [] && s.totalLength == 0
  {
    TxListState(0, 10, AllTypes, "", None, [], 0)
  }

  /** The filter object: the type only when it is not `'all'`, the date
      only when one is set, and never a search term (the search runs in
      the component instead). */
  function BuildFilter(choice: TypeChoice, date: Option<Date>): (f: TxFilter)
    ensures f.transactionType.None? <==> choice == AllTypes
    ensures choice.OnlyType? ==> f.transactionType == Some(choice.txType)
    ensures f.selectedDate == date && f.itemName.None?
  {
    TxFilter(if choice.OnlyType? then Some(choice.txType) else None, date, None)
  }

  /** With no type and no date every transaction matches, so the service
      total is the size of the table. */
  lemma NoFilterMatchesAll(table: seq<Transaction>)
    ensures Count(table, MatchesFilter(BuildFilter(AllTypes, None))) == |table|
    ensures Filter(table, MatchesFilter(BuildFilter(AllTypes, None))) == table
  {
    var f := BuildFilter(AllTypes, None);
    assert forall t :: Matches(f, t);
    FilterAll(table, MatchesFilter(f));
  }

  const NoItemName: string := "\U{2014}"

  /** `items.find(x => x.id === t.item_id)`. */
  function ItemOf(items: seq<InventoryItem>, t: Transaction): Option<InventoryItem> {
    FindItem(items, t.itemId)
  }

  /** One merged row. The price is the transaction's, else the item's, else
      0 (a stored price of 0 is kept); the value is quantity times that
      price; an unmatched row shows a dash and no unit. */
  function MergeRow(t: Transaction, i: nat, items: seq<InventoryItem>, pageIndex: nat, pageSize: nat): (r: TxRow)
    ensures r.tx == t && r.srNo == pageIndex * pageSize + i + 1
    ensures t.unitPrice.Some? ==> r.unitPrice == t.unitPrice.value
    ensures t.unitPrice.None? && ItemOf(items, t).Some? ==> r.unitPrice == ItemOf(items, t).value.unitPrice
    ensures t.unitPrice.None? && ItemOf(items, t).None? ==> r.unitPrice == 0
    ensures r.totalValue == t.quantity * r.unitPrice
    ensures ItemOf(items, t).None? ==> r.itemName == NoItemName && r.unit == ""
    ensures ItemOf(items, t).Some? ==> r.itemName == ItemOf(items, t).value.itemName && r.unit == ItemOf(items, t).value.unit
  {
    var item := ItemOf(items, t);
    var price := if t.unitPrice.Some? then t.unitPrice.value else if item.Some? then item.value.unitPrice else 0;
    TxRow(t, pageIndex * pageSize + i + 1,
      if item.Some? then item.value.itemName else NoItemName,
      if item.Some? then item.value.unit else "",
      price, t.quantity * price)
  }

  /** The merge over a loaded page. */
  function Merge(page: seq<Transaction>, items: seq<InventoryItem>, pageIndex: nat, pageSize: nat): (r: seq<TxRow>)
    ensures |r| == |page|
    ensures forall i :: 0 <= i < |page| ==> r[i] == MergeRow(page[i], i, items, pageIndex, pageSize)
  {
    seq(|page|, i requires 0 <= i < |page| => MergeRow(page[i], i, items, pageIndex, pageSize))
  }

  /** The merged value of a priced transaction is the value the dashboard
      sums for it; an unpriced one falls back to the item's current price,
      which the dashboard does not. */
  lemma MergedValueAgreement(t: Transaction, i: nat, items: seq<InventoryItem>, pageIndex: nat, pageSize: nat)
    ensures t.unitPrice.Some? ==> MergeRow(t, i, items, pageIndex, pageSize).totalValue == t.quantity * t.unitPrice.value
    ensures t.unitPrice.None? && ItemOf(items, t).None? ==> MergeRow(t, i, items, pageIndex, pageSize).totalValue == 0
  {
  }

  /** The row's serial number is its 1-based position in the whole filtered
      listing, so numbering continues from page to page. The page is any
      page `getTransactionListPaged` can return for `matching`: row `i` is
      matching row `base + i`, where `base = pageIndex * pageSize`, and a
      non-empty page lies within `matching`. */
  lemma SerialIsPosition(page: seq<Transaction>, matching: seq<Transaction>, items: seq<InventoryItem>,
                         pageIndex: nat, pageSize: nat, base: nat)
    requires base == pageIndex * pageSize
    requires |page| > 0 ==> base + |page| <= |matching|
    requires forall i :: 0 <= i < |page| ==> page[i] == matching[base + i]
    ensures var rows := Merge(page, items, pageIndex, pageSize);
      forall i :: 0 <= i < |rows| ==>
        rows[i].srNo - 1 < |matching| && rows[i].tx == matching[rows[i].srNo - 1]
  {
    var rows := Merge(page, items, pageIndex, pageSize);
    forall i | 0 <= i < |rows|
      ensures rows[i].srNo - 1 < |matching| && rows[i].tx == matching[rows[i].srNo - 1]
    {
      var row := MergeRow(page[i], i, items, pageIndex, pageSize);
      assert rows[i] == row;
      assert row.srNo - 1 == base + i && row.tx == page[i];
    }
  }

  /** The search over a merged row: the item name, party, invoice or notes
      contains the term, ignoring case. */
  predicate RowHit(r: TxRow, term: string) {
    ContainsIgnoreCase(r.itemName, term)
    || ContainsIgnoreCase(r.tx.partyName, term)
    || ContainsIgnoreCase(r.tx.invoiceNumber, term)
    || ContainsIgnoreCase(r.tx.notes, term)
  }

  function RowMatches(term: string): TxRow -> bool {
    (r: TxRow) => RowHit(r, term)
  }

  /** The search in `loadTransactions`: nothing when the term is blank,
      otherwise the rows that contain the untrimmed term. */
  function SearchRows(merged: seq<TxRow>, term: string): (r: seq<TxRow>)
    ensures IsBlank(term) ==> r == merged
    ensures !IsBlank(term) ==> forall i :: 0 <= i < |r| ==> RowHit(r[i], term) && r[i] in merged
    ensures !IsBlank(term) ==> forall i :: 0 <= i < |merged| && RowHit(merged[i], term) ==> merged[i] in r
    ensures |r| <= |merged|
  {
    if Trim(term) == "" then merged else Filter(merged, RowMatches(term))
  }

  /** The search keeps the page's order. */
  lemma SearchKeepsOrder(merged: seq<TxRow>, term: string)
    ensures IsSubsequence(SearchRows(merged, term), merged)
  {
    if Trim(term) == "" {
      SubsequenceRefl(merged);
    } else {
      FilterIsSubsequence(merged, RowMatches(term));
    }
  }

  lemma {:induction false} SubsequenceRefl<T>(s: seq<T>)
    ensures IsSubsequence(s, s)
    decreases |s|
  {
    if |s| > 0 {
      SubsequenceRefl(s[1..]);
    }
  }

  /** A term with white space around it is searched for literally: the
      padded term ` acme` does not find the party `acme`, while `acme`
      does. */
  lemma SearchIsNotTrimmed(r: TxRow)
    requires r.itemName == "" && r.tx.partyName == "acme" && r.tx.invoiceNumber == "" && r.tx.notes == ""
    ensures RowHit(r, "acme")
    ensures !RowHit(r, " acme")
  {
    assert StartsWith(LowerStr("acme"), LowerStr("acme"));
    assert LowerStr(" acme") == " acme";
    assert !Contains("", " acme");
    assert !Contains("acme"[1..][1..][1..][1..], " acme");
    assert !Contains("acme"[1..][1..][1..], " acme");
    assert !Contains("acme"[1..][1..], " acme");
    assert !Contains("acme"[1..], " acme");
  }

  /** `loadTransactions` as written: the label's total is the number of
      rows shown, not the service's count. */
  function LoadTransactionsAsWritten(s: TxListState, event: Option<PageEvent>, table: seq<Transaction>,
                                     items: seq<InventoryItem>, ok: bool): (r: TxListState)
    ensures r.totalLength == |r.rows| && r.totalLength <= r.pageSize
    ensures event.Some? ==> r.pageIndex == event.value.pageIndex && r.pageSize == event.value.pageSize
    ensures event.None? ==> r.pageIndex == s.pageIndex && r.pageSize == s.pageSize
    ensures r.filterType == s.filterType && r.searchTerm == s.searchTerm && r.selectedDate == s.selectedDate
    ensures var page := GetTransactionListPaged(table, r.pageIndex, r.pageSize, BuildFilter(s.filterType, s.selectedDate), ok).0;
      r.rows == SearchRows(Merge(page, items, r.pageIndex, r.pageSize), s.searchTerm)
  {
    var pi := if event.Some? then event.value.pageIndex else s.pageIndex;
    var ps := if event.Some? then event.value.pageSize else s.pageSize;
    var paged := GetTransactionListPaged(table, pi, ps, BuildFilter(s.filterType, s.selectedDate), ok);
    var rows := SearchRows(Merge(paged.0, items, pi, ps), s.searchTerm);
    s.(pageIndex := pi, pageSize := ps, rows := rows, totalLength := |rows|)
  }

  /** `loadTransactions` with the evidently intended total: the service's
      count of matching transactions when no search narrows the page (a
      search only sees the loaded page, so its count stays the row count). */
  function LoadTransactions(s: TxListState, event: Option<PageEvent>, table: seq<Transaction>,
                            items: seq<InventoryItem>, ok: bool): (r: TxListState)
    ensures var w := LoadTransactionsAsWritten(s, event, table, items, ok);
      r.rows == w.rows && r.pageIndex == w.pageIndex && r.pageSize == w.pageSize
      && r.filterType == s.filterType && r.searchTerm == s.searchTerm && r.selectedDate == s.selectedDate
    ensures !IsBlank(s.searchTerm) ==> r.totalLength == |r.rows|
    ensures IsBlank(s.searchTerm) ==>
      r.totalLength == GetTransactionListPaged(table, r.pageIndex, r.pageSize, BuildFilter(s.filterType, s.selectedDate), ok).1
  {
    var w := LoadTransactionsAsWritten(s, event, table, items, ok);
    if Trim(s.searchTerm) == "" then
      w.(totalLength := GetTransactionListPaged(table, w.pageIndex, w.pageSize, BuildFilter(s.filterType, s.selectedDate), ok).1)
    else w
  }

  /** `applyFilter`: back to the first page, then reload through
      `loadTransactions` as written, so the total is the row count. */
  function ApplyFilter(s: TxListState, table: seq<Transaction>, items: seq<InventoryItem>, ok: bool): (r: TxListState)
    ensures r.pageIndex == 0 && r.pageSize == s.pageSize
    ensures r.filterType == s.filterType && r.searchTerm == s.searchTerm && r.selectedDate == s.selectedDate
    ensures var page := GetTransactionListPaged(table, 0, s.pageSize, BuildFilter(s.filterType, s.selectedDate), ok).0;
      r.rows == SearchRows(Merge(page, items, 0, s.pageSize), s.searchTerm)
    ensures r.totalLength == |r.rows|
  {
    LoadTransactionsAsWritten(s.(pageIndex := 0), None, table, items, ok)
  }

  /** `clearFilters`: no search, all types, no date, then `applyFilter`. */
  function ClearFilters(s: TxListState, table: seq<Transaction>, items: seq<InventoryItem>, ok: bool): (r: TxListState)
    ensures r.searchTerm == "" && r.filterType == AllTypes && r.selectedDate.None?
    ensures r.pageIndex == 0 && r.pageSize == s.pageSize
  {
    ApplyFilter(s.(searchTerm := "", filterType := AllTypes, selectedDate := None), table, items, ok)
  }

  /** After clearing, the table shows the newest transactions from the top,
      numbered from 1; the label's total is the number of rows shown, not
      the size of the table. */
  lemma ClearFiltersShowsNewest(s: TxListState, table: seq<Transaction>, items: seq<InventoryItem>)
    ensures var r := ClearFilters(s, table, items, true);
      |r.rows| == Min(s.pageSize, |table|) && r.totalLength == Min(s.pageSize, |table|)
      && forall i :: 0 <= i < |r.rows| ==> r.rows[i].tx == table[i] && r.rows[i].srNo == i + 1
  {
    var f := BuildFilter(AllTypes, None);
    var paged := GetTransactionListPaged(table, 0, s.pageSize, f, true);
    ClearedLoad(s, table, items);
    FirstPageUnfiltered(table, s.pageSize);
    var r := ClearFilters(s, table, items, true);
    assert forall i :: 0 <= i < |r.rows| ==> r.rows[i] == MergeRow(paged.0[i], i, items, 0, s.pageSize);
  }

  /** Clearing reloads the unfiltered first page, unsearched, and counts
      only its rows. */
  lemma ClearedLoad(s: TxListState, table: seq<Transaction>, items: seq<InventoryItem>)
    ensures var paged := GetTransactionListPaged(table, 0, s.pageSize, BuildFilter(AllTypes, None), true);
      var r := ClearFilters(s, table, items, true);
      r.rows == Merge(paged.0, items, 0, s.pageSize) && r.totalLength == |paged.0|
  {
    var c := s.(searchTerm := "", filterType := AllTypes, selectedDate := None);
    assert IsBlank(c.searchTerm);
    assert ClearFilters(s, table, items, true) == ApplyFilter(c, table, items, true);
  }

  /** The unfiltered first page is the head of the table. */
  lemma FirstPageUnfiltered(table: seq<Transaction>, pageSize: nat)
    ensures var paged := GetTransactionListPaged(table, 0, pageSize, BuildFilter(AllTypes, None), true);
      |paged.0| == Min(pageSize, |table|) && paged.1 == |table|
      && forall i :: 0 <= i < |paged.0| ==> paged.0[i] == table[i]
  {
    NoFilterMatchesAll(table);
    FirstSlice(table, pageSize);
    var paged := GetTransactionListPaged(table, 0, pageSize, BuildFilter(AllTypes, None), true);
    assert paged.0 == table[..Min(pageSize, |table|)];
  }

  /** The label's parts: nothing to show, or `start - end of total`. */
  datatype DisplayRange = NoRows | Showing(start: nat, end: nat, total: nat)

  /** `getDisplayRange`, before formatting. */
  function DisplayRangeOf(pageIndex: nat, pageSize: nat, totalLength: nat): (d: DisplayRange)
    ensures d.NoRows? <==> totalLength == 0
    ensures d.Showing? ==> d.start == pageIndex * pageSize + 1 && d.total == totalLength
    ensures d.Showing? ==> d.end <= totalLength && d.end <= (pageIndex + 1) * pageSize
    ensures d.Showing? ==> d.end == totalLength || d.end == (pageIndex + 1) * pageSize
  {
    if totalLength == 0 then NoRows
    else Showing(pageIndex * pageSize + 1, Min((pageIndex + 1) * pageSize, totalLength), totalLength)
  }

  /** The label text. */
  function Render(d: DisplayRange): string {
    match d
    case NoRows => "0 of 0"
    case Showing(a, b, n) => NatToString(a) + " - " + NatToString(b) + " of " + NatToString(n)
  }

  /** The text `0 of 0` appears exactly when there is nothing to show. */
  lemma RenderEmptyIff(d: DisplayRange)
    ensures Render(d) == "0 of 0" <==> d.NoRows?
  {
    if d.Showing? {
      var a := NatToString(d.start);
      var r := Render(d);
      if |a| == 1 {
        assert r[2] == '-';
      } else {
        assert r[1] == a[1];
        assert IsDigit(a[1]);
      }
      assert r != "0 of 0";
    }
  }

  /** With the corrected total and no search, a non-empty page's label
      names exactly the rows shown: `end - start + 1` of them, out of every
      matching transaction. */
  lemma CorrectedRangeCountsRows(s: TxListState, event: Option<PageEvent>, table: seq<Transaction>, items: seq<InventoryItem>)
    requires IsBlank(s.searchTerm)
    ensures var r := LoadTransactions(s, event, table, items, true);
      var d := DisplayRangeOf(r.pageIndex, r.pageSize, r.totalLength);
      |r.rows| > 0 ==>
        d.Showing? && d.end - d.start + 1 == |r.rows|
        && d.total == Count(table, MatchesFilter(BuildFilter(s.filterType, s.selectedDate)))
  {
    var r := LoadTransactions(s, event, table, items, true);
    var f := BuildFilter(s.filterType, s.selectedDate);
    var matching := Filter(table, MatchesFilter(f));
    var range := PageRange(r.pageIndex, r.pageSize);
    var paged := GetTransactionListPaged(table, r.pageIndex, r.pageSize, f, true);
    assert paged.0 == Slice(matching, range.0, range.1);
    assert |r.rows| == |paged.0|;
    assert r.totalLength == |matching|;
    if |r.rows| > 0 {
      RangeMatchesPage(matching, r.pageIndex, r.pageSize);
    }
  }

  /** On a page that starts inside the rows, the label's end minus its
      start covers exactly the rows the page returns. */
  lemma RangeMatchesPage<T>(rows: seq<T>, pageIndex: nat, pageSize: nat)
    requires |Slice(rows, PageRange(pageIndex, pageSize).0, PageRange(pageIndex, pageSize).1)| > 0
    ensures pageIndex * pageSize < |rows|
    ensures Min((pageIndex + 1) * pageSize, |rows|) - pageIndex * pageSize
         == |Slice(rows, PageRange(pageIndex, pageSize).0, PageRange(pageIndex, pageSize).1)|
  {
    PageLength(rows, pageIndex, pageSize);
    assert (pageIndex + 1) * pageSize == pageIndex * pageSize + pageSize;
  }

  /** As written, 25 matching transactions and pages of 10 show
      `1 - 10 of 10`: the total is the page's row count, so the label (and
      a paginator sized by it) never reaches the other 15. */
  lemma TotalIsPageSizeAsWritten(table: seq<Transaction>, items: seq<InventoryItem>)
    requires |table| == 25
    ensures var s := LoadTransactionsAsWritten(InitialState(), None, table, items, true);
      DisplayRangeOf(s.pageIndex, s.pageSize, s.totalLength) == Showing(1, 10, 10)
    ensures var s := LoadTransactions(InitialState(), None, table, items, true);
      DisplayRangeOf(s.pageIndex, s.pageSize, s.totalLength) == Showing(1, 10, 25)
  {
    NoFilterMatchesAll(table);
    PageLength(table, 0, 10);
  }
}
