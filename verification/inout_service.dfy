/** The stock rules of `InoutService`
    (features/inwards-outwards/services/inout.service.ts): the stock update
    a transaction causes, the transaction summary, and the paged listing.
    Database reads are inputs and writes are returned values. */
module InoutService {
  import opened Common
  import opened Text
  import opened Time
  import opened Paging
  import opened InventoryModel
  import opened TransactionModel

  function Max0(x: int): int {
    if x < 0 then 0 else x
  }

  /** The stock level written back for a transaction of type `t` and
      quantity `quantity` on a row currently holding `current`. */
  function NewQuantity(t: TxType, current: int, quantity: int): (n: int)
    ensures n >= 0
    ensures t == Inward ==> n == Max0(current + quantity)
    ensures t == Outward ==> n == Max0(current - quantity)
    ensures (t == Adjustment || t == Transfer) ==> n == Max0(current)
  {
    var moved :=
      if t == Inward then current + quantity
      else if t == Outward then current - quantity
      else current;
    if moved < 0 then 0 else moved
  }

  /** An outward of no more than the stock on hand removes exactly that
      amount; a larger one empties the row and is silently clamped. */
  lemma OutwardClamp(current: int, quantity: int)
    requires current >= 0 && quantity >= 0
    ensures NewQuantity(Outward, current, quantity) == current - quantity <==> quantity <= current
    ensures quantity > current ==> NewQuantity(Outward, current, quantity) == 0
  {
  }

  /** Moving `quantity` in and then out again restores the stock. */
  lemma InwardThenOutward(current: int, quantity: int)
    requires current >= 0 && quantity >= 0
    ensures NewQuantity(Outward, NewQuantity(Inward, current, quantity), quantity) == current
  {
  }

  /** Adjustments and transfers leave a non-negative stock as it is. */
  lemma NeutralTypesKeepStock(t: TxType, current: int, quantity: int)
    requires t == Adjustment || t == Transfer
    requires current >= 0
    ensures NewQuantity(t, current, quantity) == current
  {
  }

  /** Rows whose id is `id`. */
  function HasId(id: string): InventoryItem -> bool {
    (i: InventoryItem) => i.id == id
  }

  /** `items.find(x => x.id === id)`: the first item carrying the id, and
      nothing when the id is absent. */
  function FindItem(items: seq<InventoryItem>, id: Option<string>): (r: Option<InventoryItem>)
    ensures r.Some? <==> id.Some? && exists i :: 0 <= i < |items| && items[i].id == id.value
    ensures r.Some? ==> r.value in items && r.value.id == id.value
    ensures r.Some? ==> exists k :: 0 <= k < |items| && items[k] == r.value
                                  && forall j :: 0 <= j < k ==> items[j].id != id.value
  {
    if id.Some? then FindFirst(items, HasId(id.value)) else None
  }

  /** `syncInventoryStock`. Nothing happens when the transaction has no item
      id or a zero quantity, when the lookup by id does not return exactly
      one row (`.single()` fails), or when the fetch or the update query
      fails (`syncOk` is false): each error is thrown and swallowed.
      Otherwise every row with that id gets the new stock level, and no
      other field or row changes. */
  function SyncInventoryStock(tx: Transaction, items: seq<InventoryItem>, syncOk: bool): (r: seq<InventoryItem>)
    ensures |r| == |items|
    ensures !Truthy(tx.itemId) || tx.quantity == 0 || !syncOk ==> r == items
    ensures forall i :: 0 <= i < |items| ==> r[i] == items[i].(quantity := r[i].quantity)
    ensures forall i :: 0 <= i < |items| && (tx.itemId.None? || items[i].id != tx.itemId.value) ==> r[i] == items[i]
    ensures Truthy(tx.itemId) && tx.quantity != 0 && syncOk && Count(items, HasId(tx.itemId.value)) == 1 ==>
      forall i :: 0 <= i < |items| && items[i].id == tx.itemId.value ==>
        r[i].quantity == NewQuantity(tx.txType, items[i].quantity, tx.quantity)
    ensures Truthy(tx.itemId) && Count(items, HasId(tx.itemId.value)) != 1 ==> r == items
  {
    if !Truthy(tx.itemId) || tx.quantity == 0 then items
    else
      var id := tx.itemId.value;
      var found := FindFirst(items, HasId(id));
      if !syncOk || Count(items, HasId(id)) != 1 || found.None? then items
      else
        CountOneFirst(items, HasId(id));
        var n := NewQuantity(tx.txType, found.value.quantity, tx.quantity);
        MapWhere(items, HasId(id), (i: InventoryItem) => i.(quantity := n))
  }

  /** With unique ids, the row at `k` is the only one with its id. */
  lemma UniqueIdCount(items: seq<InventoryItem>, k: nat)
    requires UniqueIds(items) && k < |items|
    ensures Count(items, HasId(items[k].id)) == 1
    ensures FindFirst(items, HasId(items[k].id)) == Some(items[k])
  {
    var p := HasId(items[k].id);
    assert items == items[..k] + [items[k]] + items[k + 1..];
    CountAppend(items[..k] + [items[k]], items[k + 1..], p);
    CountAppend(items[..k], [items[k]], p);
    CountZero(items[..k], p);
    CountZero(items[k + 1..], p);
    assert forall j :: 0 <= j < k ==> !p(items[j]);
  }

  /** A synced transaction on a known item changes the total stock by the
      signed quantity, unless an outward had to be clamped. */
  lemma SyncTotalQuantity(tx: Transaction, items: seq<InventoryItem>, k: nat)
    requires UniqueIds(items) && k < |items|
    requires tx.itemId == Some(items[k].id) && items[k].id != ""
    requires tx.quantity != 0
    ensures var r := SyncInventoryStock(tx, items, true);
      TotalQuantity(r)
        == TotalQuantity(items) - items[k].quantity
           + NewQuantity(tx.txType, items[k].quantity, tx.quantity)
  {
    UniqueIdCount(items, k);
    var r := SyncInventoryStock(tx, items, true);
    var v := items[k].(quantity := NewQuantity(tx.txType, items[k].quantity, tx.quantity));
    assert r == items[k := v];
    SumOfUpdate(items, k, v, Quantity);
  }

  /** The summary the dashboard of transactions shows. */
  datatype TransactionSummary = TransactionSummary(
    totalInward: int,
    totalOutward: int,
    totalAdjustments: nat,
    totalTransfers: nat,
    period: string)

  function TxQuantity(t: Transaction): int {
    t.quantity
  }

  function OfType(k: TxType): Transaction -> bool {
    (t: Transaction) => t.txType == k
  }

  /** `"from - to"` when both dates are given, otherwise `"All Time"`. */
  function Period(dateFrom: Option<string>, dateTo: Option<string>): string {
    if Truthy(dateFrom) && Truthy(dateTo) then dateFrom.value + " - " + dateTo.value
    else "All Time"
  }

  /** The label is "All Time" exactly when a bound is missing, and otherwise
      shows both bounds, which can be read back from it. */
  lemma PeriodLabel(dateFrom: Option<string>, dateTo: Option<string>)
    ensures Period(dateFrom, dateTo) == "All Time" <==> !(Truthy(dateFrom) && Truthy(dateTo))
    ensures Truthy(dateFrom) && Truthy(dateTo) ==>
      StartsWith(Period(dateFrom, dateTo), dateFrom.value)
      && Period(dateFrom, dateTo)[|dateFrom.value|..] == " - " + dateTo.value
  {
    if Truthy(dateFrom) && Truthy(dateTo) {
      var p := Period(dateFrom, dateTo);
      assert p[|dateFrom.value| + 1] == '-';
      assert p[..|dateFrom.value|] == dateFrom.value;
      assert forall j :: 0 <= j < |"All Time"| ==> "All Time"[j] != '-';
    }
  }

  /** `getTransactionSummary` over the rows the date-bounded listing
      returned (a failed listing returns no rows). */
  function GetTransactionSummary(rows: seq<Transaction>, dateFrom: Option<string>, dateTo: Option<string>): (s: TransactionSummary)
    ensures s.totalInward == SumOf(Filter(rows, OfType(Inward)), TxQuantity)
    ensures s.totalOutward == SumOf(Filter(rows, OfType(Outward)), TxQuantity)
    ensures s.totalAdjustments == Count(rows, OfType(Adjustment))
    ensures s.totalTransfers == Count(rows, OfType(Transfer))
    ensures s.period == Period(dateFrom, dateTo)
  {
    TransactionSummary(
      SumOf(Filter(rows, OfType(Inward)), TxQuantity),
      SumOf(Filter(rows, OfType(Outward)), TxQuantity),
      Count(rows, OfType(Adjustment)),
      Count(rows, OfType(Transfer)),
      Period(dateFrom, dateTo))
  }

  /** Summaries are additive: the summary of two batches of rows is the sum
      of their summaries. */
  lemma SummaryAppend(a: seq<Transaction>, b: seq<Transaction>, dateFrom: Option<string>, dateTo: Option<string>)
    ensures var s := GetTransactionSummary(a + b, dateFrom, dateTo);
      var sa := GetTransactionSummary(a, dateFrom, dateTo);
      var sb := GetTransactionSummary(b, dateFrom, dateTo);
      s.totalInward == sa.totalInward + sb.totalInward
      && s.totalOutward == sa.totalOutward + sb.totalOutward
      && s.totalAdjustments == sa.totalAdjustments + sb.totalAdjustments
      && s.totalTransfers == sa.totalTransfers + sb.totalTransfers
  {
    FilterAppend(a, b, OfType(Inward));
    SumOfAppend(Filter(a, OfType(Inward)), Filter(b, OfType(Inward)), TxQuantity);
    FilterAppend(a, b, OfType(Outward));
    SumOfAppend(Filter(a, OfType(Outward)), Filter(b, OfType(Outward)), TxQuantity);
    CountAppend(a, b, OfType(Adjustment));
    CountAppend(a, b, OfType(Transfer));
  }

  /** Adjustments and transfers are counted, never summed: adding one
      leaves both quantity totals alone and raises its own count by one. */
  lemma {:induction false} SummaryNeutralRow(rows: seq<Transaction>, t: Transaction, dateFrom: Option<string>, dateTo: Option<string>)
    requires t.txType == Adjustment || t.txType == Transfer
    ensures var s := GetTransactionSummary(rows + [t], dateFrom, dateTo);
      var s0 := GetTransactionSummary(rows, dateFrom, dateTo);
      s.totalInward == s0.totalInward && s.totalOutward == s0.totalOutward
      && s.totalAdjustments + s.totalTransfers == s0.totalAdjustments + s0.totalTransfers + 1
  {
    SummaryAppend(rows, [t], dateFrom, dateTo);
    assert [t][1..] == [];
  }

  /** The filter of the paged listing; an absent field applies no condition. */
  datatype TxFilter = TxFilter(
    transactionType: Option<TxType>,
    selectedDate: Option<Date>,
    itemName: Option<string>)

  /** `23:59:59` as milliseconds after midnight. */
  const EndOfDayMs: nat := 86_399_000

  /** The `gte 'dayT00:00:00'` / `lte 'dayT23:59:59'` window: the instant is
      on `day`, no later than 23:59:59.000. */
  predicate InDayWindow(t: DateTime, day: Date) {
    t.date == day && t.ms <= EndOfDayMs
  }

  /** The `or(party_name.ilike, invoice_number.ilike, notes.ilike)` search. */
  predicate SearchHit(t: Transaction, term: string) {
    ContainsIgnoreCase(t.partyName, term)
    || ContainsIgnoreCase(t.invoiceNumber, term)
    || ContainsIgnoreCase(t.notes, term)
  }

  /** Whether a row passes every condition of the filter. */
  predicate Matches(f: TxFilter, t: Transaction) {
    (f.transactionType.None? || t.txType == f.transactionType.value)
    && (f.selectedDate.None? || (t.createdAt.Some? && InDayWindow(t.createdAt.value, f.selectedDate.value)))
    && (!Truthy(f.itemName) || Trim(f.itemName.value) == "" || SearchHit(t, f.itemName.value))
  }

  function MatchesFilter(f: TxFilter): Transaction -> bool {
    (t: Transaction) => Matches(f, t)
  }

  /** `getTransactionListPaged` over the table in `created_at`-descending
      order. `ok` is false when the query fails, which yields no rows and
      a zero total. The total counts every matching row, not just the page. */
  function GetTransactionListPaged(rows: seq<Transaction>, pageIndex: nat, pageSize: nat, f: TxFilter, ok: bool)
    : (r: (seq<Transaction>, nat))
    ensures !ok ==> r == ([], 0)
    ensures ok ==> r.1 == Count(rows, MatchesFilter(f))
    ensures |r.0| <= pageSize
    ensures forall i :: 0 <= i < |r.0| ==> Matches(f, r.0[i]) && r.0[i] in rows
    ensures ok && |r.0| > 0 ==> pageIndex * pageSize + |r.0| <= r.1
    ensures ok ==> var matching, from := Filter(rows, MatchesFilter(f)), Min(pageIndex * pageSize, r.1);
      from + |r.0| <= |matching| && r.0 == matching[from..from + |r.0|]
    ensures ok ==> |r.0| == if pageIndex * pageSize >= r.1 then 0 else Min(pageSize, r.1 - pageIndex * pageSize)
  {
    if !ok then ([], 0)
    else
      var matching := Filter(rows, MatchesFilter(f));
      var range := PageRange(pageIndex, pageSize);
      var page := Slice(matching, range.0, range.1);
      assert |matching| == Count(rows, MatchesFilter(f));
      assert range.0 == pageIndex * pageSize;
      assert range.1 == range.0 + pageSize - 1;
      SliceLength(matching, range.0, pageSize);
      assert |page| > 0 ==> range.0 + (|page| - 1) < |matching|;
      (page, |matching|)
  }

  /** Reading pages `0 .. k-1` returns the first `k * pageSize` matching
      rows, each once and in order. */
  function ReadPages(rows: seq<Transaction>, pageSize: nat, f: TxFilter, k: nat): seq<Transaction> {
    if k == 0 then []
    else ReadPages(rows, pageSize, f, k - 1) + GetTransactionListPaged(rows, k - 1, pageSize, f, true).0
  }

  lemma {:induction false} ReadPagesAreFilter(rows: seq<Transaction>, pageSize: nat, f: TxFilter, k: nat)
    ensures var matching := Filter(rows, MatchesFilter(f));
      ReadPages(rows, pageSize, f, k) == matching[..Min(k * pageSize, |matching|)]
  {
    var matching := Filter(rows, MatchesFilter(f));
    ReadPagesIsPages(rows, pageSize, f, k);
    PagesTile(matching, pageSize, k);
  }

  lemma {:induction false} ReadPagesIsPages(rows: seq<Transaction>, pageSize: nat, f: TxFilter, k: nat)
    ensures ReadPages(rows, pageSize, f, k) == Pages(Filter(rows, MatchesFilter(f)), pageSize, k)
  {
    if k > 0 {
      ReadPagesIsPages(rows, pageSize, f, k - 1);
      var r := PageRange(k - 1, pageSize);
      assert GetTransactionListPaged(rows, k - 1, pageSize, f, true).0
          == Slice(Filter(rows, MatchesFilter(f)), r.0, r.1);
    }
  }
}
