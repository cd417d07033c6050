/** The dashboard figures (features/dashboard/components/dashboard/dashboard.component.ts),
    as a function of the inventory list, the transaction table (newest
    first) and today's UTC date. */
module Dashboard {
  import opened Common
  import opened Time
  import opened Paging
  import opened InventoryModel
  import opened TransactionModel
  import opened InventoryService
  import opened InoutService

  /** The dashboard reads the first page of 100 transactions. */
  const RecentWindow: nat := 100

  /** At most this many low-stock items are previewed. */
  const PreviewSize: nat := 5

  datatype DashboardStats = DashboardStats(
    totalItems: nat,
    lowStockItems: nat,
    totalInwards: int,
    totalOutwards: int,
    totalValue: int,
    pendingIndents: nat,
    pendingGatePass: nat,
    todayTransactions: int)

  datatype DashboardView = DashboardView(stats: DashboardStats, lowStockPreview: seq<InventoryItem>)

  /** Low stock as the dashboard counts it: no more than the minimum, so
      out-of-stock items are included. */
  predicate AtOrBelowMinimum(i: InventoryItem) {
    i.quantity <= i.minQuantity
  }

  /** `quantity * unit_price` of a transaction, an absent price counting as 0. */
  function TxValue(t: Transaction): int {
    t.quantity * t.unitPrice.GetOr(0)
  }

  /** The date part of `created_at` equals today. */
  function CreatedOn(today: Date): Transaction -> bool {
    (t: Transaction) => t.createdAt.Some? && t.createdAt.value.date == today
  }

  /** The three running totals of the loop over the recent transactions. */
  datatype TxTotals = TxTotals(inward: int, outward: int, today: int)

  function TotalsSpec(rows: seq<Transaction>, today: Date): TxTotals {
    TxTotals(
      SumOf(Filter(rows, OfType(Inward)), TxValue),
      SumOf(Filter(rows, OfType(Outward)), TxValue),
      SumOf(Filter(rows, CreatedOn(today)), TxValue))
  }

  /** The totals after one more row: its value goes to the inward or
      outward total by type, and to today's total by date. */
  function AddRow(s: TxTotals, t: Transaction, today: Date): TxTotals {
    TxTotals(
      s.inward + (if t.txType == Inward then TxValue(t) else 0),
      s.outward + (if t.txType == Outward then TxValue(t) else 0),
      s.today + (if CreatedOn(today)(t) then TxValue(t) else 0))
  }

  /** One step of the loop: the totals of the rows so far plus one row are
      the running totals with that row added. */
  lemma TotalsStep(rows: seq<Transaction>, t: Transaction, today: Date)
    ensures TotalsSpec(rows + [t], today) == AddRow(TotalsSpec(rows, today), t, today)
  {
    SumOfFilterSnoc(rows, t, OfType(Inward), TxValue);
    SumOfFilterSnoc(rows, t, OfType(Outward), TxValue);
    SumOfFilterSnoc(rows, t, CreatedOn(today), TxValue);
  }

  /** The running totals after the rows, one row at a time. */
  function RunningTotals(rows: seq<Transaction>, today: Date): TxTotals
    decreases |rows|
  {
    if |rows| == 0 then TxTotals(0, 0, 0)
    else AddRow(RunningTotals(rows[..|rows| - 1], today), rows[|rows| - 1], today)
  }

  /** Adding the rows one at a time gives the three filtered sums. */
  lemma {:induction false} RunningTotalsAreSums(rows: seq<Transaction>, today: Date)
    ensures RunningTotals(rows, today) == TotalsSpec(rows, today)
    decreases |rows|
  {
    if |rows| > 0 {
      var init, last := rows[..|rows| - 1], rows[|rows| - 1];
      assert init + [last] == rows;
      RunningTotalsAreSums(init, today);
      TotalsStep(init, last, today);
      calc {
        RunningTotals(rows, today);
        AddRow(RunningTotals(init, today), last, today);
        AddRow(TotalsSpec(init, today), last, today);
        TotalsSpec(init + [last], today);
      }
    }
  }

  /** The `for` loop over the recent transactions. */
  method AccumulateTotals(rows: seq<Transaction>, today: Date) returns (totals: TxTotals)
    ensures totals == TotalsSpec(rows, today)
  {
    var inward := 0;
    var outward := 0;
    var todayValue := 0;
    var i := 0;
    while i < |rows|
      invariant i <= |rows|
      invariant TxTotals(inward, outward, todayValue) == RunningTotals(rows[..i], today)
    {
      var t := rows[i];
      assert rows[..i + 1][..i] == rows[..i];
      var value := TxValue(t);
      if t.txType == Inward {
        inward := inward + value;
      }
      if t.txType == Outward {
        outward := outward + value;
      }
      if CreatedOn(today)(t) {
        todayValue := todayValue + value;
      }
      i := i + 1;
    }
    assert rows[..i] == rows;
    RunningTotalsAreSums(rows, today);
    totals := TxTotals(inward, outward, todayValue);
  }

  /** The transactions the dashboard reads: the first page of 100,
      unfiltered, which is the newest 100 rows of the table. */
  function RecentTransactions(table: seq<Transaction>, ok: bool): (r: seq<Transaction>)
    ensures !ok ==> r == []
    ensures ok ==> r == table[..Min(RecentWindow, |table|)]
  {
    var f := TxFilter(None, None, None);
    assert forall t :: Matches(f, t);
    FilterAll(table, MatchesFilter(f));
    FirstSlice(table, RecentWindow);
    GetTransactionListPaged(table, 0, RecentWindow, f, ok).0
  }

  /** The three transaction totals of the dashboard: the sums over the
      newest 100 rows, or all zero when the query fails. */
  function RecentTotals(table: seq<Transaction>, today: Date, ok: bool): (t: TxTotals)
    ensures !ok ==> t == TxTotals(0, 0, 0)
    ensures ok ==> t == TotalsSpec(table[..Min(RecentWindow, |table|)], today)
  {
    TotalsSpec(RecentTransactions(table, ok), today)
  }

  /** The low-stock preview: the first `PreviewSize` items at or below
      their minimum, in list order. */
  function LowStockPreview(items: seq<InventoryItem>): (p: seq<InventoryItem>)
    ensures |p| == Min(PreviewSize, Count(items, AtOrBelowMinimum))
    ensures forall i :: 0 <= i < |p| ==> p[i] == Filter(items, AtOrBelowMinimum)[i]
  {
    var low := Filter(items, AtOrBelowMinimum);
    low[..Min(PreviewSize, |low|)]
  }

  /** `loadDashboardData`. `ok` is false when the transaction query fails,
      which leaves the transaction totals at 0. */
  function LoadDashboardData(items: seq<InventoryItem>, table: seq<Transaction>, today: Date, ok: bool): (v: DashboardView)
    ensures v.stats.totalItems == |items|
    ensures v.stats.lowStockItems == Count(items, AtOrBelowMinimum)
    ensures |v.lowStockPreview| == Min(PreviewSize, v.stats.lowStockItems)
    ensures forall i :: 0 <= i < |v.lowStockPreview| ==> v.lowStockPreview[i] == Filter(items, AtOrBelowMinimum)[i]
    ensures v.stats.pendingIndents == 0 && v.stats.pendingGatePass == 0
    ensures v.stats.totalValue == GetInventoryStats(items).totalValue
    ensures !ok ==> v.stats.totalInwards == 0 && v.stats.totalOutwards == 0 && v.stats.todayTransactions == 0
    ensures ok ==> var spec := TotalsSpec(table[..Min(RecentWindow, |table|)], today);
      v.stats.totalInwards == spec.inward && v.stats.totalOutwards == spec.outward
      && v.stats.todayTransactions == spec.today
  {
    var totals := RecentTotals(table, today, ok);
    DashboardView(
      DashboardStats(
        |items|,
        Count(items, AtOrBelowMinimum),
        totals.inward,
        totals.outward,
        SumOf(items, StockValue),
        0,
        0,
        totals.today),
      LowStockPreview(items))
  }

  /** Within the form bounds, the dashboard's low-stock figure is the sum of
      the statistics' low-stock and out-of-stock counts. */
  lemma {:induction false} LowStockIsLowPlusOut(items: seq<InventoryItem>)
    requires forall i :: 0 <= i < |items| ==> WithinFormBounds(items[i])
    ensures Count(items, AtOrBelowMinimum)
            == GetInventoryStats(items).lowStockItems + GetInventoryStats(items).outOfStockItems
  {
    if |items| > 0 {
      LowStockIsLowPlusOut(items[1..]);
    }
  }

  /** Only the 100 newest transactions count: older rows never change the
      transaction totals. */
  lemma OlderRowsIgnored(table: seq<Transaction>, older: seq<Transaction>, items: seq<InventoryItem>, today: Date)
    requires |table| >= RecentWindow
    ensures var v := LoadDashboardData(items, table + older, today, true);
      var w := LoadDashboardData(items, table, today, true);
      v.stats.totalInwards == w.stats.totalInwards
      && v.stats.totalOutwards == w.stats.totalOutwards
      && v.stats.todayTransactions == w.stats.todayTransactions
  {
    var f := TxFilter(None, None, None);
    assert forall t :: Matches(f, t);
    FilterAll(table + older, MatchesFilter(f));
    FilterAll(table, MatchesFilter(f));
    assert RecentTransactions(table + older, true) == table[..RecentWindow];
    assert RecentTransactions(table, true) == table[..RecentWindow];
  }
}
