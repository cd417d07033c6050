/** `InventoryService.getInventoryStats`
    (features/inventory/services/inventory.service.ts): counts and value of
    the inventory list. A failed listing yields no items, hence all zeros. */
module InventoryService {
  import opened Common
  import opened InventoryModel

  datatype InventoryStats = InventoryStats(
    totalItems: nat,
    lowStockItems: nat,
    outOfStockItems: nat,
    totalValue: int,
    activeItems: nat,
    inactiveItems: nat)

  /** Low stock as the statistics count it: some units left, but no more
      than the minimum. */
  predicate IsLowStock(i: InventoryItem) {
    i.quantity <= i.minQuantity && i.quantity > 0
  }

  predicate IsOutOfStock(i: InventoryItem) {
    i.quantity == 0
  }

  function HasStatus(s: ItemStatus): InventoryItem -> bool {
    (i: InventoryItem) => i.status == s
  }

  /** Every item has exactly one of the three statuses. */
  lemma {:induction false} StatusPartition(items: seq<InventoryItem>)
    ensures Count(items, HasStatus(Active)) + Count(items, HasStatus(Inactive))
            + Count(items, HasStatus(Discontinued)) == |items|
  {
    if |items| > 0 {
      StatusPartition(items[1..]);
    }
  }

  /** `getInventoryStats`: low and out-of-stock items are disjoint classes,
      and discontinued items are counted as neither active nor inactive. */
  function GetInventoryStats(items: seq<InventoryItem>): (s: InventoryStats)
    ensures s.totalItems == |items|
    ensures s.lowStockItems == Count(items, IsLowStock)
    ensures s.outOfStockItems == Count(items, IsOutOfStock)
    ensures s.lowStockItems + s.outOfStockItems <= s.totalItems
    ensures s.totalValue == SumOf(items, StockValue)
    ensures s.activeItems + s.inactiveItems + Count(items, HasStatus(Discontinued)) == s.totalItems
  {
    CountDisjoint(items, IsLowStock, IsOutOfStock);
    StatusPartition(items);
    InventoryStats(
      |items|,
      Count(items, IsLowStock),
      Count(items, IsOutOfStock),
      SumOf(items, StockValue),
      Count(items, HasStatus(Active)),
      Count(items, HasStatus(Inactive)))
  }

  /** Statistics are additive over a split of the item list. */
  lemma StatsAppend(a: seq<InventoryItem>, b: seq<InventoryItem>)
    ensures var s := GetInventoryStats(a + b);
      var sa := GetInventoryStats(a);
      var sb := GetInventoryStats(b);
      s.lowStockItems == sa.lowStockItems + sb.lowStockItems
      && s.outOfStockItems == sa.outOfStockItems + sb.outOfStockItems
      && s.totalValue == sa.totalValue + sb.totalValue
      && s.activeItems == sa.activeItems + sb.activeItems
      && s.inactiveItems == sa.inactiveItems + sb.inactiveItems
  {
    CountAppend(a, b, IsLowStock);
    CountAppend(a, b, IsOutOfStock);
    SumOfAppend(a, b, StockValue);
    CountAppend(a, b, HasStatus(Active));
    CountAppend(a, b, HasStatus(Inactive));
  }

  /** Within the form bounds the stock value is never negative. */
  lemma StatsValueNonNegative(items: seq<InventoryItem>)
    requires forall i :: 0 <= i < |items| ==> WithinFormBounds(items[i])
    ensures GetInventoryStats(items).totalValue >= 0
  {
    SumOfNonNegative(items, StockValue);
  }
}
