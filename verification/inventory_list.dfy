/** The per-item stock badge of the inventory list
    (features/inventory/components/inventory-list/inventory-list.component.ts). */
module InventoryList {
  import opened Common
  import opened InventoryModel
  import opened InventoryService

  /** `getStockStatus`: every item gets exactly one of three labels. */
  function GetStockStatus(item: InventoryItem): (r: string)
    ensures r == "Out of Stock" || r == "Low Stock" || r == "In Stock"
    ensures r == "Out of Stock" <==> item.quantity == 0
    ensures r == "Low Stock" <==> item.quantity != 0 && item.quantity <= item.minQuantity
    ensures r == "In Stock" <==> item.quantity != 0 && item.quantity > item.minQuantity
  {
    if item.quantity == 0 then "Out of Stock"
    else if item.quantity <= item.minQuantity then "Low Stock"
    else "In Stock"
  }

  /** `getStockStatusClass`: red, yellow and green badges follow the label. */
  function GetStockStatusClass(item: InventoryItem): (r: string)
    ensures r == "bg-red-100 text-red-800 border-red-500" <==> GetStockStatus(item) == "Out of Stock"
    ensures r == "bg-yellow-100 text-yellow-800 border-yellow-500" <==> GetStockStatus(item) == "Low Stock"
    ensures r == "bg-green-100 text-green-800 border-green-500" <==> GetStockStatus(item) == "In Stock"
  {
    if item.quantity == 0 then "bg-red-100 text-red-800 border-red-500"
    else if item.quantity <= item.minQuantity then "bg-yellow-100 text-yellow-800 border-yellow-500"
    else "bg-green-100 text-green-800 border-green-500"
  }

  /** For a non-negative quantity the badge agrees with the statistics'
      classification. A negative quantity shows "Low Stock" but is counted
      in neither class. */
  lemma StatusAgreesWithStats(item: InventoryItem)
    ensures item.quantity >= 0 ==> (GetStockStatus(item) == "Low Stock" <==> IsLowStock(item))
    ensures GetStockStatus(item) == "Out of Stock" <==> IsOutOfStock(item)
    ensures item.quantity < 0 ==> GetStockStatus(item) == "Low Stock" || GetStockStatus(item) == "In Stock"
    ensures item.quantity < 0 ==> !IsLowStock(item) && !IsOutOfStock(item)
  {
  }

  function ShowsLabel(badge: string): InventoryItem -> bool {
    (i: InventoryItem) => GetStockStatus(i) == badge
  }

  /** Counting the badges of a list gives the statistics' low and
      out-of-stock counts. */
  lemma BadgeCountsMatchStats(items: seq<InventoryItem>)
    requires forall i :: 0 <= i < |items| ==> items[i].quantity >= 0
    ensures Count(items, ShowsLabel("Low Stock")) == GetInventoryStats(items).lowStockItems
    ensures Count(items, ShowsLabel("Out of Stock")) == GetInventoryStats(items).outOfStockItems
  {
    forall i | 0 <= i < |items| {
      StatusAgreesWithStats(items[i]);
    }
    CountSame(items, ShowsLabel("Low Stock"), IsLowStock);
    CountSame(items, ShowsLabel("Out of Stock"), IsOutOfStock);
  }
}
