/** Inventory items (core/models/inventory.model.ts). Money is in minor
    units, so every quantity and price is an integer. */
module InventoryModel {
  import opened Common

  datatype ItemStatus = Active | Inactive | Discontinued

  datatype InventoryItem = InventoryItem(
    id: string,
    itemCode: string,
    itemName: string,
    category: string,
    unit: string,
    quantity: int,
    minQuantity: int,
    unitPrice: int,
    status: ItemStatus)

  /** The bounds the item form enforces: quantity, minimum quantity and
      unit price are all at least 0. */
  predicate WithinFormBounds(i: InventoryItem) {
    i.quantity >= 0 && i.minQuantity >= 0 && i.unitPrice >= 0
  }

  /** Row ids are unique, as the table's primary key guarantees. */
  predicate UniqueIds(items: seq<InventoryItem>) {
    forall i, j :: 0 <= i < j < |items| ==> items[i].id != items[j].id
  }

  function Quantity(i: InventoryItem): int {
    i.quantity
  }

  /** Total units on hand. */
  function TotalQuantity(items: seq<InventoryItem>): int {
    SumOf(items, Quantity)
  }

  /** `quantity * unit_price`, the value of the stock held in one row. */
  function StockValue(i: InventoryItem): int {
    i.quantity * i.unitPrice
  }
}
