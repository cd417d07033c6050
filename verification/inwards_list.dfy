/** The inward entry form
    (features/inwards-outwards/components/inwards-list/inwards-list.component.ts):
    the inward transaction it records and the new-item toggle. `Date.now()`
    is `nowMs`, `new Date()` is `now`. */
module InwardsList {
  import opened Common
  import opened Text
  import opened Time
  import opened UserModel
  import opened InventoryModel
  import opened TransactionModel
  import opened InoutService
  import opened StockEntry

  const InwardPrefix: string := "IN-"

  /** The inward validators: the item is optional. */
  predicate InwardFormValid(f: EntryForm) {
    EntryFieldsValid(f)
  }

  /** The inward transaction built from a valid form: an empty item id is
      stored as null, and so is an empty user id. */
  function InwardTransaction(f: EntryForm, user: Option<User>, nowMs: nat, now: DateTime): (tx: Transaction)
    ensures tx.txType == Inward && tx.referenceType == Some(ManualRef)
    ensures tx.fromLocation.None? && tx.toLocation == Warehouse
    ensures tx.itemId == (if Truthy(f.itemId) then f.itemId else None)
    ensures tx.quantity == f.quantity.GetOr(0) && tx.unitPrice == f.unitPrice
    ensures tx.totalAmount == Some(EntryTotal(f))
    ensures tx.partyName == f.partyName && tx.invoiceNumber == f.invoiceNumber && tx.notes == f.notes
    ensures tx.createdBy.Some? <==> user.Some? && user.value.id != ""
    ensures tx.createdBy.Some? ==> tx.createdBy.value == user.value.id
    ensures tx.createdAt == Some(now)
    ensures StartsWith(tx.number, InwardPrefix) && AllDigits(tx.number[|InwardPrefix|..])
  {
    Transaction(
      InwardPrefix + NatToString(nowMs),
      Inward,
      if Truthy(f.itemId) then f.itemId else None,
      f.quantity.GetOr(0),
      f.unitPrice,
      Some(EntryTotal(f)),
      Some(ManualRef),
      None,
      Warehouse,
      f.partyName,
      f.invoiceNumber,
      f.notes,
      if user.Some? then OrNull(user.value.id) else None,
      Some(now))
  }

  /** `saveInwardEntry`. There is no stock check. */
  function SaveInwardEntry(ledger: Ledger, f: EntryForm, user: Option<User>,
                           nowMs: nat, now: DateTime, addOk: bool, syncOk: bool): (s: Save)
    ensures !InwardFormValid(f) ==> s == Save(FormInvalid, ledger)
    ensures InwardFormValid(f) ==>
      s.outcome == Sent(InwardTransaction(f, user, nowMs, now), addOk)
      && s.ledger == Record(ledger, s.outcome.tx, addOk, syncOk)
  {
    if !InwardFormValid(f) then Save(FormInvalid, ledger)
    else
      var tx := InwardTransaction(f, user, nowMs, now);
      Save(Sent(tx, addOk), Record(ledger, tx, addOk, syncOk))
  }

  /** An entry with no item (a new item not yet in the inventory) is
      recorded but moves no stock. */
  lemma NoItemNoStockChange(ledger: Ledger, f: EntryForm, user: Option<User>, nowMs: nat, now: DateTime,
                            addOk: bool, syncOk: bool)
    requires !Truthy(f.itemId)
    ensures SaveInwardEntry(ledger, f, user, nowMs, now, addOk, syncOk).ledger.items == ledger.items
  {
  }

  /** When the insert and the stock sync both succeed, an entry on a known
      item adds exactly its quantity to that item and to the total stock. */
  lemma InwardAddsStock(ledger: Ledger, f: EntryForm, user: Option<User>, nowMs: nat, now: DateTime, k: nat)
    requires UniqueIds(ledger.items) && k < |ledger.items| && ledger.items[k].quantity >= 0
    requires InwardFormValid(f) && Truthy(f.itemId) && f.itemId == Some(ledger.items[k].id)
    ensures var s := SaveInwardEntry(ledger, f, user, nowMs, now, true, true);
      s.ledger.items[k].quantity == ledger.items[k].quantity + f.quantity.value
      && TotalQuantity(s.ledger.items) == TotalQuantity(ledger.items) + f.quantity.value
      && |s.ledger.transactions| == |ledger.transactions| + 1
  {
    UniqueIdCount(ledger.items, k);
    SyncTotalQuantity(InwardTransaction(f, user, nowMs, now), ledger.items, k);
  }

  /** The form together with the "new item" switch. */
  datatype InwardState = InwardState(isNewItem: bool, form: EntryForm)

  /** `toggleItemMode`: flips the switch and clears the selected item. */
  function ToggleItemMode(s: InwardState): (r: InwardState)
    ensures r.isNewItem == !s.isNewItem
    ensures r.form == s.form.(itemId := None)
  {
    InwardState(!s.isNewItem, s.form.(itemId := None))
  }

  /** Toggling twice restores the switch but not the selection; either way
      the next entry moves no stock until an item is chosen again. */
  lemma ToggleTwice(s: InwardState, ledger: Ledger, user: Option<User>, nowMs: nat, now: DateTime,
                    addOk: bool, syncOk: bool)
    ensures ToggleItemMode(ToggleItemMode(s)) == s.(form := s.form.(itemId := None))
    ensures SaveInwardEntry(ledger, ToggleItemMode(s).form, user, nowMs, now, addOk, syncOk).ledger.items == ledger.items
  {
  }
}
