/** The outward entry form
    (features/inwards-outwards/components/outwards-list/outwards-list.component.ts):
    its stock check, the only guard against overdrawing, and the outward
    transaction it records. `Date.now()` is `nowMs`, `new Date()` is `now`. */
module OutwardsList {
  import opened Common
  import opened Text
  import opened Time
  import opened UserModel
  import opened InventoryModel
  import opened TransactionModel
  import opened InoutService
  import opened StockEntry

  const OutwardPrefix: string := "OUT-"

  /** The outward validators: the item is required as well. */
  predicate OutwardFormValid(f: EntryForm) {
    Truthy(f.itemId) && EntryFieldsValid(f)
  }

  /** `items.find(i => i.id === f.item_id)` over the loaded list. */
  function SelectedItem(loaded: seq<InventoryItem>, f: EntryForm): Option<InventoryItem> {
    FindItem(loaded, f.itemId)
  }

  /** The stock check: the item was found and the quantity is more than it
      holds. */
  predicate ExceedsStock(loaded: seq<InventoryItem>, f: EntryForm) {
    var sel := SelectedItem(loaded, f);
    sel.Some? && f.quantity.GetOr(0) > sel.value.quantity
  }

  /** The outward transaction built from a valid form. */
  function OutwardTransaction(f: EntryForm, user: Option<User>, nowMs: nat, now: DateTime): (tx: Transaction)
    ensures tx.txType == Outward && tx.referenceType == Some(ManualRef)
    ensures tx.fromLocation == Some(Warehouse) && tx.toLocation == ""
    ensures tx.itemId == f.itemId && tx.quantity == f.quantity.GetOr(0) && tx.unitPrice == f.unitPrice
    ensures tx.totalAmount == Some(EntryTotal(f))
    ensures tx.partyName == f.partyName && tx.invoiceNumber == f.invoiceNumber && tx.notes == f.notes
    ensures tx.createdBy == Some(if user.Some? then user.value.id else "")
    ensures tx.createdAt == Some(now)
    ensures StartsWith(tx.number, OutwardPrefix) && AllDigits(tx.number[|OutwardPrefix|..])
  {
    Transaction(
      OutwardPrefix + NatToString(nowMs),
      Outward,
      f.itemId,
      f.quantity.GetOr(0),
      f.unitPrice,
      Some(EntryTotal(f)),
      Some(ManualRef),
      Some(Warehouse),
      "",
      f.partyName,
      f.invoiceNumber,
      f.notes,
      Some(if user.Some? then user.value.id else ""),
      Some(now))
  }

  /** `saveOutwardEntry`. `loaded` is the item list the component loaded;
      `ledger` is the database; `addOk` is whether the insert succeeded. */
  function SaveOutwardEntry(ledger: Ledger, loaded: seq<InventoryItem>, f: EntryForm, user: Option<User>,
                            nowMs: nat, now: DateTime, addOk: bool, syncOk: bool): (s: Save)
    ensures !OutwardFormValid(f) ==> s == Save(FormInvalid, ledger)
    ensures OutwardFormValid(f) && ExceedsStock(loaded, f) ==> s == Save(NotEnoughStock, ledger)
    ensures OutwardFormValid(f) && !ExceedsStock(loaded, f) ==>
      s.outcome == Sent(OutwardTransaction(f, user, nowMs, now), addOk)
      && s.ledger == Record(ledger, s.outcome.tx, addOk, syncOk)
  {
    if !OutwardFormValid(f) then Save(FormInvalid, ledger)
    else if ExceedsStock(loaded, f) then Save(NotEnoughStock, ledger)
    else
      var tx := OutwardTransaction(f, user, nowMs, now);
      Save(Sent(tx, addOk), Record(ledger, tx, addOk, syncOk))
  }

  /** The transaction number is `OUT-` followed by the clock reading. */
  lemma OutwardNumberRoundTrip(f: EntryForm, user: Option<User>, nowMs: nat, now: DateTime)
    ensures var n := OutwardTransaction(f, user, nowMs, now).number;
      n[..|OutwardPrefix|] == OutwardPrefix && ParseNat(n[|OutwardPrefix|..]) == nowMs
  {
    var n := OutwardTransaction(f, user, nowMs, now).number;
    assert n[|OutwardPrefix|..] == NatToString(nowMs);
    ParseNatToString(nowMs);
  }

  /** An item that is not in the loaded list is never refused for lack of
      stock: the check is skipped. */
  lemma UnknownItemSkipsCheck(ledger: Ledger, loaded: seq<InventoryItem>, f: EntryForm, user: Option<User>,
                              nowMs: nat, now: DateTime, addOk: bool, syncOk: bool)
    requires OutwardFormValid(f)
    requires forall i :: 0 <= i < |loaded| ==> loaded[i].id != f.itemId.value
    ensures SaveOutwardEntry(ledger, loaded, f, user, nowMs, now, addOk, syncOk).outcome.Sent?
  {
  }

  /** When the check runs against the stock the database holds and the
      insert and the stock sync both succeed, an accepted outward never
      reaches the clamp: the item loses exactly the quantity
      sent, and the total stock drops by the same amount. A larger quantity
      is refused and nothing changes. */
  lemma AcceptedOutwardNeverClamps(ledger: Ledger, f: EntryForm, user: Option<User>,
                                   nowMs: nat, now: DateTime, k: nat)
    requires UniqueIds(ledger.items) && k < |ledger.items|
    requires OutwardFormValid(f) && f.itemId == Some(ledger.items[k].id)
    ensures var s := SaveOutwardEntry(ledger, ledger.items, f, user, nowMs, now, true, true);
      (s.outcome == NotEnoughStock <==> f.quantity.value > ledger.items[k].quantity)
      && (s.outcome.Sent? ==>
            s.ledger.items[k].quantity == ledger.items[k].quantity - f.quantity.value
            && TotalQuantity(s.ledger.items) == TotalQuantity(ledger.items) - f.quantity.value)
  {
    UniqueIdCount(ledger.items, k);
    var s := SaveOutwardEntry(ledger, ledger.items, f, user, nowMs, now, true, true);
    assert SelectedItem(ledger.items, f) == Some(ledger.items[k]);
    if s.outcome.Sent? {
      var tx := OutwardTransaction(f, user, nowMs, now);
      SyncTotalQuantity(tx, ledger.items, k);
    }
  }

  /** Without the check (an item missing from the loaded list, or a stale
      list) the clamp can fire: 5 units out of a row holding 3 leave 0, so
      2 units vanish from the books. */
  lemma StaleListClamps(ledger: Ledger, f: EntryForm, user: Option<User>, nowMs: nat, now: DateTime)
    requires |ledger.items| == 1 && ledger.items[0].quantity == 3
    requires OutwardFormValid(f) && f.itemId == Some(ledger.items[0].id) && f.quantity == Some(5)
    ensures var s := SaveOutwardEntry(ledger, [], f, user, nowMs, now, true, true);
      s.outcome.Sent? && s.ledger.items[0].quantity == 0
  {
    UniqueIdCount(ledger.items, 0);
  }
}
