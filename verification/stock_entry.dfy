/** What the inward and outward entry forms share
    (features/inwards-outwards/components/inwards-list and outwards-list):
    the form fields and validators, the entry total, the item search and
    the save step (insert the transaction, then sync the stock). */
module StockEntry {
  import opened Common
  import opened Text
  import opened InventoryModel
  import opened TransactionModel
  import opened InoutService

  /** The location both forms write on their warehouse side. */
  const Warehouse: string := "Main Warehouse"

  /** The form value. An empty number input is absent; an unselected item
      is null. */
  datatype EntryForm = EntryForm(
    itemId: Option<string>,
    quantity: Option<int>,
    unit: string,
    unitPrice: Option<int>,
    partyName: string,
    invoiceNumber: string,
    notes: string)

  /** `initForm`: no item, no quantity, unit price 0. */
  function InitialEntryForm(): (f: EntryForm)
    ensures f.itemId.None? && f.quantity.None? && f.unitPrice == Some(0)
    ensures f.unit == "" && f.partyName == "" && f.invoiceNumber == "" && f.notes == ""
  {
    EntryForm(None, None, "", Some(0), "", "", "")
  }

  /** The validators both forms carry: a quantity of at least 1, and a
      unit, party name and invoice number. */
  predicate EntryFieldsValid(f: EntryForm) {
    f.quantity.Some? && f.quantity.value >= 1
    && f.unit != "" && f.partyName != "" && f.invoiceNumber != ""
  }

  /** `(quantity || 0) * (unit_price || 0)`. */
  function EntryTotal(f: EntryForm): (t: int)
    ensures f.quantity.None? || f.unitPrice.None? ==> t == 0
    ensures f.quantity.Some? && f.unitPrice.Some? ==> t == f.quantity.value * f.unitPrice.value
  {
    f.quantity.GetOr(0) * f.unitPrice.GetOr(0)
  }

  /** The transaction table and the inventory table. */
  datatype Ledger = Ledger(transactions: seq<Transaction>, items: seq<InventoryItem>)

  /** `addTransaction`, then `syncInventoryStock` only when the insert
      succeeded (`ok`); `syncOk` is whether the sync's own queries got
      through. */
  function Record(ledger: Ledger, tx: Transaction, ok: bool, syncOk: bool): (r: Ledger)
    ensures !ok ==> r == ledger
    ensures ok ==> r.transactions == ledger.transactions + [tx]
    ensures ok ==> r.items == SyncInventoryStock(tx, ledger.items, syncOk)
  {
    if ok then Ledger(ledger.transactions + [tx], SyncInventoryStock(tx, ledger.items, syncOk)) else ledger
  }

  /** A failed sync is silent: the transaction is recorded all the same, but
      no stock moves, so the books and the stock levels part ways. */
  lemma SyncFailureKeepsStock(ledger: Ledger, tx: Transaction)
    ensures var r := Record(ledger, tx, true, false);
      r.transactions == ledger.transactions + [tx] && r.items == ledger.items
  {
  }

  /** What a save did: stopped by the validators, stopped by the stock
      check, or sent a transaction (`ok` says whether the insert succeeded). */
  datatype SaveOutcome = FormInvalid | NotEnoughStock | Sent(tx: Transaction, ok: bool)

  datatype Save = Save(outcome: SaveOutcome, ledger: Ledger)

  /** Items whose name contains the typed text, ignoring case. */
  function NameContains(input: string): InventoryItem -> bool {
    (i: InventoryItem) => ContainsIgnoreCase(i.itemName, input)
  }

  /** `onItemInput`: the loaded items whose name contains the input,
      ignoring case, in their loaded order. */
  function MatchingItems(items: seq<InventoryItem>, input: string): (r: seq<InventoryItem>)
    ensures |r| <= |items|
    ensures forall i :: 0 <= i < |r| ==> ContainsIgnoreCase(r[i].itemName, input) && r[i] in items
    ensures forall i :: 0 <= i < |items| && ContainsIgnoreCase(items[i].itemName, input) ==> items[i] in r
  {
    Filter(items, NameContains(input))
  }

  /** The suggestions keep the loaded order, and an empty input suggests
      every item. */
  lemma MatchingItemsOrder(items: seq<InventoryItem>, input: string)
    ensures IsSubsequence(MatchingItems(items, input), items)
    ensures input == "" ==> MatchingItems(items, input) == items
  {
    FilterIsSubsequence(items, NameContains(input));
    if input == "" {
      assert forall i :: 0 <= i < |items| ==> NameContains(input)(items[i]) by {
        forall i | 0 <= i < |items|
          ensures StartsWith(LowerStr(items[i].itemName), LowerStr(input))
        {
        }
      }
      FilterAll(items, NameContains(input));
    }
  }

  /** Typing a longer text never widens the suggestions. */
  lemma MatchingItemsNarrow(items: seq<InventoryItem>, input: string, more: string)
    requires Contains(LowerStr(more), LowerStr(input))
    ensures forall i :: 0 <= i < |items| && items[i] in MatchingItems(items, more) ==> items[i] in MatchingItems(items, input)
  {
    forall i | 0 <= i < |items| && items[i] in MatchingItems(items, more)
      ensures items[i] in MatchingItems(items, input)
    {
      ContainsTransitive(LowerStr(items[i].itemName), LowerStr(more), LowerStr(input));
    }
  }

  /** If `t` occurs in `u` and `u` occurs in `s`, then `t` occurs in `s`. */
  lemma ContainsTransitive(s: string, u: string, t: string)
    requires Contains(s, u) && Contains(u, t)
    ensures Contains(s, t)
  {
    ContainsAt(s, u);
    ContainsAt(u, t);
    var i :| OccursAt(s, u, i);
    var j :| OccursAt(u, t, j);
    assert s[i..i + |u|] == u;
    forall k | 0 <= k < |t|
      ensures s[i + j + k] == t[k]
    {
      assert s[i + j + k] == s[i..i + |u|][j + k];
    }
    assert s[i + j..i + j + |t|] == t;
    assert OccursAt(s, t, i + j);
    ContainsAt(s, t);
  }
}
