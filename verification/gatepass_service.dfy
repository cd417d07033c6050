/** `GatepassService` (features/gate-pass/services/gatepass.service.ts):
    pass numbering and creation. The two tables are a `PassStore`; the
    clock's year, the signed-in user, the generated id and the success of
    each query are parameters. */
module GatepassService {
  import opened Common
  import opened Text
  import opened Numbering
  import opened GatePassModel

  const PassPrefix: string := "GP"
  const PassSerialWidth: nat := 4

  /** `"GP-" + year + "-" + pad4(count + 1)`, where `count` is the number of
      passes of every year. */
  function GeneratePassNumber(count: nat, year: nat): (r: string)
    ensures ParseDocumentNumber(PassPrefix, r) == Some((year, count + 1))
  {
    DocumentNumberRoundTrip(PassPrefix, year, count + 1, PassSerialWidth);
    DocumentNumber(PassPrefix, year, count + 1, PassSerialWidth)
  }

  /** The serial is greater than the existing count, and is exactly four
      digits while it is at most 9999; beyond that it grows. */
  lemma PassSerialShape(count: nat, year: nat)
    ensures ParseNat(Serial(count + 1, PassSerialWidth)) > count
    ensures |Serial(count + 1, PassSerialWidth)| == 4 <==> count + 1 <= 9999
  {
    SerialDigits(count + 1, PassSerialWidth);
    assert Pow10(4) == 10000;
  }

  /** Distinct counts give distinct numbers within a year. */
  lemma PassNumbersDistinct(c1: nat, c2: nat, year: nat)
    requires c1 != c2
    ensures GeneratePassNumber(c1, year) != GeneratePassNumber(c2, year)
  {
  }

  datatype PassStore = PassStore(passes: seq<GatePass>, items: seq<GatePassItem>)

  /** An item as inserted: linked to the new pass, `returned_quantity`
      defaulting to 0. */
  function LinkPassItem(id: string): GatePassItem -> GatePassItem {
    (i: GatePassItem) => i.(gatePassId := Some(id), returnedQuantity := Some(i.returnedQuantity.GetOr(0)))
  }

  datatype CreatePassOutcome = CreatePassOutcome(result: Option<GatePass>, store: PassStore)

  /** `createGatePass`. The pass is stored as pending under the generated
      number, whatever the caller's pass says, with the signed-in user as
      creator. Items are inserted only when there are some. Every failure
      returns null, and a pass inserted before a failed item insert stays. */
  function CreateGatePass(store: PassStore, pass: GatePass, items: seq<GatePassItem>, year: nat,
                          authUser: Option<string>, newId: string,
                          countOk: bool, insertOk: bool, itemsOk: bool): (o: CreatePassOutcome)
    ensures !countOk || !insertOk ==> o.result.None? && o.store == store
    ensures countOk && insertOk ==>
      |o.store.passes| == |store.passes| + 1 && o.store.passes[..|store.passes|] == store.passes
    ensures countOk && insertOk ==>
      var c := o.store.passes[|store.passes|];
      c.status == Pending && c.id == Some(newId) && c.createdBy == authUser
      && c.passNumber == GeneratePassNumber(|store.passes|, year)
      && c.(passNumber := pass.passNumber, status := pass.status, id := pass.id, createdBy := pass.createdBy) == pass
    ensures countOk && insertOk && |items| == 0 ==>
      o.store.items == store.items && o.result == Some(o.store.passes[|store.passes|])
    ensures countOk && insertOk && |items| > 0 ==>
      (o.result.Some? <==> itemsOk)
      && (o.result.Some? ==> o.result == Some(o.store.passes[|store.passes|]))
    ensures countOk && insertOk && |items| > 0 && itemsOk ==>
      |o.store.items| == |store.items| + |items| && o.store.items[..|store.items|] == store.items
      && forall k :: 0 <= k < |items| ==>
           o.store.items[|store.items| + k].gatePassId == Some(newId)
           && o.store.items[|store.items| + k].returnedQuantity == Some(items[k].returnedQuantity.GetOr(0))
           && o.store.items[|store.items| + k].(gatePassId := items[k].gatePassId,
                                               returnedQuantity := items[k].returnedQuantity) == items[k]
    ensures countOk && insertOk && |items| > 0 && !itemsOk ==> o.store.items == store.items
  {
    if !countOk || !insertOk then CreatePassOutcome(None, store)
    else
      var created := pass.(passNumber := GeneratePassNumber(|store.passes|, year), status := Pending,
                           createdBy := authUser, id := Some(newId));
      var withPass := store.(passes := store.passes + [created]);
      if |items| == 0 then CreatePassOutcome(Some(created), withPass)
      else if !itemsOk then CreatePassOutcome(None, withPass)
      else
        var linked := Map(items, LinkPassItem(newId));
        assert (store.items + linked)[..|store.items|] == store.items;
        CreatePassOutcome(Some(created), withPass.(items := store.items + linked))
  }

  /** The count is never reset at the turn of the year: a pass created in
      `y2` after one created in `y1` gets serial `n + 2` over the `n`
      earlier passes, whichever the years, and the two numbers differ. */
  lemma NumberingCarriesOver(store: PassStore, p1: GatePass, p2: GatePass, items1: seq<GatePassItem>,
                             items2: seq<GatePassItem>, y1: nat, y2: nat, authUser: Option<string>,
                             id1: string, id2: string, itemsOk1: bool, itemsOk2: bool)
    ensures var n := |store.passes|;
      var o1 := CreateGatePass(store, p1, items1, y1, authUser, id1, true, true, itemsOk1);
      var o2 := CreateGatePass(o1.store, p2, items2, y2, authUser, id2, true, true, itemsOk2);
      |o2.store.passes| == n + 2
      && ParseDocumentNumber(PassPrefix, o2.store.passes[n + 1].passNumber) == Some((y2, n + 2))
      && o2.store.passes[n].passNumber != o2.store.passes[n + 1].passNumber
  {
    var n := |store.passes|;
    var o1 := CreateGatePass(store, p1, items1, y1, authUser, id1, true, true, itemsOk1);
    var o2 := CreateGatePass(o1.store, p2, items2, y2, authUser, id2, true, true, itemsOk2);
    assert o2.store.passes[n] == o1.store.passes[n];
  }

  /** The status and number the caller puts in the pass are ignored. */
  lemma CreateIgnoresCallerStatus(store: PassStore, pass: GatePass, items: seq<GatePassItem>, year: nat,
                                  authUser: Option<string>, newId: string, countOk: bool, insertOk: bool, itemsOk: bool,
                                  s: PassStatus, number: string)
    ensures CreateGatePass(store, pass.(status := s, passNumber := number), items, year, authUser, newId, countOk, insertOk, itemsOk)
         == CreateGatePass(store, pass, items, year, authUser, newId, countOk, insertOk, itemsOk)
  {
  }

  /** Linking changes only the pass id and the returned quantity, which
      defaults to 0. */
  lemma LinkKeepsItem(id: string, i: GatePassItem)
    ensures LinkPassItem(id)(i).(gatePassId := i.gatePassId, returnedQuantity := i.returnedQuantity) == i
    ensures i.returnedQuantity.None? ==> LinkPassItem(id)(i).returnedQuantity == Some(0)
  {
  }
}
