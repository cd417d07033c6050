/** The indent creation form
    (features/purchase-indents/components/indent-create/indent-create.component.ts):
    its defaults and validators, the auto-approval decision and the payload
    handed to `createIndent`. */
module IndentCreate {
  import opened Common
  import opened Text
  import opened Time
  import opened UserModel
  import opened IndentModel
  import opened IndentService

  /** One row of the items form array; an empty number input is absent. */
  datatype ItemRow = ItemRow(
    itemName: string,
    description: string,
    quantity: Option<int>,
    unit: string,
    estimatedPrice: Option<int>)

  /** `addItemRow`: quantity 1, unit `pcs`, no price. */
  function NewItemRow(): (r: ItemRow)
    ensures r.quantity == Some(1) && r.unit == "pcs" && r.estimatedPrice.None?
    ensures r.itemName == "" && r.description == ""
  {
    ItemRow("", "", Some(1), "pcs", None)
  }

  /** The row validators: a name, a quantity of at least 1 and a unit. */
  predicate ItemRowValid(r: ItemRow) {
    r.itemName != "" && r.quantity.Some? && r.quantity.value >= 1 && r.unit != ""
  }

  datatype IndentForm = IndentForm(
    title: string,
    department: string,
    priority: string,
    requiredDate: string,
    requestedBy: string,
    assignedTo: string,
    notes: string,
    items: seq<ItemRow>)

  /** `initForm` (before the current user is filled in): priority `Medium`
      and one default row. */
  function InitialForm(): IndentForm {
    IndentForm("", "", "Medium", "", "", "", "", [NewItemRow()])
  }

  /** The form validators: department, priority, required date and assignee
      are required, and every row is valid. */
  predicate FormValid(f: IndentForm) {
    f.department != "" && f.priority != "" && f.requiredDate != "" && f.assignedTo != ""
    && forall k :: 0 <= k < |f.items| ==> ItemRowValid(f.items[k])
  }

  /** A freshly initialised form is not yet submittable, but its default row
      needs only a name. */
  lemma InitialFormState(name: string)
    requires name != ""
    ensures !FormValid(InitialForm())
    ensures ItemRowValid(NewItemRow().(itemName := name))
    ensures !ItemRowValid(NewItemRow().(quantity := Some(0)))
  {
  }

  /** The status, approver and approval time the form computes. */
  datatype Approval = Approval(status: IndentStatus, approvedBy: Option<string>, approvedAt: Option<DateTime>)

  /** The auto-approval decision: admins and managers approve their own
      indents; anyone else, or nobody, leaves them pending. */
  function AutoApproval(user: Option<User>, now: DateTime): (a: Approval)
    ensures a.status == Approved <==> user.Some? && (user.value.role == Admin || user.value.role == Manager)
    ensures a.status == Approved ==> a.approvedBy == Some(user.value.id) && a.approvedAt == Some(now)
    ensures a.status != Approved ==> a.status == Pending && a.approvedBy.None? && a.approvedAt.None?
  {
    if user.Some? && (user.value.role == Admin || user.value.role == Manager)
    then Approval(Approved, Some(user.value.id), Some(now))
    else Approval(Pending, None, None)
  }

  /** A form row as a request line: no inventory link, the description kept
      even when empty, `Number(quantity)`. */
  function RowToInput(r: ItemRow): ItemInput {
    ItemInput(None, r.itemName, Some(r.description), r.quantity.GetOr(0), r.unit, r.estimatedPrice)
  }

  /** The payload built from the form: empty title and notes become null
      and the priority is lower-cased. */
  function BuildRequest(f: IndentForm, a: Approval): (req: CreateIndentRequest)
    ensures req.priority == LowerStr(f.priority)
    ensures req.title == OrNull(f.title) && req.notes == OrNull(f.notes)
    ensures req.status == a.status && req.approvedBy == a.approvedBy && req.approvedAt == a.approvedAt
    ensures req.department == f.department && req.requiredDate == f.requiredDate
    ensures req.requestedBy == Some(f.requestedBy) && req.assignedTo == f.assignedTo
    ensures |req.items| == |f.items|
    ensures forall k :: 0 <= k < |f.items| ==>
      var it, row := req.items[k], f.items[k];
      it.itemId.None? && it.itemName == row.itemName && it.description == Some(row.description)
      && it.quantity == row.quantity.GetOr(0) && it.unit == row.unit && it.estimatedPrice == row.estimatedPrice
  {
    CreateIndentRequest(OrNull(f.title), f.department, LowerStr(f.priority), f.requiredDate,
      Some(f.requestedBy), f.assignedTo, OrNull(f.notes), a.status, a.approvedBy, a.approvedAt,
      Map(f.items, RowToInput))
  }

  /** What `submit` did: nothing (the form was not submittable), or the
      outcome of the create call. */
  datatype SubmitOutcome = Blocked | Sent(request: CreateIndentRequest, outcome: CreateOutcome)

  /** `submit`. */
  function Submit(store: IndentStore, f: IndentForm, user: Option<User>, now: DateTime, year: nat,
                  newId: string, countOk: bool, insertOk: bool, itemsOk: bool): (o: SubmitOutcome)
    ensures o.Blocked? <==> !FormValid(f) || |f.items| == 0
    ensures o.Sent? ==> o.request == BuildRequest(f, AutoApproval(user, now))
    ensures o.Sent? ==> o.outcome == CreateIndent(store, o.request, year, newId, now, countOk, insertOk, itemsOk)
  {
    if !FormValid(f) || |f.items| == 0 then Blocked
    else
      var req := BuildRequest(f, AutoApproval(user, now));
      Sent(req, CreateIndent(store, req, year, newId, now, countOk, insertOk, itemsOk))
  }

  /** The form's decision is discarded: an admin's or manager's indent is
      sent as approved but stored as pending, with no approver. */
  lemma ApprovalNotStored(store: IndentStore, f: IndentForm, user: User, now: DateTime, year: nat,
                          newId: string, countOk: bool, itemsOk: bool)
    requires FormValid(f) && |f.items| > 0
    requires user.role == Admin || user.role == Manager
    ensures var o := Submit(store, f, Some(user), now, year, newId, countOk, true, itemsOk);
      o.Sent? && o.request.status == Approved
      && o.outcome.store.indents[|store.indents|].status == Pending
      && o.outcome.store.indents[|store.indents|].approvedBy.None?
  {
  }

  /** Who submits makes no difference to what is stored. */
  lemma SubmitterDoesNotMatter(store: IndentStore, f: IndentForm, u1: Option<User>, u2: Option<User>,
                               now: DateTime, year: nat, newId: string, countOk: bool, insertOk: bool, itemsOk: bool)
    requires FormValid(f) && |f.items| > 0
    ensures Submit(store, f, u1, now, year, newId, countOk, insertOk, itemsOk).outcome
         == Submit(store, f, u2, now, year, newId, countOk, insertOk, itemsOk).outcome
  {
    var a1 := AutoApproval(u1, now);
    var a2 := AutoApproval(u2, now);
    var r2 := BuildRequest(f, a2);
    assert BuildRequest(f, a1) == r2.(status := a1.status, approvedBy := a1.approvedBy, approvedAt := a1.approvedAt);
    CreateIgnoresRequestedApproval(store, r2, year, newId, now, countOk, insertOk, itemsOk,
      a1.status, a1.approvedBy, a1.approvedAt, r2.assignedTo);
  }

  /** The stored total is the sum of quantity times price over the rows. */
  lemma StoredTotalFromRows(store: IndentStore, f: IndentForm, user: Option<User>, now: DateTime, year: nat,
                            newId: string, countOk: bool, itemsOk: bool)
    requires FormValid(f) && |f.items| > 0
    ensures var o := Submit(store, f, user, now, year, newId, countOk, true, itemsOk);
      o.Sent? && o.outcome.store.indents[|store.indents|].totalAmount
        == SumOf(f.items, (r: ItemRow) => r.quantity.GetOr(0) * r.estimatedPrice.GetOr(0))
  {
    SumOfMapped(f.items);
  }

  lemma {:induction false} SumOfMapped(rows: seq<ItemRow>)
    ensures SumOf(Map(rows, RowToInput), EstimatedValue)
         == SumOf(rows, (r: ItemRow) => r.quantity.GetOr(0) * r.estimatedPrice.GetOr(0))
  {
    if |rows| > 0 {
      SumOfMapped(rows[1..]);
      assert Map(rows, RowToInput)[1..] == Map(rows[1..], RowToInput);
    }
  }
}
