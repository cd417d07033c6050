/** The review actions of the indent list
    (features/purchase-indents/components/indent-list/indent-list.component.ts):
    the status updates approve, reject and mark-completed send, and the
    estimated total shown for an indent. */
module IndentList {
  import opened Common
  import opened Text
  import opened Time
  import opened UserModel
  import opened IndentModel
  import opened IndentService

  /** The arguments of one `updateIndentStatus` call. */
  datatype StatusRequest = StatusRequest(status: IndentStatus, reason: Option<string>, approverId: Option<string>)

  /** The id of the selected indent, when one is selected. */
  function SelectedId(selected: Option<Indent>): Option<string> {
    if selected.Some? then Some(selected.value.id) else None
  }

  /** `approve`: an approval by the current user (absent when signed out). */
  function ApproveRequest(selected: Option<Indent>, user: Option<User>): (r: Option<StatusRequest>)
    ensures r.None? <==> selected.None?
    ensures r.Some? ==> r.value.status == Approved && r.value.reason.None?
    ensures r.Some? ==> r.value.approverId == (if user.Some? then Some(user.value.id) else None)
  {
    if selected.None? then None
    else Some(StatusRequest(Approved, None, if user.Some? then Some(user.value.id) else None))
  }

  /** `reject`: nothing is sent without a selection or with a blank reason;
      the reason is sent untrimmed. */
  function RejectRequest(selected: Option<Indent>, reason: string): (r: Option<StatusRequest>)
    ensures r.None? <==> selected.None? || IsBlank(reason)
    ensures r.Some? ==> r == Some(StatusRequest(Rejected, Some(reason), None))
  {
    if selected.None? || Trim(reason) == "" then None
    else Some(StatusRequest(Rejected, Some(reason), None))
  }

  /** `markCompleted`: completed, with no reason and no approver. */
  function CompleteRequest(selected: Option<Indent>): (r: Option<StatusRequest>)
    ensures r.None? <==> selected.None?
    ensures r.Some? ==> r.value == StatusRequest(Completed, None, None)
  {
    if selected.None? then None else Some(StatusRequest(Completed, None, None))
  }

  /** Sending a request to the service: the selected row is rewritten by
      `updateIndentStatus`; no request leaves the table as it is. */
  function Send(indents: seq<Indent>, selected: Option<Indent>, req: Option<StatusRequest>, now: DateTime, ok: bool)
    : (r: Result<seq<Indent>>)
    ensures req.None? || selected.None? ==> r == Success(indents)
    ensures req.Some? && selected.Some? ==>
      r == UpdateWhereId(indents, selected.value.id,
             (i: Indent) => UpdateIndentStatus(i, req.value.status, req.value.reason, req.value.approverId, now), ok)
  {
    if req.None? || selected.None? then Success(indents)
    else
      var q := req.value;
      UpdateWhereId(indents, selected.value.id, (i: Indent) => UpdateIndentStatus(i, q.status, q.reason, q.approverId, now), ok)
  }

  /** A rejection sent from the list always stores its reason, and one with
      a blank reason changes nothing. */
  lemma RejectFromList(ind: Indent, reason: string, now: DateTime)
    ensures IsBlank(reason) ==> RejectRequest(Some(ind), reason).None?
    ensures !IsBlank(reason) ==>
      var q := RejectRequest(Some(ind), reason).value;
      UpdateIndentStatus(ind, q.status, q.reason, q.approverId, now).rejectionReason == Some(reason)
  {
    if !IsBlank(reason) {
      assert reason != "";
    }
  }

  /** The requests do not look at the selected indent's status, so a
      completed or rejected indent can be approved again. */
  lemma RequestsIgnoreStatus(ind: Indent, s: IndentStatus, user: Option<User>, reason: string)
    ensures ApproveRequest(Some(ind.(status := s)), user) == ApproveRequest(Some(ind), user)
    ensures RejectRequest(Some(ind.(status := s)), reason) == RejectRequest(Some(ind), reason)
    ensures CompleteRequest(Some(ind.(status := s))) == CompleteRequest(Some(ind))
  {
  }

  /** Approving from the list while signed out keeps the previous approver. */
  lemma ApproveSignedOut(ind: Indent, now: DateTime)
    ensures var q := ApproveRequest(Some(ind), None).value;
      UpdateIndentStatus(ind, q.status, q.reason, q.approverId, now).approvedBy == ind.approvedBy
  {
  }

  /** `quantity * estimated_price` of a stored line, an absent price as 0. */
  function LineEstimate(it: IndentItem): int {
    it.quantity * it.estimatedPrice.GetOr(0)
  }

  /** `getTotalEstimated`: 0 when the indent carries no item list. */
  function GetTotalEstimated(items: Option<seq<IndentItem>>): (t: int)
    ensures items.None? ==> t == 0
    ensures items.Some? ==> t == SumOf(items.value, LineEstimate)
  {
    if items.None? then 0 else SumOf(items.value, LineEstimate)
  }

  /** The estimate shown for a created indent equals the `total_amount`
      stored with it. */
  lemma {:induction false} EstimateMatchesStoredTotal(inputs: seq<ItemInput>, id: string)
    ensures GetTotalEstimated(Some(Map(Map(inputs, PrepareItem), LinkItem(id))))
         == SumOf(Map(inputs, PrepareItem), StoredLineTotal)
  {
    TotalAmountIsPriceSum(inputs);
    EstimateOfLines(inputs, id);
  }

  lemma {:induction false} EstimateOfLines(inputs: seq<ItemInput>, id: string)
    ensures SumOf(Map(Map(inputs, PrepareItem), LinkItem(id)), LineEstimate) == SumOf(inputs, EstimatedValue)
  {
    if |inputs| > 0 {
      EstimateOfLines(inputs[1..], id);
      assert Map(Map(inputs, PrepareItem), LinkItem(id))[1..] == Map(Map(inputs[1..], PrepareItem), LinkItem(id));
    }
  }
}
