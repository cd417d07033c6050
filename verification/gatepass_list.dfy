/** Which gate passes the list loads, and the status colour it shows
    (features/gate-pass/components/gatepass-list/gatepass-list.component.ts).
    The two service queries are not part of this model; the list is
    described by the query it issues. */
module GatepassList {
  import opened Common
  import opened UserModel
  import opened GatePassModel

  /** `getAllGatePasses()` or `getGatePassesByUser(id)`. */
  datatype PassListQuery = AllPasses | PassesOf(userId: string)

  /** `user?.role ?? 'viewer'`. */
  function RoleOrViewer(user: Option<User>): (r: string)
    ensures user.None? ==> r == "viewer"
    ensures user.Some? ==> r == RoleName(user.value.role)
  {
    if user.Some? then RoleName(user.value.role) else "viewer"
  }

  /** `ngOnInit` / `loadGatePasses`: admins load every pass; every other
      role, managers included, loads the passes of its own id (the empty id
      when signed out). */
  function ListQuery(user: Option<User>): (q: PassListQuery)
    ensures q == AllPasses <==> user.Some? && user.value.role == Admin
    ensures q.PassesOf? ==> q.userId == (if user.Some? then user.value.id else "")
  {
    if RoleOrViewer(user) == "admin" then AllPasses
    else PassesOf(if user.Some? then user.value.id else "")
  }

  /** A manager sees only their own passes, like staff and viewers. */
  lemma OnlyAdminSeesAll(u: User)
    requires u.role != Admin
    ensures ListQuery(Some(u)) == PassesOf(u.id)
    ensures ListQuery(None) == PassesOf("")
  {
  }

  /** `approve`, `reject` and `delete` reload the list only when the service
      reports success. */
  function ReloadAfter(ok: bool, user: Option<User>): (r: Option<PassListQuery>)
    ensures r.Some? <==> ok
    ensures r.Some? ==> r.value == ListQuery(user)
  {
    if ok then Some(ListQuery(user)) else None
  }

  /** `getStatusColor`. */
  function GetStatusColor(status: string): (c: string)
    ensures c == "text-green-600" <==> status == "approved"
    ensures c == "text-red-600" <==> status == "rejected"
    ensures c == "text-yellow-600" <==> status != "approved" && status != "rejected"
  {
    if status == "approved" then "text-green-600"
    else if status == "rejected" then "text-red-600"
    else "text-yellow-600"
  }

  /** On stored statuses: pending and completed passes are both yellow. */
  lemma StatusColors(s: PassStatus)
    ensures GetStatusColor(PassStatusName(s)) == "text-green-600" <==> s == Approved
    ensures GetStatusColor(PassStatusName(s)) == "text-red-600" <==> s == Rejected
    ensures GetStatusColor(PassStatusName(s)) == "text-yellow-600" <==> s == Pending || s == Completed
  {
  }
}
