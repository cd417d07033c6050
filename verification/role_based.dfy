/** The `appRoleBased` structural directive
    (shared/directives/role-based.directive.ts): content is shown to the
    roles listed, compared without regard to case. */
module RoleBased {
  import opened Common
  import opened Text
  import opened UserModel

  /** The role the directive evaluates: `user?.role || null`. */
  function CurrentRole(user: Option<User>): (r: Option<string>)
    ensures r.None? <==> user.None?
    ensures r.Some? ==> r.value == RoleName(user.value.role)
  {
    if user.Some? then Some(RoleName(user.value.role)) else None
  }

  /** The show condition of `updateView`. */
  predicate Shows(role: Option<string>, allowed: seq<string>) {
    Truthy(role) && LowerStr(role.value) in Map(allowed, LowerStr)
  }

  /** The directive's state: its allowed roles and the number of embedded
      views in its container. */
  datatype DirectiveState = DirectiveState(allowed: seq<string>, views: nat)

  /** `updateView`: the container is cleared, then the content is created
      once if the role is allowed. */
  function UpdateView(s: DirectiveState, role: Option<string>): (r: DirectiveState)
    ensures r.allowed == s.allowed
    ensures r.views <= 1
    ensures r.views == 1 <==> Truthy(role) && exists i :: 0 <= i < |s.allowed| && LowerStr(s.allowed[i]) == LowerStr(role.value)
  {
    s.(views := if Shows(role, s.allowed) then 1 else 0)
  }

  /** The `appRoleBased` input: new allowed roles, evaluated for the current user. */
  function SetAllowedRoles(s: DirectiveState, roles: seq<string>, user: Option<User>): (r: DirectiveState)
    ensures r.allowed == roles
    ensures r.views <= 1
    ensures r.views == 1 <==> user.Some? && Shows(Some(RoleName(user.value.role)), roles)
  {
    UpdateView(s.(allowed := roles), CurrentRole(user))
  }

  /** The effect that runs when the signed-in user changes. */
  function OnUserChange(s: DirectiveState, user: Option<User>): (r: DirectiveState)
    ensures r.allowed == s.allowed && r.views <= 1
    ensures r.views == 1 <==> user.Some? && Shows(Some(RoleName(user.value.role)), s.allowed)
  {
    UpdateView(s, CurrentRole(user))
  }

  /** No role, or an empty role, is never shown anything; neither is any
      role when the allowed list is empty. */
  lemma HiddenCases(s: DirectiveState, role: Option<string>)
    ensures UpdateView(s, None).views == 0
    ensures UpdateView(s, Some("")).views == 0
    ensures UpdateView(s.(allowed := []), role).views == 0
  {
  }

  /** Evaluating again changes nothing: the view is never duplicated. */
  lemma UpdateViewIdempotent(s: DirectiveState, role: Option<string>)
    ensures UpdateView(UpdateView(s, role), role) == UpdateView(s, role)
  {
  }

  /** Case does not matter, on either side. */
  lemma CaseInsensitive(r1: string, r2: string, allowed: seq<string>)
    requires LowerStr(r1) == LowerStr(r2)
    ensures Shows(Some(r1), allowed) <==> Shows(Some(r2), allowed)
    ensures r1 != "" ==> (Shows(Some(r1), allowed) <==> Shows(Some(r1), Map(allowed, LowerStr)))
  {
    forall i | 0 <= i < |allowed|
      ensures LowerStr(LowerStr(allowed[i])) == LowerStr(allowed[i])
    {
      LowerIdempotent(allowed[i]);
    }
    if r1 != "" {
      if Shows(Some(r1), allowed) {
        var i :| 0 <= i < |allowed| && Map(allowed, LowerStr)[i] == LowerStr(r1);
        assert Map(Map(allowed, LowerStr), LowerStr)[i] == LowerStr(r1);
      }
      if Shows(Some(r1), Map(allowed, LowerStr)) {
        var i :| 0 <= i < |allowed| && Map(Map(allowed, LowerStr), LowerStr)[i] == LowerStr(r1);
        assert Map(allowed, LowerStr)[i] == LowerStr(r1);
      }
    }
  }

  lemma LowerIdempotent(s: string)
    ensures LowerStr(LowerStr(s)) == LowerStr(s)
  {
  }

  /** A signed-in user sees content listed for their role however the role
      is capitalised, e.g. `Admin` for an admin. */
  lemma UserSeesOwnRole(u: User, spelled: string, others: seq<string>)
    requires LowerStr(spelled) == RoleName(u.role)
    ensures OnUserChange(DirectiveState(others + [spelled], 0), Some(u)).views == 1
  {
    var allowed := others + [spelled];
    LowerIdempotent(spelled);
    assert LowerStr(RoleName(u.role)) == RoleName(u.role) by {
      LowerIdempotent(spelled);
    }
    assert Map(allowed, LowerStr)[|others|] == LowerStr(spelled);
  }
}
