/** `IsManagerOrReadOnly` in LittleLemonAPI/permissions.py: read-only methods
    for everybody, modification for staff accounts only. */
module Permissions {
  import opened Http
  import opened ViewAccess

  /** The framework's `SAFE_METHODS`. */
  const SAFE_METHODS: set<Method> := {GET, HEAD, OPTIONS}

  /** `has_permission(request, view)`. `user` is `None` when the request
      carries no user object at all; the `view` argument is never consulted. */
  function HasPermission<V>(m: Method, user: Option<Principal>, view: V): (ok: bool)
    ensures m in SAFE_METHODS ==> ok
    ensures m !in SAFE_METHODS ==>
              (ok <==> user.Some? && user.value.Account? && user.value.isStaff)
    ensures user.None? || user == Some(Anonymous) ==> (ok <==> m in SAFE_METHODS)
  {
    if m in SAFE_METHODS then true
    else user.Some? && IsStaff(user.value)
  }

  /** The decision depends on the method and the staff flag alone: neither
      the view nor the requester's groups nor their name change it. */
  lemma DecidedByMethodAndStaff<V>(m: Method, u1: Option<Principal>, u2: Option<Principal>, v1: V, v2: V)
    requires (u1.Some? && IsStaff(u1.value)) == (u2.Some? && IsStaff(u2.value))
    ensures HasPermission(m, u1, v1) == HasPermission(m, u2, v2)
  {
  }

  /** This class's notion of "manager" (the staff flag) is not the views'
      (membership of the 'Manager' group): a staff account outside the group
      may modify where the single-item view refuses it, and a Manager who is
      not staff is refused here where that view lets them through. */
  lemma StaffAndManagerDiffer()
    ensures exists p: Principal :: HasPermission(PUT, Some(p), ()) && !Grants(SingleMenuItemPermission(PUT, p), p)
    ensures exists p: Principal :: !HasPermission(PUT, Some(p), ()) && Grants(SingleMenuItemPermission(PUT, p), p)
  {
    var staff := Account("admin", {}, true);
    assert HasPermission(PUT, Some(staff), ()) && !Grants(SingleMenuItemPermission(PUT, staff), staff);
    var manager := Account("mgr", {MANAGER}, false);
    assert !HasPermission(PUT, Some(manager), ()) && Grants(SingleMenuItemPermission(PUT, manager), manager);
  }
}
