/** Role-gated access in LittleLemonAPI/views.py: the `get_permissions` of the
    menu-item collection, single menu item and category views, and the
    `group_required` decorator. */
module ViewAccess {
  import opened Http

  /** What a view's `get_permissions` yields: `[AllowAny()]`,
      `[IsAuthenticated()]`, or a raised `PermissionDenied`. */
  datatype Decision = Allow | RequireAuth | Deny

  /** How the framework enforces a decision: `None` lets the handler run,
      otherwise the request ends with the given status. A raised
      `PermissionDenied` is a 403 for every requester, logged in or not. */
  function Enforce(d: Decision, p: Principal): (r: Option<Status>)
    ensures r.Some? ==> r.value == (if d == Deny then Forbidden403 else NotAuthenticated)
    ensures r.None? <==> d == Allow || (d == RequireAuth && IsAuthenticated(p))
  {
    match d
    case Allow => None
    case RequireAuth => if IsAuthenticated(p) then None else Some(NotAuthenticated)
    case Deny => Some(Forbidden403)
  }

  predicate Grants(d: Decision, p: Principal)
  {
    Enforce(d, p).None?
  }

  /** `MenuItemsView.get_permissions`: anyone may list the menu, only a
      Manager may add to it, and every other method is refused outright. */
  function MenuItemsPermission(m: Method, p: Principal): (d: Decision)
    ensures m == GET ==> d == Allow
    ensures Grants(d, p) <==> m == GET || (m == POST && IsManager(p))
    ensures !Grants(d, p) ==> d == Deny
  {
    if m == GET then Allow
    else if m == POST then (if IsManager(p) then RequireAuth else Deny)
    else Deny
  }

  /** `SingleMenuItemView.get_permissions`: anyone may read an item, every
      other method is for Managers only. */
  function SingleMenuItemPermission(m: Method, p: Principal): (d: Decision)
    ensures m == GET ==> d == Allow
    ensures Grants(d, p) <==> m == GET || IsManager(p)
    ensures !Grants(d, p) ==> d == Deny
  {
    if m == GET then Allow
    else if IsManager(p) then RequireAuth
    else Deny
  }

  /** `CategoryView.get_permissions`: reading categories needs a login,
      anything else needs Manager membership. */
  function CategoryPermission(m: Method, p: Principal): (d: Decision)
    ensures Grants(d, p) <==> IsAuthenticated(p) && (m == GET || IsManager(p))
    ensures m == GET && !IsAuthenticated(p) ==> Enforce(d, p) == Some(NotAuthenticated)
    ensures m != GET && !IsManager(p) ==> d == Deny
  {
    if m == GET then RequireAuth
    else if IsManager(p) then RequireAuth
    else Deny
  }

  /** Outcome of the `group_required(group)` wrapper: either the wrapped view
      runs, or a 403 response is returned (whose text always names the
      'Manager' group, whatever group was asked for). */
  datatype Gate = PassThrough | Refuse(status: Status, message: string)

  function GroupRequired(group: string, p: Principal): (g: Gate)
    ensures g.PassThrough? <==> InGroup(p, group)
    ensures g.Refuse? ==> g.status == Forbidden403
  {
    if InGroup(p, group) then PassThrough
    else Refuse(Forbidden403, "Permission denied. User must be in the 'Manager' group.")
  }

  /** Whatever the collection view lets through, the single-item view lets
      through as well. */
  lemma CollectionNoLaxerThanSingleItem(m: Method, p: Principal)
    ensures Grants(MenuItemsPermission(m, p), p) ==> Grants(SingleMenuItemPermission(m, p), p)
  {
  }

  /** Across the three views, only a Manager can get any method other than
      GET through. */
  lemma OnlyManagersMutate(m: Method, p: Principal)
    requires m != GET
    ensures Grants(MenuItemsPermission(m, p), p) ==> IsManager(p)
    ensures Grants(SingleMenuItemPermission(m, p), p) ==> IsManager(p)
    ensures Grants(CategoryPermission(m, p), p) ==> IsManager(p)
  {
  }

  /** An anonymous visitor can read the menu but not the categories. */
  lemma AnonymousReadsMenuNotCategories()
    ensures Grants(MenuItemsPermission(GET, Anonymous), Anonymous)
    ensures Grants(SingleMenuItemPermission(GET, Anonymous), Anonymous)
    ensures !Grants(CategoryPermission(GET, Anonymous), Anonymous)
  {
  }
}
