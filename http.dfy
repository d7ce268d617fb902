/** Shared vocabulary of the LittleLemon API: request methods, the requester as
    the REST framework presents it, response statuses, and the preamble that the
    framework's `api_view` / `permission_classes([IsAuthenticated])` decorators
    run before a function view's own body. */
module Http {

  datatype Option<+T> = None | Some(value: T)

  datatype Result<+T, +E> = Ok(value: T) | Err(error: E)

  /** The request methods a client may send. */
  datatype Method = GET | HEAD | OPTIONS | POST | PUT | PATCH | DELETE | TRACE

  /** The requester: an anonymous visitor (no groups, not staff) or a logged-in
      account with its group names and its `is_staff` flag. */
  datatype Principal =
    | Anonymous
    | Account(username: string, groups: set<string>, isStaff: bool)

  predicate IsAuthenticated(p: Principal)
  {
    p.Account?
  }

  /** `user.groups.filter(name=group).exists()`; an anonymous user has no groups. */
  predicate InGroup(p: Principal, group: string)
  {
    p.Account? && group in p.groups
  }

  const MANAGER: string := "Manager"

  predicate IsManager(p: Principal)
  {
    InGroup(p, MANAGER)
  }

  /** `user.is_staff`; the anonymous user's flag is always false. */
  predicate IsStaff(p: Principal)
  {
    p.Account? && p.isStaff
  }

  /** Response statuses. `NotAuthenticated` is the framework's answer to a
      missing login: 401 or 403 depending on the configured authentication
      classes. */
  datatype Status =
    | Ok200
    | Created201
    | NoContent204
    | BadRequest400
    | NotAuthenticated
    | Forbidden403
    | NotFound404
    | MethodNotAllowed405
    | ServerError500

  /** A DRF `Response`: a status and a body whose shape each view chooses. */
  datatype Response<B> = Response(status: Status, body: B)

  /** What the framework does with a request before a function view runs. */
  datatype Preamble = Proceed | Answer(status: Status)

  /** `@api_view(allowed)` over `@permission_classes([IsAuthenticated])`:
      the permission check runs first, then a method outside `allowed` is
      refused with 405, except OPTIONS, which the framework answers itself
      with the view's metadata. Only `Proceed` reaches the view's body. */
  function ApiView(allowed: set<Method>, m: Method, p: Principal): (r: Preamble)
    ensures r == Proceed <==> IsAuthenticated(p) && m in allowed
    ensures !IsAuthenticated(p) ==> r == Answer(NotAuthenticated)
    ensures IsAuthenticated(p) && m !in allowed ==>
              r == Answer(if m == OPTIONS then Ok200 else MethodNotAllowed405)
  {
    if !IsAuthenticated(p) then Answer(NotAuthenticated)
    else if m in allowed then Proceed
    else if m == OPTIONS then Answer(Ok200)
    else Answer(MethodNotAllowed405)
  }
}
