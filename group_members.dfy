/** `list_group_members` in LittleLemonAPI/views.py: a Manager lists, adds
    and removes the members of a named group. Groups are a table from group
    name to the usernames in `group.user_set`; users are a table from username
    to e-mail address, which this view only reads. */
module GroupMembers {
  import opened Http
  import opened ViewAccess

  type Membership = map<string, set<string>>

  /** The methods named in the view's `@api_view` decorator. */
  const ALLOWED: set<Method> := {GET, POST, DELETE}

  /** The parts of a request the view reads; `username` is
      `request.data.get('username', None)`. */
  datatype Request = Request(verb: Method, requester: Principal, username: Option<string>)

  /** One entry of the member listing. */
  datatype MemberInfo = MemberInfo(username: string, email: string)

  datatype Body =
    | Text(message: string)
    | Members(members: set<MemberInfo>)
    | FrameworkReply   // produced by the framework: login required, 405, or OPTIONS metadata

  /** The response and the group table after one request. */
  datatype Outcome = Outcome(response: Response<Body>, groups: Membership)

  /** Every member of every group is a registered user. */
  predicate Registered(groups: Membership, emails: map<string, string>)
  {
    forall g :: g in groups ==> groups[g] <= emails.Keys
  }

  /** Python's `if username:` — present and not the empty string. */
  predicate Provided(username: Option<string>)
  {
    username.Some? && username.value != ""
  }

  /** The serialized member list of a group. */
  function MembersOf(group: set<string>, emails: map<string, string>): (r: set<MemberInfo>)
    ensures forall u :: u in group && u in emails ==> MemberInfo(u, emails[u]) in r
    ensures forall m :: m in r ==> m.username in group && m.username in emails && m.email == emails[m.username]
  {
    set u | u in group && u in emails :: MemberInfo(u, emails[u])
  }

  /** What `list_group_members` answers and how it leaves the group table:
      login and method checks, then Manager membership (403), then the group
      (404), then per method the username (400) and the user (404). */
  function Handle(groups: Membership, emails: map<string, string>, req: Request, name: string): (out: Outcome)
    // Only the named group can change, and only by a Manager's valid POST or DELETE.
    ensures out.groups.Keys == groups.Keys
    ensures forall g :: g in groups && g != name ==> out.groups[g] == groups[g]
    ensures out.groups != groups ==>
              IsManager(req.requester) && name in groups && Provided(req.username)
              && req.username.value in emails && (req.verb == POST || req.verb == DELETE)
    ensures Registered(groups, emails) ==> Registered(out.groups, emails)
    // The chain of checks, in order.
    ensures !IsAuthenticated(req.requester) ==> out == Outcome(Response(NotAuthenticated, FrameworkReply), groups)
    ensures (IsAuthenticated(req.requester) && req.verb !in ALLOWED) ==>
              out == Outcome(Response(if req.verb == OPTIONS then Ok200 else MethodNotAllowed405, FrameworkReply), groups)
    ensures (IsAuthenticated(req.requester) && req.verb in ALLOWED && !IsManager(req.requester)) ==>
              out.response.status == Forbidden403 && out.groups == groups
    ensures (IsManager(req.requester) && req.verb in ALLOWED && name !in groups) ==>
              out.response.status == NotFound404 && out.groups == groups
    ensures (IsManager(req.requester) && name in groups && req.verb == GET) ==>
              out == Outcome(Response(Ok200, Members(MembersOf(groups[name], emails))), groups)
    ensures (IsManager(req.requester) && name in groups && (req.verb == POST || req.verb == DELETE)
             && !Provided(req.username)) ==>
              out.response.status == BadRequest400 && out.groups == groups
    ensures (IsManager(req.requester) && name in groups && (req.verb == POST || req.verb == DELETE)
             && Provided(req.username) && req.username.value !in emails) ==>
              out.response.status == NotFound404 && out.groups == groups
    // A Manager's valid POST or DELETE succeeds, adding or removing exactly that user.
    ensures (IsManager(req.requester) && name in groups && req.verb == POST
             && Provided(req.username) && req.username.value in emails) ==>
              out.response.status == Created201
              && out.groups == groups[name := groups[name] + {req.username.value}]
    ensures (IsManager(req.requester) && name in groups && req.verb == DELETE
             && Provided(req.username) && req.username.value in emails) ==>
              out.response.status == Ok200
              && out.groups == groups[name := groups[name] - {req.username.value}]
    ensures out.response.status == Created201 ==>
              req.verb == POST && req.username.Some?
              && out.groups == groups[name := groups[name] + {req.username.value}]
    ensures (req.verb == DELETE && out.groups != groups) ==>
              out.response.status == Ok200
              && out.groups == groups[name := groups[name] - {req.username.value}]
  {
    match ApiView(ALLOWED, req.verb, req.requester)
    case Answer(s) => Outcome(Response(s, FrameworkReply), groups)
    case Proceed =>
      match GroupRequired(MANAGER, req.requester)
      case Refuse(s, message) => Outcome(Response(s, Text(message)), groups)
      case PassThrough =>
        if name !in groups then
          Outcome(Response(NotFound404, Text("Group '" + name + "' not found")), groups)
        else if req.verb == GET then
          Outcome(Response(Ok200, Members(MembersOf(groups[name], emails))), groups)
        else if req.verb == POST || req.verb == DELETE then
          if !Provided(req.username) then
            Outcome(Response(BadRequest400, Text("Username not provided in the request data")), groups)
          else
            var u := req.username.value;
            if u !in emails then
              Outcome(Response(NotFound404, Text("User with username '" + u + "' not found")), groups)
            else if req.verb == POST then
              Outcome(Response(Created201, Text("User '" + u + "' added to group '" + name + "'")),
                      groups[name := groups[name] + {u}])
            else
              Outcome(Response(Ok200, Text("User '" + u + "' removed from group '" + name + "'")),
                      groups[name := groups[name] - {u}])
        else
          Outcome(Response(BadRequest400, Text("Invalid HTTP method")), groups)
  }

  /** The requester as the framework loads it: `request.user.groups` reads
      the same group table that this view writes. */
  ghost predicate SeesTable(groups: Membership, p: Principal)
  {
    p.Account? ==> forall g :: g in p.groups <==> g in groups && p.username in groups[g]
  }

  /** A Manager who removes themselves from 'Manager' succeeds, and on their
      next request, loaded from the new table, is refused with 403. */
  lemma SelfRemovalRevokesAccess(groups: Membership, emails: map<string, string>, manager: Principal)
    requires IsManager(manager) && SeesTable(groups, manager)
    requires manager.username in emails && manager.username != ""
    ensures var out := Handle(groups, emails, Request(DELETE, manager, Some(manager.username)), MANAGER);
            var after := manager.(groups := manager.groups - {MANAGER});
            out.response.status == Ok200 && SeesTable(out.groups, after)
            && Handle(out.groups, emails, Request(GET, after, None), MANAGER).response.status == Forbidden403
  {
  }

  /** Adding a user who was not a member and then removing them restores the
      group table exactly. */
  lemma AddThenRemoveRestores(groups: Membership, emails: map<string, string>,
                              manager: Principal, name: string, u: string)
    requires IsManager(manager) && name in groups && u in emails && u != "" && u !in groups[name]
    ensures var added := Handle(groups, emails, Request(POST, manager, Some(u)), name);
            added.response.status == Created201
            && Handle(added.groups, emails, Request(DELETE, manager, Some(u)), name).groups == groups
  {
  }

  /** Adding the same user twice leaves the table as adding once does, and
      the second request answers as the first did. */
  lemma AddIsIdempotent(groups: Membership, emails: map<string, string>, req: Request, name: string)
    requires req.verb == POST
    ensures var once := Handle(groups, emails, req, name);
            var twice := Handle(once.groups, emails, req, name);
            twice.groups == once.groups && twice.response.status == once.response.status
  {
  }

  /** After a successful add, the Manager's listing of that group shows the
      new member with their e-mail address. */
  lemma AddedMemberIsListed(groups: Membership, emails: map<string, string>,
                            manager: Principal, name: string, u: string)
    requires IsManager(manager) && name in groups && u in emails && u != ""
    ensures var added := Handle(groups, emails, Request(POST, manager, Some(u)), name);
            var listed := Handle(added.groups, emails, Request(GET, manager, None), name);
            listed.response.status == Ok200
            && MemberInfo(u, emails[u]) in listed.response.body.members
  {
  }

  /** The group and user tables behind `list_group_members`. */
  class Directory {
    var groups: Membership
    const emails: map<string, string>

    ghost predicate Valid()
      reads this
    {
      Registered(groups, emails)
    }

    constructor (groups: Membership, emails: map<string, string>)
      requires Registered(groups, emails)
      ensures Valid() && this.groups == groups && this.emails == emails
    {
      this.groups := groups;
      this.emails := emails;
    }

    /** One request to the view; only the named group's member set can change.
        The body follows the view statement by statement and updates the
        table in place, as `group.user_set.add` and `.remove` do; `Handle`
        is the same behaviour as a value, which the lemmas above reason about. */
    method ListGroupMembers(req: Request, name: string) returns (resp: Response<Body>)
      requires Valid()
      requires SeesTable(groups, req.requester)
      modifies this
      ensures Valid()
      ensures Outcome(resp, groups) == Handle(old(groups), emails, req, name)
    {
      var pre := ApiView(ALLOWED, req.verb, req.requester);
      if pre.Answer? {
        return Response(pre.status, FrameworkReply);
      }
      var gate := GroupRequired(MANAGER, req.requester);
      if gate.Refuse? {
        return Response(gate.status, Text(gate.message));
      }
      if name !in groups {
        return Response(NotFound404, Text("Group '" + name + "' not found"));
      }
      if req.verb == GET {
        resp := Response(Ok200, Members(MembersOf(groups[name], emails)));
      } else if req.verb == POST || req.verb == DELETE {
        if !Provided(req.username) {
          return Response(BadRequest400, Text("Username not provided in the request data"));
        }
        var u := req.username.value;
        if u !in emails {
          return Response(NotFound404, Text("User with username '" + u + "' not found"));
        }
        if req.verb == POST {
          groups := groups[name := groups[name] + {u}];
          resp := Response(Created201, Text("User '" + u + "' added to group '" + name + "'"));
        } else {
          groups := groups[name := groups[name] - {u}];
          resp := Response(Ok200, Text("User '" + u + "' removed from group '" + name + "'"));
        }
      } else {
        resp := Response(BadRequest400, Text("Invalid HTTP method"));
      }
    }
  }
}
