/** Role based access control: roles carrying tags, users assigned to roles,
    and permission keys granted to roles with an optional JSON scope. */
module Rbac {
  import opened Wrappers
  import opened Seqs

  /** A row of `roles`; `tags` is the JSON list stored in the column. */
  datatype RoleRow = RoleRow(id: int, name: string, tags: seq<string>, isEnabled: int)

  /** A row of `user_roles`; the pair is the primary key. */
  datatype UserRole = UserRole(userId: int, roleId: int)

  /** The JSON values a scope holds: `null`, an integer or a string. */
  type ScopeValue = Option<Scalar>

  /** A scope as `has_permission` receives it: a dict from keys to values. */
  type Scope = map<string, ScopeValue>

  /** The `scope` column of `role_permissions`: SQL `NULL`, the JSON text
      `null`, or a JSON object. */
  datatype StoredScope = SqlNull | JsonNull | JsonObject(fields: Scope)

  /** A row of `role_permissions`; `(role_id, permission_key)` is the
      primary key. */
  datatype Grant = Grant(roleId: int, key: string, scope: StoredScope)

  /** The exception `has_permission` lets escape: `.get` on the `None` that
      `json.loads("null")` gives. */
  datatype Crash = AttributeError

  function GrantKey(g: Grant): (int, string) { (g.roleId, g.key) }

  /** `json.dumps(scope)` as `set_permission` stores it: `None` becomes the
      JSON text `null`, never SQL `NULL`. */
  function StoreScope(scope: Option<Scope>): (s: StoredScope)
    ensures s != SqlNull
    ensures s == JsonNull <==> scope.None?
  {
    match scope
    case None => JsonNull
    case Some(m) => JsonObject(m)
  }

  /** `tags or []`. */
  function TagsOf(tags: Option<seq<string>>): seq<string> {
    tags.GetOr([])
  }

  // ----- has_permission

  /** `r.is_enabled=1` for the role with that id. */
  predicate RoleEnabled(roles: seq<RoleRow>, roleId: int) {
    exists r :: r in roles && r.id == roleId && r.isEnabled == 1
  }

  /** The join condition of `has_permission`: an assignment of the user, a
      grant of the key to the same role, and that role enabled. */
  predicate Joins(roles: seq<RoleRow>, ur: UserRole, g: Grant, user: int, key: string) {
    ur.userId == user && g.roleId == ur.roleId && g.key == key && RoleEnabled(roles, g.roleId)
  }

  function GrantFor(roles: seq<RoleRow>, roleId: int, key: string): Grant -> bool {
    (g: Grant) => g.roleId == roleId && g.key == key && RoleEnabled(roles, g.roleId)
  }

  function ScopeOf(g: Grant): StoredScope { g.scope }

  /** The `rp.scope` column of the join, assignment by assignment in table
      order and, within one, grant by grant. */
  function ScopeRows(roles: seq<RoleRow>, userRoles: seq<UserRole>, grants: seq<Grant>, user: int, key: string)
    : seq<StoredScope>
  {
    if userRoles == [] then []
    else
      var ur := userRoles[0];
      (if ur.userId == user then Map(Filter(grants, GrantFor(roles, ur.roleId, key)), ScopeOf) else [])
      + ScopeRows(roles, userRoles[1..], grants, user, key)
  }

  /** The join returns exactly the scopes of the grants reaching the user. */
  lemma {:induction false} ScopeRowsMembers(roles: seq<RoleRow>, userRoles: seq<UserRole>, grants: seq<Grant>,
                                            user: int, key: string)
    ensures forall s :: s in ScopeRows(roles, userRoles, grants, user, key) <==>
      exists ur, g :: ur in userRoles && g in grants && Joins(roles, ur, g, user, key) && s == g.scope
  {
    if userRoles != [] {
      var ur := userRoles[0];
      var here := if ur.userId == user then Map(Filter(grants, GrantFor(roles, ur.roleId, key)), ScopeOf) else [];
      ScopeRowsMembers(roles, userRoles[1..], grants, user, key);
      MapMembers(Filter(grants, GrantFor(roles, ur.roleId, key)), ScopeOf);
      forall s ensures s in ScopeRows(roles, userRoles, grants, user, key) <==>
        exists ur, g :: ur in userRoles && g in grants && Joins(roles, ur, g, user, key) && s == g.scope
      {
        if exists u, g :: u in userRoles && g in grants && Joins(roles, u, g, user, key) && s == g.scope {
          var u, g :| u in userRoles && g in grants && Joins(roles, u, g, user, key) && s == g.scope;
          if u == ur {
            assert g in Filter(grants, GrantFor(roles, ur.roleId, key));
          } else {
            assert u in userRoles[1..];
          }
        }
        if s in here {
          var g :| g in Filter(grants, GrantFor(roles, ur.roleId, key)) && ScopeOf(g) == s;
          assert Joins(roles, ur, g, user, key);
        }
      }
    }
  }

  /** `stored.get(k)`: a missing key reads as `None`. */
  function Get(fields: Scope, k: string): ScopeValue {
    if k in fields then fields[k] else None
  }

  /** `all(stored.get(k) == v for k, v in scope.items())`. */
  predicate Agrees(fields: Scope, query: Scope) {
    forall k :: k in query ==> Get(fields, k) == query[k]
  }

  /** Whether the loop of `has_permission` stops at a stored scope: a SQL
      `NULL`, a JSON `null` (it answers or crashes) or an agreeing object. */
  function Decisive(query: Scope): StoredScope -> bool {
    (s: StoredScope) => s.SqlNull? || s.JsonNull? || Agrees(s.fields, query)
  }

  /** What `has_permission` answers at the scope it stops at. A JSON `null`
      is parsed to `None`; `all` over an empty query never calls `.get` on it
      and answers true, any query key makes `.get` raise. */
  function Outcome(s: StoredScope, query: Scope): Result<bool, Crash> {
    if s.JsonNull? && |query| > 0 then Err(AttributeError) else Ok(true)
  }

  /** The answer of `has_permission` over the joined scopes, as written. */
  function Decide(rows: seq<StoredScope>, query: Option<Scope>): (r: Result<bool, Crash>)
    ensures r.Err? ==> query.Some? && |query.value| > 0 && JsonNull in rows
    ensures r == Ok(false) <==> rows == [] || (query.Some? && forall s :: s in rows ==> !Decisive(query.value)(s))
  {
    if rows == [] then Ok(false)
    else if query.None? then Ok(true)
    else
      match First(rows, Decisive(query.value))
      case None => Ok(false)
      case Some(s) => Outcome(s, query.value)
  }

  /** What a scoped grant evidently means: a grant without a scope, whether
      stored as SQL `NULL` or as JSON `null`, allows every scope; a grant
      with one allows the queries it agrees with. */
  predicate Allows(s: StoredScope, query: Scope) {
    s.SqlNull? || s.JsonNull? || (s.JsonObject? && Agrees(s.fields, query))
  }

  /** `has_permission` as intended: some grant exists, and with a query
      scope, some grant allows it. */
  function DecideIntended(rows: seq<StoredScope>, query: Option<Scope>): (b: bool)
    ensures b <==> rows != [] && (query.None? || exists s :: s in rows && Allows(s, query.value))
  {
    rows != [] && (query.None? || First(rows, Decisive(query.value)).Some?)
  }

  /** Whenever `has_permission` answers, it answers as intended; it fails
      to answer only on a JSON `null` scope, and never without one. */
  lemma AsWrittenAnswersAsIntended(rows: seq<StoredScope>, query: Option<Scope>)
    ensures Decide(rows, query).Ok? ==> Decide(rows, query).value == DecideIntended(rows, query)
    ensures JsonNull !in rows ==> Decide(rows, query) == Ok(DecideIntended(rows, query))
  {
  }

  /** A grant stored without a scope, reaching the user through an enabled
      role, allows every query scope under the intended reading. */
  lemma UnscopedGrantAllows(roles: seq<RoleRow>, userRoles: seq<UserRole>, grants: seq<Grant>, user: int,
                            key: string, ur: UserRole, g: Grant, query: Option<Scope>)
    requires ur in userRoles && g in grants && Joins(roles, ur, g, user, key)
    requires g.scope == StoreScope(None)
    ensures DecideIntended(ScopeRows(roles, userRoles, grants, user, key), query)
  {
    ScopeRowsMembers(roles, userRoles, grants, user, key);
    assert JsonNull in ScopeRows(roles, userRoles, grants, user, key);
  }

  /** `has_permission(user, key)` with no scope is true exactly when some
      enabled role of the user is granted the key; with a scope it is never
      true without such a grant. */
  lemma GrantDecides(roles: seq<RoleRow>, userRoles: seq<UserRole>, grants: seq<Grant>, user: int, key: string,
                     query: Option<Scope>)
    ensures Decide(ScopeRows(roles, userRoles, grants, user, key), None)
      == Ok(exists ur, g :: ur in userRoles && g in grants && Joins(roles, ur, g, user, key))
    ensures (forall ur, g :: ur in userRoles && g in grants ==> !Joins(roles, ur, g, user, key)) ==>
      Decide(ScopeRows(roles, userRoles, grants, user, key), query) == Ok(false)
  {
    ScopeRowsMembers(roles, userRoles, grants, user, key);
    var rows := ScopeRows(roles, userRoles, grants, user, key);
    if rows != [] {
      assert rows[0] in rows;
    }
  }

  /** A grant stored by `set_permission(role, key)` with no scope makes a
      scoped query of an assigned user raise instead of answering true. */
  lemma NullScopeCrashes()
    ensures var roles := [RoleRow(1, "staff", [], 1)];
      var userRoles := [UserRole(7, 1)];
      var grants := [Grant(1, "manage", StoreScope(None))];
      var query := Some(map["group" := Some(IntVal(5))]);
      Decide(ScopeRows(roles, userRoles, grants, 7, "manage"), query) == Err(AttributeError)
      && DecideIntended(ScopeRows(roles, userRoles, grants, 7, "manage"), query)
  {
    var roles := [RoleRow(1, "staff", [], 1)];
    var userRoles := [UserRole(7, 1)];
    var grants := [Grant(1, "manage", JsonNull)];
    assert RoleEnabled(roles, 1) by {
      assert roles[0] in roles;
    }
    assert Filter(grants, GrantFor(roles, 1, "manage")) == grants by {
      FilterAll(grants, GrantFor(roles, 1, "manage"));
    }
    assert ScopeRows(roles, userRoles, grants, 7, "manage") == [JsonNull] by {
      assert userRoles[1..] == [];
    }
    var query := map["group" := Some(IntVal(5))];
    assert "group" in query;
    assert |query| > 0;
  }

  // ----- users_with_tag

  /** The role with that id is enabled and carries the tag. */
  predicate Tagged(roles: seq<RoleRow>, roleId: int, tag: string) {
    exists r :: r in roles && r.id == roleId && r.isEnabled == 1 && tag in r.tags
  }

  function HasTaggedRole(roles: seq<RoleRow>, tag: string): UserRole -> bool {
    (p: UserRole) => Tagged(roles, p.roleId, tag)
  }

  function UserOf(p: UserRole): int { p.userId }

  /** `users_with_tag(tag)`: each user holding an enabled role with that
      tag, once. */
  function UsersWithTag(roles: seq<RoleRow>, userRoles: seq<UserRole>, tag: string): (r: seq<int>)
    ensures forall i, j :: 0 <= i < j < |r| ==> r[i] != r[j]
    ensures forall u :: u in r <==> exists p :: p in userRoles && p.userId == u && Tagged(roles, p.roleId, tag)
  {
    var tagged := Filter(userRoles, HasTaggedRole(roles, tag));
    MapMembers(tagged, UserOf);
    Distinct(Map(tagged, UserOf))
  }

  /** `INSERT OR IGNORE` of an assignment. */
  function Assigned(userRoles: seq<UserRole>, p: UserRole): seq<UserRole> {
    if p in userRoles then userRoles else userRoles + [p]
  }

  /** Assigning twice is assigning once. */
  lemma AssignIdempotent(userRoles: seq<UserRole>, p: UserRole)
    ensures Assigned(Assigned(userRoles, p), p) == Assigned(userRoles, p)
    ensures p in Assigned(userRoles, p)
  {
  }

  /** A user assigned to an enabled role with a tag is among the users of
      that tag. */
  lemma AssignedUserIsTagged(roles: seq<RoleRow>, userRoles: seq<UserRole>, user: int, roleId: int, tag: string)
    requires Tagged(roles, roleId, tag)
    ensures user in UsersWithTag(roles, Assigned(userRoles, UserRole(user, roleId)), tag)
  {
    assert UserRole(user, roleId) in Assigned(userRoles, UserRole(user, roleId));
  }

  /** The tables `roles`, `user_roles` and `role_permissions`. */
  class RbacStore {
    var roles: seq<RoleRow>
    var userRoles: seq<UserRole>
    var grants: seq<Grant>
    var nextRoleId: int

    ghost predicate Valid() reads this {
      KeysDistinct(roles, (r: RoleRow) => r.id) && (forall r :: r in roles ==> r.id < nextRoleId)
      && KeysDistinct(userRoles, (p: UserRole) => p) && KeysDistinct(grants, GrantKey)
    }

    constructor ()
      ensures Valid() && roles == [] && userRoles == [] && grants == []
    {
      roles, userRoles, grants, nextRoleId := [], [], [], 1;
    }

    /** `create_role(name, tags, is_enabled=True)`: a role under a fresh id,
        with the tags or an empty list. */
    method CreateRole(name: string, tags: Option<seq<string>>, isEnabled: bool) returns (id: int)
      requires Valid()
      modifies this
      ensures Valid() && userRoles == old(userRoles) && grants == old(grants)
      ensures id == old(nextRoleId) && forall r :: r in old(roles) ==> r.id != id
      ensures roles == old(roles) + [RoleRow(id, name, TagsOf(tags), if isEnabled then 1 else 0)]
    {
      id := nextRoleId;
      var row := RoleRow(id, name, TagsOf(tags), if isEnabled then 1 else 0);
      KeysDistinctAppend(roles, (r: RoleRow) => r.id, row);
      roles := roles + [row];
      nextRoleId := nextRoleId + 1;
    }

    /** `assign_role(user_id, role_id)`: the pair is present afterwards,
        once, and nothing else changes. */
    method AssignRole(user: int, roleId: int)
      requires Valid()
      modifies this
      ensures Valid() && roles == old(roles) && grants == old(grants) && nextRoleId == old(nextRoleId)
      ensures userRoles == Assigned(old(userRoles), UserRole(user, roleId))
      ensures UserRole(user, roleId) in userRoles
    {
      if UserRole(user, roleId) !in userRoles {
        KeysDistinctAppend(userRoles, (p: UserRole) => p, UserRole(user, roleId));
        userRoles := userRoles + [UserRole(user, roleId)];
      }
    }

    /** `revoke_role(user_id, role_id)`: only that pair goes. */
    method RevokeRole(user: int, roleId: int)
      requires Valid()
      modifies this
      ensures Valid() && roles == old(roles) && grants == old(grants) && nextRoleId == old(nextRoleId)
      ensures userRoles == Filter(old(userRoles), (p: UserRole) => p != UserRole(user, roleId))
      ensures UserRole(user, roleId) !in userRoles
      ensures forall p :: p in old(userRoles) && p != UserRole(user, roleId) ==> p in userRoles
    {
      KeysDistinctFilter(userRoles, (p: UserRole) => p, (p: UserRole) => p != UserRole(user, roleId));
      userRoles := Filter(userRoles, (p: UserRole) => p != UserRole(user, roleId));
    }

    /** `set_permission(role_id, permission_key, scope)`: `INSERT OR
        REPLACE` drops the grant of that role and key, if any, and appends
        the new one, so exactly one grant of that key remains and it holds
        the new scope. */
    method SetPermission(roleId: int, key: string, scope: Option<Scope>)
      requires Valid()
      modifies this
      ensures Valid() && roles == old(roles) && userRoles == old(userRoles) && nextRoleId == old(nextRoleId)
      ensures grants == Filter(old(grants), (g: Grant) => GrantKey(g) != (roleId, key)) + [Grant(roleId, key, StoreScope(scope))]
      ensures forall g :: g in grants && GrantKey(g) == (roleId, key) ==> g.scope == StoreScope(scope)
      ensures forall g :: g in old(grants) && GrantKey(g) != (roleId, key) ==> g in grants
    {
      var kept := Filter(grants, (g: Grant) => GrantKey(g) != (roleId, key));
      KeysDistinctFilter(grants, GrantKey, (g: Grant) => GrantKey(g) != (roleId, key));
      KeysDistinctAppend(kept, GrantKey, Grant(roleId, key, StoreScope(scope)));
      grants := kept + [Grant(roleId, key, StoreScope(scope))];
    }

    /** `has_permission(user_id, permission_key, scope)`: no joined row
        answers false, no query scope answers true, and otherwise the rows
        are read in order until one decides. */
    method HasPermission(user: int, key: string, scope: Option<Scope>) returns (r: Result<bool, Crash>)
      ensures r == Decide(ScopeRows(roles, userRoles, grants, user, key), scope)
    {
      var rows := ScopeRows(roles, userRoles, grants, user, key);
      if rows == [] {
        return Ok(false);
      }
      if scope.None? {
        return Ok(true);
      }
      var query := scope.value;
      var i := 0;
      while i < |rows|
        invariant 0 <= i <= |rows|
        invariant First(rows, Decisive(query)) == First(rows[i..], Decisive(query))
      {
        var s := rows[i];
        assert rows[i..][0] == s && rows[i..][1..] == rows[i + 1..];
        if s.SqlNull? {
          return Ok(true);
        }
        if s.JsonNull? {
          if |query| > 0 {
            return Err(AttributeError);
          }
          return Ok(true);
        }
        if Agrees(s.fields, query) {
          return Ok(true);
        }
        i := i + 1;
      }
      return Ok(false);
    }

    /** `has_permission` as evidently intended: a stored JSON `null` is read
        as no scope, like SQL `NULL`, so the rows are read in order until one
        allows the query. */
    method HasPermissionIntended(user: int, key: string, scope: Option<Scope>) returns (b: bool)
      ensures b == DecideIntended(ScopeRows(roles, userRoles, grants, user, key), scope)
    {
      var rows := ScopeRows(roles, userRoles, grants, user, key);
      if rows == [] {
        return false;
      }
      if scope.None? {
        return true;
      }
      var query := scope.value;
      var i := 0;
      while i < |rows|
        invariant 0 <= i <= |rows|
        invariant forall j :: 0 <= j < i ==> !Decisive(query)(rows[j])
      {
        var s := rows[i];
        if s.SqlNull? || s.JsonNull? || Agrees(s.fields, query) {
          assert Decisive(query)(s);
          return true;
        }
        i := i + 1;
      }
      assert forall x :: x in rows ==> !Decisive(query)(x);
      return false;
    }

    /** `broadcast(tag, message, send_func)`: one send of the message to
        each tagged user, once each, and the number of users. The sends are
        returned in order instead of performed. */
    method Broadcast(tag: string, message: string) returns (sent: seq<(int, string)>, count: nat)
      ensures count == |sent|
      ensures forall u :: (u, message) in sent <==> u in UsersWithTag(roles, userRoles, tag)
      ensures forall i :: 0 <= i < |sent| ==> sent[i].1 == message
      ensures forall i, j :: 0 <= i < j < |sent| ==> sent[i] != sent[j]
    {
      var users := UsersWithTag(roles, userRoles, tag);
      sent := [];
      var i := 0;
      while i < |users|
        invariant 0 <= i <= |users|
        invariant |sent| == i
        invariant forall k :: 0 <= k < i ==> sent[k] == (users[k], message)
      {
        sent := sent + [(users[i], message)];
        i := i + 1;
      }
      count := |users|;
      forall u | u in users ensures (u, message) in sent {
        var k :| 0 <= k < |users| && users[k] == u;
        assert sent[k] == (u, message);
      }
    }
  }
}

/** The view check of the archive: whether a user may see an item. */
module ViewAccess {
  import opened Wrappers
  import Admins

  /** `can_view(user_id, kind, id)`: an absent user (`None`) may view
      anything; a user may
      view when an active admin row exists for them. The item is not
      looked at. */
  function CanView(rows: seq<Admins.AdminRow>, user: Option<int>, kind: string, id: Scalar): (b: bool)
    ensures user.None? ==> b
    ensures user.Some? ==> (b <==> exists a :: a in rows && a.tgUserId == user.value && a.isActive == 1)
  {
    user.None? || Admins.ActiveRow(rows, user.value).Some?
  }

  /** The answer is the same for every item, and for a user it is whether
      `get_admin` finds them. */
  lemma CanViewIsActiveAdmin(rows: seq<Admins.AdminRow>, user: int, kind: string, id: Scalar, kind2: string, id2: Scalar)
    ensures CanView(rows, Some(user), kind, id) == CanView(rows, Some(user), kind2, id2)
    ensures CanView(rows, Some(user), kind, id) <==> Admins.GetAdmin(rows, user).Some?
  {
  }
}
