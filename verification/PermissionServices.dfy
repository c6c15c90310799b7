/** PermissionProvider, RoleService and the seeding job as they run over the tables and Redis. */
module PermissionServices {
  import opened Prelude
  import opened Scopes
  import P = Permissions

  /** `find_invalid_permissions`: each unknown value once, in order of first appearance. */
  method FindInvalidPermissions(perms: seq<string>, valid: set<string>) returns (invalid: seq<string>)
    ensures forall p :: p in invalid <==> p in perms && p !in valid
    ensures forall i, j :: 0 <= i < j < |invalid| ==> invalid[i] != invalid[j]
  {
    invalid := [];
    for i := 0 to |perms|
      invariant forall p :: p in invalid <==> p in perms[..i] && p !in valid
      invariant P.Distinct(invalid)
    {
      if perms[i] !in valid && perms[i] !in invalid {
        invalid := invalid + [perms[i]];
      }
    }
  }

  class RoleServices {
    const ttl: nat
    const valid: set<string>
    var now: nat
    var roles: map<P.RoleId, P.Role>
    var users: map<P.UserId, P.User>
    var redis: map<P.UserId, P.Entry>

    constructor (ttl: nat, valid: set<string>, now: nat, roles: map<P.RoleId, P.Role>, users: map<P.UserId, P.User>)
      ensures State() == P.World(now, roles, users, map[], ttl, valid)
    {
      this.ttl, this.valid, this.now, this.roles, this.users, redis := ttl, valid, now, roles, users, map[];
    }

    function State(): P.World
      reads this
    {
      P.World(now, roles, users, redis, ttl, valid)
    }

    // ---- PermissionCache and PermissionProvider ----

    /** An entry that does not decode is deleted and read as a miss. */
    method CacheGet(user: P.UserId) returns (hit: Option<set<string>>)
      modifies `redis
      ensures hit == if P.Cached(old(State()), user) then Some(P.CachedSet(old(State()), user)) else None
      ensures redis == if user in old(redis) && now < old(redis)[user].expires && old(redis)[user].raw.NotJson?
                       then old(redis) - {user} else old(redis)
    {
      if user !in redis || now >= redis[user].expires { return None; }
      match redis[user].raw
      case NotJson =>
        redis := redis - {user};
        hit := None;
      case JsonList(items) =>
        hit := Some(set p | p in items);
    }

    method CacheSet(user: P.UserId, rows: seq<string>)
      modifies `redis
      ensures redis == old(redis)[user := P.Entry(P.JsonList(SortedSet(rows)), now + ttl * SECOND)]
    {
      redis := redis[user := P.Entry(P.JsonList(SortedSet(rows)), now + ttl * SECOND)];
    }

    method GetPermissions(user: P.UserId) returns (reply: P.Reply)
      modifies `redis
      ensures (State(), reply) == P.GetPermissions(old(State()), user)
    {
      var hit := CacheGet(user);
      if hit.Some? { return P.Perms(hit.value); }
      var rows := P.RowsOf(State(), user);
      CacheSet(user, rows);
      assert redis == old(redis)[user := redis[user]];
      reply := P.Perms(set p | p in rows);
    }

    // ---- RoleService ----

    /** Replaces the rows of a role, unless a value is unknown or given twice. */
    method SetPermissions(role: P.RoleId, perms: seq<string>) returns (error: Option<P.Error>)
      requires role in roles
      modifies `roles
      ensures match P.SetPermissions(old(State()), role, perms)
              case Err(e) => error == Some(e) && roles == old(roles)
              case Ok(w) => error == None && State() == w
    {
      var invalid := FindInvalidPermissions(perms, valid);
      if invalid != [] {
        assert invalid[0] in invalid;
        return Some(P.InvalidPermission);
      }
      assert forall i :: 0 <= i < |perms| ==> perms[i] in valid by {
        forall i | 0 <= i < |perms| ensures perms[i] in valid { assert perms[i] in perms; }
      }
      var rows: seq<string> := [];
      for i := 0 to |perms|
        invariant rows == perms[..i] && P.Distinct(perms[..i])
        invariant roles == old(roles)
      {
        if perms[i] in rows {
          var k :| 0 <= k < |rows| && rows[k] == perms[i];
          assert perms[k] == perms[i];
          return Some(P.Conflict);
        }
        rows := rows + [perms[i]];
      }
      assert rows == perms;
      roles := roles[role := roles[role].(rows := rows)];
      error := None;
    }

    method InvalidatePermissionCache(affected: set<P.UserId>)
      modifies `redis
      ensures redis == old(redis) - affected
    {
      var left := affected;
      ghost var done: set<P.UserId> := {};
      while left != {}
        invariant left + done == affected
        invariant redis == old(redis) - done
        decreases left
      {
        var user :| user in left;
        left, done := left - {user}, done + {user};
        redis := redis - {user};
      }
    }

    method UpdateRole(role: P.RoleId, perms: Option<seq<string>>) returns (reply: P.Reply)
      modifies this
      ensures (State(), reply) == P.UpdateRole(old(State()), role, perms)
    {
      if role !in roles || roles[role].deleted { return P.Failed(P.NotFound); }
      if perms.Some? && roles[role].system { return P.Failed(P.SystemRole); }
      if perms.Some? {
        var affected := P.ActiveUserIds(State(), role);
        var error := SetPermissions(role, perms.value);
        if error.Some? { return P.Failed(error.value); }
        InvalidatePermissionCache(affected);
      }
      reply := P.Done;
    }

    method CreateRole(role: P.RoleId, name: string, perms: seq<string>) returns (reply: P.Reply)
      modifies this
      ensures (State(), reply) == P.CreateRole(old(State()), role, name, perms)
    {
      if P.NameTaken(State(), name) { return P.Failed(P.AlreadyExists); }
      if role in roles || exists u :: u in users && users[u].role == role { return P.Failed(P.Conflict); }
      ghost var before := roles;
      roles := roles[role := P.Role(name, false, false, [])];
      var error := SetPermissions(role, perms);
      if error.Some? {
        roles := roles - {role};
        assert roles == before;
        return P.Failed(error.value);
      }
      reply := P.Done;
    }

    method DeleteRole(role: P.RoleId) returns (reply: P.Reply)
      modifies this
      ensures (State(), reply) == P.DeleteRole(old(State()), role)
    {
      if role !in roles || roles[role].deleted { return P.Failed(P.NotFound); }
      if roles[role].system { return P.Failed(P.SystemRole); }
      if P.ActiveUserIds(State(), role) != {} { return P.Failed(P.HasUsers); }
      roles := roles[role := roles[role].(deleted := true)];
      reply := P.Done;
    }

    // ---- Seeding, and the user operations that touch the cache ----

    method SeedRole(role: P.RoleId, name: string, wanted: seq<string>) returns (reply: P.Reply)
      modifies this
      ensures (State(), reply) == P.SeedRole(old(State()), role, name, wanted)
    {
      if role !in roles {
        if exists u :: u in users && users[u].role == role { return P.Failed(P.Conflict); }
        roles := roles[role := P.Role(name, true, false, wanted)];
        return P.Done;
      }
      var missing := P.Missing(roles[role].rows, wanted);
      if missing == [] { return P.Done; }
      var row := roles[role];
      for i := 0 to |missing|
        invariant row == old(roles)[role].(rows := old(roles)[role].rows + missing[..i])
        invariant State() == old(State())
      {
        row := row.(rows := row.rows + [missing[i]]);
      }
      assert missing[..|missing|] == missing;
      var affected := P.ActiveUserIds(State(), role);
      roles := roles[role := row];
      InvalidatePermissionCache(affected);
      reply := P.Done;
    }

    method AssignRole(user: P.UserId, role: P.RoleId) returns (reply: P.Reply)
      modifies this
      ensures (State(), reply) == P.AssignRole(old(State()), user, role)
    {
      if user !in users || users[user].deleted || role !in roles || roles[role].deleted { return P.Failed(P.NotFound); }
      redis := redis - {user};
      users := users[user := users[user].(role := role)];
      reply := P.Done;
    }
  }
}
