/** How far the permission cache can be from the tables. */
module PermissionTheorems {
  import opened Permissions
  import opened Prelude
  import opened Scopes

  // ---- What each call answers and changes ----

  ghost predicate LiveHolder(w: World, user: UserId, role: RoleId) {
    user in w.users && w.users[user].role == role && !w.users[user].deleted
  }

  /** The entries of the role's live holders are gone, all others are as before. */
  ghost predicate HoldersDropped(w: World, w1: World, role: RoleId) {
    forall u: UserId ::
      && (u in w1.redis <==> u in w.redis && !LiveHolder(w, u, role))
      && (u in w1.redis ==> w1.redis[u] == w.redis[u])
  }

  /** A list of permissions is accepted when all are known and none is repeated. */
  ghost predicate ListRefused(w: World, perms: seq<string>, e: Error) {
    var known := forall p :: p in perms ==> p in w.valid;
    if !known then e == InvalidPermission
    else e == Conflict && exists i, j :: 0 <= i < j < |perms| && perms[i] == perms[j]
  }

  /** An unexpired, well-formed entry answers; otherwise the tables do, and their answer is put in the
      cache for the whole TTL. */
  ghost predicate ReadOutcome(w: World, user: UserId, w1: World, reply: Reply) {
    if user in w.redis && w.now < w.redis[user].expires && w.redis[user].raw.JsonList? then
      w1 == w && reply == Perms(set p | p in w.redis[user].raw.items)
    else
      var held := user in w.users && w.users[user].role in w.roles;
      && reply.Perms? && (forall p :: p in reply.perms <==> held && p in w.roles[w.users[user].role].rows)
      && user in w1.redis && w1 == w.(redis := w.redis[user := w1.redis[user]])
      && w1.redis[user].raw.JsonList? && w1.redis[user].expires == w.now + w.ttl * SECOND
      && forall p :: p in w1.redis[user].raw.items <==> p in reply.perms
  }

  ghost predicate RoleOutcome(w: World, call: Call, w1: World, reply: Reply) {
    match call
    case DoUpdateRole(role, perms) =>
      if role !in w.roles || w.roles[role].deleted then reply == Failed(NotFound) && w1 == w
      else if perms == None then reply == Done && w1 == w
      else if w.roles[role].system then reply == Failed(SystemRole) && w1 == w
      else if exists e :: ListRefused(w, perms.value, e) then
        reply.Failed? && ListRefused(w, perms.value, reply.error) && w1 == w
      else
        && reply == Done && HoldersDropped(w, w1, role)
        && w1 == w.(roles := w.roles[role := w.roles[role].(rows := perms.value)], redis := w1.redis)
    case DoCreateRole(role, name, perms) =>
      if exists r :: r in w.roles && !w.roles[r].deleted && w.roles[r].name == name then
        reply == Failed(AlreadyExists) && w1 == w
      else if role in w.roles || exists u :: u in w.users && w.users[u].role == role then
        reply == Failed(Conflict) && w1 == w
      else if exists e :: ListRefused(w, perms, e) then
        reply.Failed? && ListRefused(w, perms, reply.error) && w1 == w
      else reply == Done && w1 == w.(roles := w.roles[role := Role(name, false, false, perms)])
    case DoDeleteRole(role) =>
      if role !in w.roles || w.roles[role].deleted then reply == Failed(NotFound) && w1 == w
      else if w.roles[role].system then reply == Failed(SystemRole) && w1 == w
      else if exists u :: LiveHolder(w, u, role) then reply == Failed(HasUsers) && w1 == w
      else reply == Done && w1 == w.(roles := w.roles[role := w.roles[role].(deleted := true)])
    case DoSeedRole(role, name, wanted) =>
      if role !in w.roles && exists u :: u in w.users && w.users[u].role == role then
        reply == Failed(Conflict) && w1 == w
      else if role !in w.roles then
        reply == Done && w1 == w.(roles := w.roles[role := Role(name, true, false, wanted)])
      else reply == Done && SeedOutcome(w, role, wanted, w1)
    case _ => false
  }

  /** What the role lacks is added behind what it has, in sorted order; nothing happens when it lacks
      nothing. */
  ghost predicate SeedOutcome(w: World, role: RoleId, wanted: seq<string>, w1: World)
    requires role in w.roles
  {
    var rows := w.roles[role].rows;
    if forall p :: p in wanted ==> p in rows then w1 == w
    else
      && role in w1.roles && rows <= w1.roles[role].rows
      && var added := w1.roles[role].rows[|rows|..];
         && StrictlySorted(added) && (forall p :: p in added <==> p in wanted && p !in rows)
         && HoldersDropped(w, w1, role)
         && w1 == w.(roles := w.roles[role := w.roles[role].(rows := rows + added)], redis := w1.redis)
  }

  ghost predicate UserOutcome(w: World, call: Call, w1: World, reply: Reply) {
    match call
    case DoCreateUser(user, role) =>
      if user in w.users || user in w.redis || role !in w.roles then reply == Failed(Conflict) && w1 == w
      else reply == Done && w1 == w.(users := w.users[user := User(role, false)])
    case DoAssignRole(user, role) =>
      if user in w.users && !w.users[user].deleted && role in w.roles && !w.roles[role].deleted then
        reply == Done && w1 == w.(users := w.users[user := User(role, false)], redis := w.redis - {user})
      else reply == Failed(NotFound) && w1 == w
    case SoftDelete(user) =>
      if user in w.users && !w.users[user].deleted then
        reply == Done && w1 == w.(users := w.users[user := User(w.users[user].role, true)])
      else reply == Failed(NotFound) && w1 == w
    case Restore(user) =>
      if user in w.users && w.users[user].deleted then
        reply == Done && w1 == w.(users := w.users[user := User(w.users[user].role, false)])
      else reply == Failed(NotFound) && w1 == w
    case _ => false
  }

  lemma ReadIsOutcome(w: World, user: UserId)
    ensures var (w1, reply) := GetPermissions(w, user); ReadOutcome(w, user, w1, reply)
  {
  }

  lemma ListRefusedIff(w: World, role: RoleId, perms: seq<string>)
    requires role in w.roles
    ensures var r := SetPermissions(w, role, perms);
            if exists e :: ListRefused(w, perms, e) then r.Err? && ListRefused(w, perms, r.error)
            else r == Ok(w.(roles := w.roles[role := w.roles[role].(rows := perms)]))
  {
    assert ListRefused(w, perms, InvalidPermission) <==> exists i :: 0 <= i < |perms| && perms[i] !in w.valid;
    assert ListRefused(w, perms, Conflict) ==> !Distinct(perms);
  }

  lemma {:induction false} WithoutStaysSorted(items: seq<string>, removed: seq<string>)
    requires StrictlySorted(items)
    ensures StrictlySorted(Without(items, removed))
  {
    if items != [] {
      WithoutStaysSorted(items[1..], removed);
      var rest := Without(items[1..], removed);
      forall k | 0 <= k < |rest| ensures Less(items[0], rest[k]) {
        assert rest[k] in items[1..];
        var i :| 0 <= i < |items[1..]| && items[1..][i] == rest[k];
        assert items[i + 1] == rest[k];
      }
    }
  }

  lemma SeedIsOutcome(w: World, role: RoleId, name: string, wanted: seq<string>)
    requires role in w.roles
    ensures SeedRole(w, role, name, wanted).1 == Done && SeedOutcome(w, role, wanted, SeedRole(w, role, name, wanted).0)
  {
    var (rows, missing) := (w.roles[role].rows, Missing(w.roles[role].rows, wanted));
    SortedSetIsSorted(wanted);
    WithoutStaysSorted(SortedSet(wanted), rows);
    assert (rows + missing)[|rows|..] == missing;
    if missing != [] { assert missing[0] in missing; }
  }

  lemma RoleCallIsOutcome(w: World, call: Call)
    requires call.DoUpdateRole? || call.DoCreateRole? || call.DoDeleteRole? || call.DoSeedRole?
    ensures var (w1, reply) := Step(w, call); RoleOutcome(w, call, w1, reply)
  {
    match call
    case DoUpdateRole(role, perms) => if LiveRole(w, role) && perms.Some? { ListRefusedIff(w, role, perms.value); }
    case DoCreateRole(role, name, perms) => CreationIsOutcome(w, role, name, perms);
    case DoDeleteRole(role) => assert forall u :: u in ActiveUserIds(w, role) <==> LiveHolder(w, u, role);
    case DoSeedRole(role, name, wanted) => if role in w.roles { SeedIsOutcome(w, role, name, wanted); }
  }

  lemma CreationIsOutcome(w: World, role: RoleId, name: string, perms: seq<string>)
    ensures var (w1, reply) := CreateRole(w, role, name, perms);
            RoleOutcome(w, DoCreateRole(role, name, perms), w1, reply)
  {
    var added := w.(roles := w.roles[role := Role(name, false, false, [])]);
    ListRefusedIff(added, role, perms);
    forall e ensures ListRefused(added, perms, e) <==> ListRefused(w, perms, e) {
    }
    assert added.roles[role := Role(name, false, false, perms)] == w.roles[role := Role(name, false, false, perms)];
  }

  lemma UserCallIsOutcome(w: World, call: Call)
    requires call.DoCreateUser? || call.DoAssignRole? || call.SoftDelete? || call.Restore?
    ensures var (w1, reply) := Step(w, call); UserOutcome(w, call, w1, reply)
  {
  }

  // ---- Exact coherence ----

  /** A read would return the tables' set. */
  ghost predicate Exact(w: World, user: UserId) {
    Cached(w, user) ==> CachedSet(w, user) == TruePerms(w, user)
  }

  lemma ExactMeansTrueReads(w: World, user: UserId)
    ensures Exact(w, user) <==> GetPermissions(w, user).1 == Perms(TruePerms(w, user))
    ensures !Cached(w, user) ==> Exact(GetPermissions(w, user).0, user)
  {
  }

  /** Rows of the user's role change while the user is soft-deleted and has a cached entry: the one
      situation in which the entry outlives the set it was taken from. */
  predicate ChangesBehindEntry(w: World, call: Call, user: UserId) {
    && Cached(w, user) && user in w.users && w.users[user].deleted && w.users[user].role in w.roles
    && var role := w.users[user].role;
       match call
       case DoUpdateRole(r, perms) =>
           && r == role && LiveRole(w, r) && !w.roles[r].system && perms.Some?
           && Distinct(perms.value) && (forall i :: 0 <= i < |perms.value| ==> perms.value[i] in w.valid)
           && (set p | p in perms.value) != TruePerms(w, user)
       case DoSeedRole(r, _, wanted) => r == role && exists p :: p in wanted && p !in w.roles[role].rows
       case _ => false
  }

  lemma ReadKeepsExact(w: World, reader: UserId, user: UserId)
    requires Exact(w, user)
    ensures Exact(GetPermissions(w, reader).0, user)
  {
  }

  lemma UpdateExactIff(w: World, role: RoleId, perms: Option<seq<string>>, user: UserId)
    requires Exact(w, user)
    ensures Exact(UpdateRole(w, role, perms).0, user) <==> !ChangesBehindEntry(w, DoUpdateRole(role, perms), user)
  {
  }

  lemma SeedExactIff(w: World, role: RoleId, name: string, wanted: seq<string>, user: UserId)
    requires Exact(w, user)
    ensures Exact(SeedRole(w, role, name, wanted).0, user) <==>
            !ChangesBehindEntry(w, DoSeedRole(role, name, wanted), user)
  {
    if role in w.roles {
      var (rows, missing) := (w.roles[role].rows, Missing(w.roles[role].rows, wanted));
      var w1 := SeedRole(w, role, name, wanted).0;
      assert missing != [] ==> missing[0] in missing;
      if missing != [] && user in w.users && w.users[user].role == role {
        assert RowsOf(w1, user) == rows + missing && RowsOf(w, user) == rows;
        assert missing[0] in TruePerms(w1, user) && missing[0] !in TruePerms(w, user);
        assert missing[0] in wanted && missing[0] !in rows;
      }
    }
  }

  /** One step from an exact state: reads stay exact exactly unless the rows change behind a
      soft-deleted user's entry. */
  lemma StepExactIff(w: World, call: Call, user: UserId)
    requires Exact(w, user)
    ensures Exact(Step(w, call).0, user) <==> !ChangesBehindEntry(w, call, user)
  {
    match call
    case Read(reader) => ReadKeepsExact(w, reader, user);
    case DoUpdateRole(role, perms) => UpdateExactIff(w, role, perms, user);
    case DoSeedRole(role, name, wanted) => SeedExactIff(w, role, name, wanted, user);
    case _ =>
  }

  lemma {:induction false} StaysLive(w: World, calls: seq<Call>, user: UserId)
    requires user in w.users && !w.users[user].deleted
    requires SoftDelete(user) !in calls
    ensures user in Run(w, calls).users && !Run(w, calls).users[user].deleted
    decreases |calls|
  {
    if calls != [] {
      StaysLive(w, calls[..|calls| - 1], user);
      assert calls[|calls| - 1] in calls;
    }
  }

  /** For a user not soft-deleted since the entry was cached, every interleaving of reads, role
      updates, role assignments, seeding and losses returns the tables' current set. */
  lemma {:induction false} LiveUsersReadTheTruth(w: World, calls: seq<Call>, user: UserId)
    requires Exact(w, user) && user in w.users && !w.users[user].deleted
    requires SoftDelete(user) !in calls
    ensures Exact(Run(w, calls), user)
    ensures GetPermissions(Run(w, calls), user).1 == Perms(TruePerms(Run(w, calls), user))
    decreases |calls|
  {
    if calls != [] {
      var front := calls[..|calls| - 1];
      LiveUsersReadTheTruth(w, front, user);
      StaysLive(w, front, user);
      StepExactIff(Run(w, front), calls[|calls| - 1], user);
    }
    ExactMeansTrueReads(Run(w, calls), user);
  }

  const EDITOR := Role("editor", false, false, ["a"])

  /** A user with the role "editor", nothing cached. */
  const EDITOR_WORLD := World(0, map[7 := EDITOR], map[1 := User(7, false)], map[], 900, {"a", "b"})

  lemma RunOne(w: World, front: seq<Call>, call: Call)
    ensures Run(w, front + [call]) == Step(Run(w, front), call).0
  {
  }

  lemma RunTwo(w: World, front: seq<Call>, a: Call, b: Call)
    ensures Run(w, front + [a, b]) == Step(Step(Run(w, front), a).0, b).0
  {
    RunOne(w, front, a);
    RunOne(w, front + [a], b);
    assert front + [a] + [b] == front + [a, b];
  }

  lemma RunFour(w: World, a: Call, b: Call, c: Call, d: Call)
    ensures Run(w, [a, b, c, d]) == Step(Step(Step(Step(w, a).0, b).0, c).0, d).0
  {
    RunTwo(w, [], a, b);
    RunTwo(w, [a, b], c, d);
    assert [] + [a, b] == [a, b] && [a, b] + [c, d] == [a, b, c, d];
  }

  /** Rows that change while the user is deleted, and nothing else, on a world with one cached entry. */
  lemma DeletedUserKeepsEntry(w: World, user: UserId, role: RoleId, perms: seq<string>)
    requires user in w.users && w.users[user] == User(role, false) && LiveRole(w, role) && !w.roles[role].system
    requires Distinct(perms) && forall i :: 0 <= i < |perms| ==> perms[i] in w.valid
    ensures var later := Step(Step(Step(w, SoftDelete(user)).0, DoUpdateRole(role, Some(perms))).0, Restore(user)).0;
            later.users == w.users && (user in w.redis ==> user in later.redis && later.redis[user] == w.redis[user]) &&
            later.now == w.now && later.roles == w.roles[role := w.roles[role].(rows := perms)]
  {
  }

  /** The case left out above does happen: deleting, changing the role and restoring leaves the old
      set readable. */
  lemma RestoredUserReadsOldSet(later: World)
    requires later == Run(EDITOR_WORLD, [Read(1), SoftDelete(1), DoUpdateRole(7, Some(["b"])), Restore(1)])
    ensures 1 in later.users && !later.users[1].deleted
    ensures GetPermissions(later, 1).1 == Perms({"a"}) && TruePerms(later, 1) == {"b"}
  {
    RunFour(EDITOR_WORLD, Read(1), SoftDelete(1), DoUpdateRole(7, Some(["b"])), Restore(1));
    var w := Step(EDITOR_WORLD, Read(1)).0;
    assert SortedSet(["a"]) == ["a"];
    assert w.redis[1] == Entry(JsonList(["a"]), 900 * SECOND);
    DeletedUserKeepsEntry(w, 1, 7, ["b"]);
  }

  // ---- Bounded staleness ----

  /** Some state of the run, at most `ttl` before `instant`, had this set in its tables. */
  ghost predicate RecentlyTrue(w: World, calls: seq<Call>, user: UserId, perms: set<string>, instant: int) {
    exists k :: 0 <= k <= |calls| && Run(w, calls[..k]).now >= instant - w.ttl * SECOND &&
      TruePerms(Run(w, calls[..k]), user) == perms
  }

  lemma RecentlyTrueExtends(w: World, calls: seq<Call>, call: Call, user: UserId, perms: set<string>, instant: int)
    requires RecentlyTrue(w, calls, user, perms, instant)
    ensures RecentlyTrue(w, calls + [call], user, perms, instant)
  {
    var k :| 0 <= k <= |calls| && Run(w, calls[..k]).now >= instant - w.ttl * SECOND &&
      TruePerms(Run(w, calls[..k]), user) == perms;
    assert (calls + [call])[..k] == calls[..k];
  }

  /** An entry comes into being only by a read, as the tables' set and for the TTL. */
  lemma EntryIsOldOrRead(w: World, call: Call, user: UserId)
    ensures var w1 := Step(w, call).0;
            && w1.ttl == w.ttl
            && (user in w1.redis && w1.redis[user].raw.JsonList? ==>
                  || (user in w.redis && w.redis[user] == w1.redis[user])
                  || ((set p | p in w1.redis[user].raw.items) == TruePerms(w, user) &&
                      w1.redis[user].expires == w.now + w.ttl * SECOND))
  {
  }

  lemma {:induction false} EntriesWereTrue(w: World, calls: seq<Call>, user: UserId)
    requires w.redis == map[]
    ensures Run(w, calls).ttl == w.ttl
    ensures user in Run(w, calls).redis && Run(w, calls).redis[user].raw.JsonList? ==>
            RecentlyTrue(w, calls, user, (set p | p in Run(w, calls).redis[user].raw.items),
              Run(w, calls).redis[user].expires)
    decreases |calls|
  {
    if calls != [] {
      var (front, call) := (calls[..|calls| - 1], calls[|calls| - 1]);
      assert calls == front + [call];
      EntriesWereTrue(w, front, user);
      EntryIsOldOrRead(Run(w, front), call, user);
      var (w1, w2) := (Run(w, front), Run(w, calls));
      if user in w2.redis && w2.redis[user].raw.JsonList? {
        var perms := set p | p in w2.redis[user].raw.items;
        if user in w1.redis && w1.redis[user] == w2.redis[user] {
          RecentlyTrueExtends(w, front, call, user, perms, w2.redis[user].expires);
        } else {
          assert calls[..|front|] == front;
        }
      }
    }
  }

  /** Every set a read returns was the tables' set for that user at some instant of the run within
      the last `ttl` seconds. */
  lemma ReadsAreRecent(w: World, calls: seq<Call>, user: UserId)
    requires w.redis == map[]
    ensures var reply := GetPermissions(Run(w, calls), user).1;
            reply.Perms? && RecentlyTrue(w, calls, user, reply.perms, Run(w, calls).now)
  {
    EntriesWereTrue(w, calls, user);
    var last := Run(w, calls);
    if Cached(last, user) {
      var k :| 0 <= k <= |calls| && Run(w, calls[..k]).now >= last.redis[user].expires - w.ttl * SECOND &&
        TruePerms(Run(w, calls[..k]), user) == CachedSet(last, user);
    } else {
      assert calls[..|calls|] == calls;
    }
  }

  // ---- Changes take effect at once ----

  /** After a role's permissions are replaced, the next read of any live holder returns the new set. */
  lemma RoleUpdateIsVisible(w: World, role: RoleId, perms: seq<string>, user: UserId)
    requires UpdateRole(w, role, Some(perms)).1.Done?
    requires LiveHolder(w, user, role)
    ensures GetPermissions(UpdateRole(w, role, Some(perms)).0, user).1 == Perms(set p | p in perms)
  {
  }

  /** After an assignment the next read returns the assigned role's set. */
  lemma AssignmentIsVisible(w: World, user: UserId, role: RoleId)
    requires AssignRole(w, user, role).1.Done?
    ensures GetPermissions(AssignRole(w, user, role).0, user).1 == Perms(set p | p in w.roles[role].rows)
  {
  }

  /** Seeding only adds: every live holder then reads the former set and the seeded one. */
  lemma SeedingIsVisible(w: World, role: RoleId, name: string, wanted: seq<string>, user: UserId)
    requires role in w.roles && LiveHolder(w, user, role) && Exact(w, user)
    ensures GetPermissions(SeedRole(w, role, name, wanted).0, user).1 == Perms(TruePerms(w, user) + set p | p in wanted)
  {
  }
}
