/** The permission cache in front of the role and permission tables: what each call does. */
module Permissions {
  import opened Prelude
  import opened Scopes

  type UserId = nat
  type RoleId = nat

  /** A role and its permission rows; the table holds a permission at most once per role. */
  datatype Role = Role(name: string, system: bool, deleted: bool, rows: seq<string>)

  datatype User = User(role: RoleId, deleted: bool)

  /** What Redis holds for a user: a JSON list, or something that is not JSON. */
  datatype Raw = JsonList(items: seq<string>) | NotJson

  datatype Entry = Entry(raw: Raw, expires: nat)

  datatype World = World(now: nat, roles: map<RoleId, Role>, users: map<UserId, User>, redis: map<UserId, Entry>,
                         ttl: nat, valid: set<string>)

  datatype Error = NotFound | AlreadyExists | SystemRole | InvalidPermission | HasUsers | Conflict

  datatype Reply = Done | Perms(perms: set<string>) | Failed(error: Error)

  /** The user's set according to the tables, whether or not the user is soft-deleted. */
  function TruePerms(w: World, user: UserId): set<string> {
    set p | p in RowsOf(w, user)
  }

  function RowsOf(w: World, user: UserId): seq<string> {
    if user in w.users && w.users[user].role in w.roles then w.roles[w.users[user].role].rows else []
  }

  /** An unexpired entry that decodes. */
  predicate Cached(w: World, user: UserId) {
    user in w.redis && w.now < w.redis[user].expires && w.redis[user].raw.JsonList?
  }

  function CachedSet(w: World, user: UserId): set<string>
    requires Cached(w, user)
  {
    set p | p in w.redis[user].raw.items
  }

  /** Read-through: a hit is returned as it is; a miss, or an entry that does not decode, is
      replaced by the tables' set for `ttl` seconds. */
  function GetPermissions(w: World, user: UserId): (World, Reply) {
    if Cached(w, user) then (w, Perms(CachedSet(w, user)))
    else
      var entry := Entry(JsonList(SortedSet(RowsOf(w, user))), w.now + w.ttl * SECOND);
      (w.(redis := w.redis[user := entry]), Perms(TruePerms(w, user)))
  }

  // ---- Roles ----

  predicate LiveRole(w: World, role: RoleId) { role in w.roles && !w.roles[role].deleted }

  /** The users whose entries a change of the role drops: those not soft-deleted. */
  function ActiveUserIds(w: World, role: RoleId): set<UserId> {
    set u | u in w.users && w.users[u].role == role && !w.users[u].deleted
  }

  predicate Distinct(items: seq<string>) {
    forall i, j :: 0 <= i < j < |items| ==> items[i] != items[j]
  }

  function SetPermissions(w: World, role: RoleId, perms: seq<string>): Result<World, Error>
    requires role in w.roles
  {
    if exists i :: 0 <= i < |perms| && perms[i] !in w.valid then Err(InvalidPermission)
    else if !Distinct(perms) then Err(Conflict)
    else Ok(w.(roles := w.roles[role := w.roles[role].(rows := perms)]))
  }

  function UpdateRole(w: World, role: RoleId, perms: Option<seq<string>>): (World, Reply) {
    if !LiveRole(w, role) then (w, Failed(NotFound))
    else if perms.None? then (w, Done)
    else if w.roles[role].system then (w, Failed(SystemRole))
    else
      match SetPermissions(w, role, perms.value)
      case Err(e) => (w, Failed(e))
      case Ok(w1) => (w1.(redis := w1.redis - ActiveUserIds(w, role)), Done)
  }

  predicate NameTaken(w: World, name: string) {
    exists r :: r in w.roles && !w.roles[r].deleted && w.roles[r].name == name
  }

  /** `role` is the new row's id, one that no user refers to. */
  function CreateRole(w: World, role: RoleId, name: string, perms: seq<string>): (World, Reply) {
    if NameTaken(w, name) then (w, Failed(AlreadyExists))
    else if role in w.roles || exists u :: u in w.users && w.users[u].role == role then (w, Failed(Conflict))
    else
      match SetPermissions(w.(roles := w.roles[role := Role(name, false, false, [])]), role, perms)
      case Err(e) => (w, Failed(e))
      case Ok(w1) => (w1, Done)
  }

  function DeleteRole(w: World, role: RoleId): (World, Reply) {
    if !LiveRole(w, role) then (w, Failed(NotFound))
    else if w.roles[role].system then (w, Failed(SystemRole))
    else if ActiveUserIds(w, role) != {} then (w, Failed(HasUsers))
    else (w.(roles := w.roles[role := w.roles[role].(deleted := true)]), Done)
  }

  /** The permissions of `wanted` the role lacks, in sorted order. */
  function Missing(rows: seq<string>, wanted: seq<string>): (r: seq<string>)
    ensures forall p :: p in r <==> p in wanted && p !in rows
  {
    Without(SortedSet(wanted), rows)
  }

  function Without(items: seq<string>, removed: seq<string>): (r: seq<string>)
    ensures forall p :: p in r <==> p in items && p !in removed
  {
    if items == [] then []
    else if items[0] in removed then Without(items[1..], removed)
    else [items[0]] + Without(items[1..], removed)
  }

  /** Seeding a system role: created when it is not there yet; otherwise what is missing is added,
      and only then are entries dropped. */
  function SeedRole(w: World, role: RoleId, name: string, wanted: seq<string>): (World, Reply) {
    if role !in w.roles then
      if exists u :: u in w.users && w.users[u].role == role then (w, Failed(Conflict))
      else (w.(roles := w.roles[role := Role(name, true, false, wanted)]), Done)
    else
      var missing := Missing(w.roles[role].rows, wanted);
      if missing == [] then (w, Done)
      else (w.(roles := w.roles[role := w.roles[role].(rows := w.roles[role].rows + missing)],
               redis := w.redis - ActiveUserIds(w, role)), Done)
  }

  // ---- Users ----

  /** A new user's id is fresh: neither a row nor a cache entry has it. */
  function CreateUser(w: World, user: UserId, role: RoleId): (World, Reply) {
    if user in w.users || user in w.redis || role !in w.roles then (w, Failed(Conflict))
    else (w.(users := w.users[user := User(role, false)]), Done)
  }

  function AssignRole(w: World, user: UserId, role: RoleId): (World, Reply) {
    if user !in w.users || w.users[user].deleted || !LiveRole(w, role) then (w, Failed(NotFound))
    else (w.(redis := w.redis - {user}, users := w.users[user := w.users[user].(role := role)]), Done)
  }

  /** Neither soft-deletion nor restoring touches the permission cache. */
  function SetDeleted(w: World, user: UserId, deleted: bool): (World, Reply) {
    if user !in w.users || w.users[user].deleted == deleted then (w, Failed(NotFound))
    else (w.(users := w.users[user := w.users[user].(deleted := deleted)]), Done)
  }

  // ---- Runs ----

  datatype Call =
    | Read(user: UserId)
    | DoUpdateRole(role: RoleId, perms: Option<seq<string>>)
    | DoCreateRole(role: RoleId, name: string, list: seq<string>)
    | DoDeleteRole(role: RoleId)
    | DoSeedRole(role: RoleId, name: string, wanted: seq<string>)
    | DoCreateUser(user: UserId, role: RoleId)
    | DoAssignRole(user: UserId, role: RoleId)
    | SoftDelete(user: UserId)
    | Restore(user: UserId)
    | Tick(elapsed: nat)
    | Lose(user: UserId)
    | Corrupt(user: UserId)

  function Step(w: World, call: Call): (World, Reply) {
    match call
    case Read(user) => GetPermissions(w, user)
    case DoUpdateRole(role, perms) => UpdateRole(w, role, perms)
    case DoCreateRole(role, name, list) => CreateRole(w, role, name, list)
    case DoDeleteRole(role) => DeleteRole(w, role)
    case DoSeedRole(role, name, wanted) => SeedRole(w, role, name, wanted)
    case DoCreateUser(user, role) => CreateUser(w, user, role)
    case DoAssignRole(user, role) => AssignRole(w, user, role)
    case SoftDelete(user) => SetDeleted(w, user, true)
    case Restore(user) => SetDeleted(w, user, false)
    case Tick(elapsed) => (w.(now := w.now + elapsed), Done)
    case Lose(user) => (w.(redis := w.redis - {user}), Done)
    case Corrupt(user) =>
      (if user in w.redis then w.(redis := w.redis[user := w.redis[user].(raw := NotJson)]) else w, Done)
  }

  /** The state after the calls. */
  function Run(w: World, calls: seq<Call>): World
    decreases |calls|
  {
    if calls == [] then w
    else Step(Run(w, calls[..|calls| - 1]), calls[|calls| - 1]).0
  }
}
