/** Users, their addresses and their roles: what UserService, RoleService, registration and email
    verification do to the tables and to the verification tokens. */
module Accounts {
  import opened Catalogue
  import opened Keys
  import opened Prelude

  type RoleId = nat
  type Token = nat

  datatype Surface = ClientSurface | AdminSurface

  /** A row of the users table; `id` is the text of its UUID. */
  datatype User = User(id: string, email: string, pending: Option<string>, username: Option<string>, role: RoleId,
                       surface: Surface, password: Option<Digest>, active: bool, verified: bool, deleted: bool)

  datatype Role = Role(name: string, system: bool, deleted: bool, perms: set<string>)

  /** A verification token in Redis. */
  datatype Entry = Entry(value: string, expires: nat)

  /** The record of a token that was sent: to whom, for which address, when. */
  datatype Sent = Sent(user: string, address: string, at: nat)

  /** Rows are never removed, so positions identify users and roles. `sent` records every token. */
  datatype World = World(now: nat, users: seq<User>, roles: seq<Role>, tokens: map<Token, Entry>,
                         sent: map<Token, Sent>, nextToken: Token, verifyTtl: nat)

  datatype Error =
    | NotFound | SelfAction | ProtectedAdmin | SameEmail | NoPassword | WrongPassword | EmailUsed | UsernameUsed
    | InvalidToken | Integrity | NotAdminRole | AlreadyExists | SystemRole | HasUsers | NotDeleted | NothingPending

  datatype Reply = Done | Failed(error: Error)

  const PANEL_ADMIN := "panel_admin"
  const APP_USER := "app_user"

  /** UUID texts hold hexadecimal digits and dashes, so never the separator. */
  predicate IsUserId(s: string) { SEPARATOR !in s }

  // ---- Lookups ----

  predicate Live(w: World, u: nat) { u < |w.users| && !w.users[u].deleted }

  function FindById(users: seq<User>, id: string, from: nat): (r: Option<nat>)
    requires from <= |users|
    ensures r.Some? ==> from <= r.value < |users| && users[r.value].id == id
    ensures forall u :: from <= u < |users| && (r.Some? ==> u < r.value) ==> users[u].id != id
    decreases |users| - from
  {
    if from == |users| then None
    else if users[from].id == id then Some(from)
    else FindById(users, id, from + 1)
  }

  predicate Claims(user: User, address: string) {
    user.email == address || user.pending == Some(address)
  }

  /** Some live user other than `except` has the address, as email or as pending email. */
  predicate EmailExists(users: seq<User>, email: string, except: Option<nat>) {
    exists u :: 0 <= u < |users| && Some(u) != except && !users[u].deleted && Claims(users[u], Lower(email))
  }

  /** `get_by_username` finds a live user. An empty name is not looked up. */
  predicate UsernameTaken(users: seq<User>, username: Option<string>) {
    username.Some? && username.value != "" &&
    exists u :: 0 <= u < |users| && !users[u].deleted && users[u].username == username
  }

  /** The unique indexes on the two address columns; they also cover soft-deleted rows. */
  predicate ViolatesUnique(users: seq<User>, at: nat, email: string, pending: Option<string>) {
    exists u :: 0 <= u < |users| && u != at &&
      (users[u].email == email || (pending.Some? && users[u].pending == pending))
  }

  function FindActive(users: seq<User>, address: string, byPending: bool, from: nat): (r: Option<nat>)
    requires from <= |users|
    ensures r.Some? ==> from <= r.value < |users| && !users[r.value].deleted && users[r.value].active &&
                        (if byPending then users[r.value].pending == Some(address) else users[r.value].email == address)
    ensures forall u :: from <= u < |users| && (r.Some? ==> u < r.value) ==>
              !(!users[u].deleted && users[u].active &&
                (if byPending then users[u].pending == Some(address) else users[u].email == address))
    decreases |users| - from
  {
    if from == |users| then None
    else if !users[from].deleted && users[from].active &&
            (if byPending then users[from].pending == Some(address) else users[from].email == address) then Some(from)
    else FindActive(users, address, byPending, from + 1)
  }

  function FindRole(roles: seq<Role>, name: string, onlySystem: bool, from: nat): (r: Option<nat>)
    requires from <= |roles|
    ensures r.Some? ==> from <= r.value < |roles| && roles[r.value].name == name && !roles[r.value].deleted &&
                        (onlySystem ==> roles[r.value].system)
    ensures forall v :: from <= v < |roles| && (r.Some? ==> v < r.value) ==>
              !(roles[v].name == name && !roles[v].deleted && (onlySystem ==> roles[v].system))
    decreases |roles| - from
  {
    if from == |roles| then None
    else if roles[from].name == name && !roles[from].deleted && (onlySystem ==> roles[from].system) then Some(from)
    else FindRole(roles, name, onlySystem, from + 1)
  }

  // ---- Writes shared by several calls ----

  /** UPDATE of one row's address columns, refused by the unique indexes. */
  function WriteEmails(w: World, u: nat, email: string, pending: Option<string>, verified: bool): Result<World, Error>
    requires u < |w.users|
  {
    if ViolatesUnique(w.users, u, email, pending) then Err(Integrity)
    else Ok(w.(users := w.users[u := w.users[u].(email := email, pending := pending, verified := verified)]))
  }

  function SendToken(w: World, u: nat, address: string): World
    requires u < |w.users|
  {
    var value := EncodeEmailVerify(w.users[u].id, Some(address));
    w.(tokens := w.tokens[w.nextToken := Entry(value, w.now + w.verifyTtl * SECOND)],
       sent := w.sent[w.nextToken := Sent(w.users[u].id, Lower(address), w.now)],
       nextToken := w.nextToken + 1)
  }

  function AddUser(w: World, user: User): Result<World, Error> {
    if FindById(w.users, user.id, 0).Some? || !IsUserId(user.id) || user.role >= |w.roles| then Err(Integrity)
    else if ViolatesUnique(w.users, |w.users|, user.email, user.pending) then Err(Integrity)
    else if user.username.Some? && exists u :: 0 <= u < |w.users| && w.users[u].username == user.username then
      Err(Integrity)
    else Ok(w.(users := w.users + [user]))
  }

  /** The live role "app_user", a system one first; created when there is none. */
  function DefaultRole(roles: seq<Role>): (r: (seq<Role>, RoleId))
    ensures r.1 < |r.0|
  {
    match FindRole(roles, APP_USER, true, 0)
    case Some(r) => (roles, r)
    case None =>
      match FindRole(roles, APP_USER, false, 0)
      case Some(r) => (roles, r)
      case None => (roles + [Role(APP_USER, true, false, APP_USER_PERMISSIONS)], |roles|)
  }

  predicate HasAdminSurfaceAccess(perms: set<string>) { perms * ADMIN_SURFACE_PERMISSIONS != {} }

  // ---- Registration and invitation ----

  /** The rows that registration and the creation of an admin add. */
  function NewClient(id: string, email: string, role: RoleId, password: string): User {
    User(id, Lower(email), None, None, role, ClientSurface, Some(HashPassword(password)), true, false, false)
  }

  function NewAdmin(id: string, email: string, username: Option<string>, role: RoleId): User {
    User(id, Lower(email), None, username, role, AdminSurface, None, true, false, false)
  }

  function Register(w: World, id: string, email: string, password: string): (World, Reply) {
    if EmailExists(w.users, email, None) then (w, Failed(EmailUsed))
    else
      var (roles, role) := DefaultRole(w.roles);
      match AddUser(w.(roles := roles), NewClient(id, email, role, password))
      case Err(_) => (w, Failed(EmailUsed))
      case Ok(w1) => (SendToken(w1, |w.users|, Lower(email)), Done)
  }

  function CreateAdminUser(w: World, id: string, email: string, username: Option<string>,
                           roleName: string): (World, Reply)
  {
    if EmailExists(w.users, Lower(email), None) then (w, Failed(EmailUsed))
    else if UsernameTaken(w.users, username) then (w, Failed(UsernameUsed))
    else
      match FindRole(w.roles, roleName, false, 0)
      case None => (w, Failed(NotFound))
      case Some(role) =>
        if !HasAdminSurfaceAccess(w.roles[role].perms) then (w, Failed(NotAdminRole))
        else
          match AddUser(w, NewAdmin(id, email, username, role))
          case Err(e) => (w, Failed(e))
          case Ok(w1) => (w1, Done)
  }

  // ---- Email changes ----

  /** The part that self-service and administrative changes share. */
  function RequestEmail(w: World, u: nat, email: string): (World, Reply)
    requires u < |w.users|
  {
    if EmailExists(w.users, email, Some(u)) then (w, Failed(EmailUsed))
    else
      match WriteEmails(w, u, w.users[u].email, Some(email), false)
      case Err(e) => (w, Failed(e))
      case Ok(w1) => (SendToken(w1, u, email), Done)
  }

  function UpdateSelfEmail(w: World, u: nat, email: string, password: string): (World, Reply) {
    if !Live(w, u) then (w, Failed(NotFound))
    else if Lower(email) == w.users[u].email then (w, Failed(SameEmail))
    else if w.users[u].password.None? then (w, Failed(NoPassword))
    else if w.users[u].password.value != Digest(password) then (w, Failed(WrongPassword))
    else RequestEmail(w, u, Lower(email))
  }

  /** `_get_manageable_target_or_raise`: not oneself, and no holder of the panel-admin role. */
  function Manageable(w: World, actor: nat, u: nat, includeDeleted: bool): Option<Error> {
    if u >= |w.users| || (w.users[u].deleted && !includeDeleted) then Some(NotFound)
    else if u == actor then Some(SelfAction)
    else if w.users[u].role < |w.roles| && w.roles[w.users[u].role].name == PANEL_ADMIN then Some(ProtectedAdmin)
    else None
  }

  function AdminChangeEmail(w: World, actor: nat, u: nat, email: string): (World, Reply) {
    match Manageable(w, actor, u, false)
    case Some(e) => (w, Failed(e))
    case None =>
      if Lower(email) == w.users[u].email then (w, Failed(SameEmail)) else RequestEmail(w, u, Lower(email))
  }

  function ResendVerification(w: World, email: string): (World, Reply) {
    var byEmail := FindActive(w.users, Lower(email), false, 0);
    if byEmail.Some? && !w.users[byEmail.value].verified then
      (SendToken(w, byEmail.value, w.users[byEmail.value].email), Done)
    else
      match FindActive(w.users, Lower(email), true, 0)
      case None => (w, Done)
      case Some(u) =>
        if w.users[u].pending == Some("") then (w, Done) else (SendToken(w, u, w.users[u].pending.value), Done)
  }

  function ResendUserVerification(w: World, actor: nat, u: nat): (World, Reply) {
    match Manageable(w, actor, u, false)
    case Some(e) => (w, Failed(e))
    case None =>
      if w.users[u].pending.Some? then (SendToken(w, u, w.users[u].pending.value), Done)
      else if !w.users[u].verified then (SendToken(w, u, w.users[u].email), Done)
      else (w, Failed(NothingPending))
  }

  predicate TokenLive(w: World, token: Token) { token in w.tokens && w.now < w.tokens[token].expires }

  /** The token is consumed whatever follows. */
  function VerifyEmail(w: World, token: Token): (World, Reply) {
    if !TokenLive(w, token) then (w, Failed(InvalidToken))
    else
      var w1 := w.(tokens := w.tokens - {token});
      var (id, target) := DecodeEmailVerify(w.tokens[token].value);
      var found := FindById(w.users, id, 0);
      if found.None? || w.users[found.value].deleted then (w1, Failed(InvalidToken))
      else
        var (u, user) := (found.value, w.users[found.value]);
        var given := target.Some? && target.value != "";
        if given && user.pending == target then
          match WriteEmails(w1, u, target.value, None, true)
          case Err(e) => (w1, Failed(e))
          case Ok(w2) => (w2, Done)
        else if given && user.email != target.value then (w1, Failed(InvalidToken))
        else (w1.(users := w.users[u := user.(verified := true)]), Done)
  }

  // ---- Administration of users ----

  function SetActive(w: World, actor: nat, u: nat, active: bool): (World, Reply) {
    match Manageable(w, actor, u, false)
    case Some(e) => (w, Failed(e))
    case None => (w.(users := w.users[u := w.users[u].(active := active)]), Done)
  }

  function AssignRole(w: World, actor: nat, u: nat, roleName: string): (World, Reply) {
    match Manageable(w, actor, u, false)
    case Some(e) => (w, Failed(e))
    case None =>
      match FindRole(w.roles, roleName, false, 0)
      case None => (w, Failed(NotFound))
      case Some(role) => (w.(users := w.users[u := w.users[u].(role := role)]), Done)
  }

  function SoftDelete(w: World, actor: nat, u: nat): (World, Reply) {
    match Manageable(w, actor, u, false)
    case Some(e) => (w, Failed(e))
    case None => (w.(users := w.users[u := w.users[u].(deleted := true)]), Done)
  }

  function Restore(w: World, actor: nat, u: nat): (World, Reply) {
    match Manageable(w, actor, u, true)
    case Some(e) => (w, Failed(e))
    case None =>
      if !w.users[u].deleted then (w, Failed(NotDeleted))
      else (w.(users := w.users[u := w.users[u].(deleted := false)]), Done)
  }

  // ---- Roles ----

  function CreateRole(w: World, name: string, perms: set<string>): (World, Reply) {
    if FindRole(w.roles, name, false, 0).Some? then (w, Failed(AlreadyExists))
    else (w.(roles := w.roles + [Role(name, false, false, perms)]), Done)
  }

  function UpdateRole(w: World, r: RoleId, perms: Option<set<string>>): (World, Reply) {
    if r >= |w.roles| || w.roles[r].deleted then (w, Failed(NotFound))
    else if perms.None? then (w, Done)
    else if w.roles[r].system then (w, Failed(SystemRole))
    else (w.(roles := w.roles[r := w.roles[r].(perms := perms.value)]), Done)
  }

  predicate RoleInUse(w: World, r: RoleId) {
    exists u :: 0 <= u < |w.users| && w.users[u].role == r && !w.users[u].deleted
  }

  function DeleteRole(w: World, r: RoleId): (World, Reply) {
    if r >= |w.roles| || w.roles[r].deleted then (w, Failed(NotFound))
    else if w.roles[r].system then (w, Failed(SystemRole))
    else if RoleInUse(w, r) then (w, Failed(HasUsers))
    else (w.(roles := w.roles[r := w.roles[r].(deleted := true)]), Done)
  }

  // ---- Runs ----

  datatype Call =
    | DoRegister(id: string, email: string, password: string)
    | DoCreateAdminUser(id: string, email: string, username: Option<string>, roleName: string)
    | DoUpdateSelfEmail(u: nat, email: string, password: string)
    | DoAdminChangeEmail(actor: nat, u: nat, email: string)
    | DoResendVerification(email: string)
    | DoResendUserVerification(actor: nat, u: nat)
    | DoVerifyEmail(token: Token)
    | DoSetActive(actor: nat, u: nat, active: bool)
    | DoAssignRole(actor: nat, u: nat, roleName: string)
    | DoSoftDelete(actor: nat, u: nat)
    | DoRestore(actor: nat, u: nat)
    | DoCreateRole(name: string, perms: set<string>)
    | DoUpdateRole(role: RoleId, newPerms: Option<set<string>>)
    | DoDeleteRole(role: RoleId)
    | Tick(elapsed: nat)

  function Step(w: World, call: Call): (World, Reply) {
    match call
    case DoRegister(id, email, password) => Register(w, id, email, password)
    case DoCreateAdminUser(id, email, username, roleName) => CreateAdminUser(w, id, email, username, roleName)
    case DoUpdateSelfEmail(u, email, password) => UpdateSelfEmail(w, u, email, password)
    case DoAdminChangeEmail(actor, u, email) => AdminChangeEmail(w, actor, u, email)
    case DoResendVerification(email) => ResendVerification(w, email)
    case DoResendUserVerification(actor, u) => ResendUserVerification(w, actor, u)
    case DoVerifyEmail(token) => VerifyEmail(w, token)
    case DoSetActive(actor, u, active) => SetActive(w, actor, u, active)
    case DoAssignRole(actor, u, roleName) => AssignRole(w, actor, u, roleName)
    case DoSoftDelete(actor, u) => SoftDelete(w, actor, u)
    case DoRestore(actor, u) => Restore(w, actor, u)
    case DoCreateRole(name, perms) => CreateRole(w, name, perms)
    case DoUpdateRole(role, newPerms) => UpdateRole(w, role, newPerms)
    case DoDeleteRole(role) => DeleteRole(w, role)
    case Tick(elapsed) => (w.(now := w.now + elapsed), Done)
  }

  function Run(w: World, calls: seq<Call>): World
    decreases |calls|
  {
    if calls == [] then w else Run(Step(w, calls[0]).0, calls[1..])
  }
}
