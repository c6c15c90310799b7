/** What a caller of the account services can rely on: for every reply, when it is given and what has
    changed then. The transitions of `Accounts` are exactly these outcomes. */
module AccountOutcomes {
  import opened A = Accounts
  import opened Catalogue
  import opened Keys
  import opened Prelude

  /** One verification token was created: its text names the user and the lower-case address. */
  ghost predicate TokenSent(w: World, w1: World, user: string, address: string) {
    && w1.nextToken == w.nextToken + 1
    && w1.tokens == w.tokens[w.nextToken := Entry(user + [SEPARATOR] + Lower(address), w.now + w.verifyTtl * SECOND)]
    && w1.sent == w.sent[w.nextToken := Sent(user, Lower(address), w.now)]
  }

  ghost predicate NoTokenSent(w: World, w1: World) {
    w1.tokens == w.tokens && w1.sent == w.sent && w1.nextToken == w.nextToken
  }

  ghost predicate SameClock(w: World, w1: World) { w1.now == w.now && w1.verifyTtl == w.verifyTtl }

  /** Presented at `verify_email`, such a token reads back as the user and the address. */
  lemma SentTokenDecodes(w: World, w1: World, user: string, address: string)
    requires TokenSent(w, w1, user, address) && IsUserId(user)
    ensures w.nextToken in w1.tokens && DecodeEmailVerify(w1.tokens[w.nextToken].value) == (user, Some(Lower(address)))
  {
    EmailVerifyRoundTrip(user, Some(address));
  }

  // ---- Email changes ----

  /** The address is pending for row `u`, unconfirmed, and a token for it is on its way. No other row
      and no other column changed. */
  ghost predicate EmailRequested(w: World, w1: World, u: nat, address: string)
    requires u < |w.users|
  {
    && w1.users == w.users[u := w.users[u].(pending := Some(address), verified := false)]
    && w1.roles == w.roles && SameClock(w, w1)
    && TokenSent(w, w1, w.users[u].id, address)
  }

  /** A live user other than `except` has the address, on either column. */
  predicate InUse(users: seq<User>, address: string, except: Option<nat>) {
    exists v :: 0 <= v < |users| && Some(v) != except && !users[v].deleted &&
                (users[v].email == address || users[v].pending == Some(address))
  }

  predicate AddressUsed(w: World, u: nat, address: string) { InUse(w.users, Lower(address), Some(u)) }

  /** Another row, live or deleted, collides with the user's row on a unique index once the address is
      pending. */
  predicate AddressIndexed(w: World, u: nat, address: string)
    requires u < |w.users|
  {
    exists v :: 0 <= v < |w.users| && v != u &&
                (w.users[v].email == w.users[u].email || w.users[v].pending == Some(address))
  }

  predicate KnowsPassword(user: User, password: string) {
    user.password.Some? && VerifyPassword(password, user.password.value)
  }

  ghost predicate SelfEmailOutcome(w: World, u: nat, email: string, password: string, w1: World, reply: Reply) {
    if !Live(w, u) then reply == Failed(NotFound) && w1 == w
    else
      var (user, address) := (w.users[u], Lower(email));
      match reply
      case Done =>
        && address != user.email && KnowsPassword(user, password)
        && !AddressUsed(w, u, address) && !AddressIndexed(w, u, address)
        && EmailRequested(w, w1, u, address)
      case Failed(e) =>
        && w1 == w
        && match e
           case SameEmail => address == user.email
           case NoPassword => address != user.email && user.password.None?
           case WrongPassword => address != user.email && user.password.Some? && !KnowsPassword(user, password)
           case EmailUsed => address != user.email && KnowsPassword(user, password) && AddressUsed(w, u, address)
           case Integrity => address != user.email && KnowsPassword(user, password) && !AddressUsed(w, u, address) &&
             AddressIndexed(w, u, address)
           case _ => false
  }

  lemma SelfEmailIsOutcome(w: World, u: nat, email: string, password: string, w1: World, reply: Reply)
    ensures (w1, reply) == UpdateSelfEmail(w, u, email, password) <==>
            SelfEmailOutcome(w, u, email, password, w1, reply)
  {
  }

  /** The actor may administer the row. */
  predicate MayManage(w: World, actor: nat, u: nat, includeDeleted: bool) {
    && u < |w.users| && (includeDeleted || !w.users[u].deleted) && u != actor && !HoldsPanelAdmin(w, u)
  }

  predicate HoldsPanelAdmin(w: World, u: nat)
    requires u < |w.users|
  {
    w.users[u].role < |w.roles| && w.roles[w.users[u].role].name == "panel_admin"
  }

  ghost predicate AdminEmailOutcome(w: World, actor: nat, u: nat, email: string, w1: World, reply: Reply) {
    var address := Lower(email);
    match reply
    case Done =>
      && MayManage(w, actor, u, false) && address != w.users[u].email
      && !AddressUsed(w, u, address) && !AddressIndexed(w, u, address)
      && EmailRequested(w, w1, u, address)
    case Failed(e) =>
      && w1 == w
      && match e
         case NotFound => !Live(w, u)
         case SelfAction => Live(w, u) && u == actor
         case ProtectedAdmin => Live(w, u) && u != actor && HoldsPanelAdmin(w, u)
         case SameEmail => MayManage(w, actor, u, false) && address == w.users[u].email
         case EmailUsed => MayManage(w, actor, u, false) && address != w.users[u].email && AddressUsed(w, u, address)
         case Integrity => MayManage(w, actor, u, false) && address != w.users[u].email &&
           !AddressUsed(w, u, address) && AddressIndexed(w, u, address)
         case _ => false
  }

  lemma AdminEmailIsOutcome(w: World, actor: nat, u: nat, email: string, w1: World, reply: Reply)
    ensures (w1, reply) == AdminChangeEmail(w, actor, u, email) <==> AdminEmailOutcome(w, actor, u, email, w1, reply)
  {
  }

  // ---- Verification ----

  /** The live user a token's text names, if there is one. */
  function Owner(w: World, id: string): (r: Option<nat>)
    ensures r.Some? ==> r.value < |w.users|
  {
    var found := FindById(w.users, id, 0);
    if found.Some? && !w.users[found.value].deleted then found else None
  }

  /** Whatever the reply, a live token is gone and no other token is touched. */
  ghost predicate VerifyOutcome(w: World, token: Token, w1: World, reply: Reply) {
    if !TokenLive(w, token) then reply == Failed(InvalidToken) && w1 == w
    else
      var (id, target) := DecodeEmailVerify(w.tokens[token].value);
      var owner := Owner(w, id);
      && w1.tokens == w.tokens - {token} && w1.sent == w.sent && w1.nextToken == w.nextToken
      && w1.roles == w.roles && SameClock(w, w1)
      && if owner.None? then reply == Failed(InvalidToken) && w1.users == w.users
         else
           var (u, user) := (owner.value, w.users[owner.value]);
           var address := if target == Some("") then None else target;
           if address.Some? && user.pending == address then
             var renamed := user.(email := address.value, pending := None, verified := true);
             if exists v :: 0 <= v < |w.users| && v != u && w.users[v].email == address.value then
               reply == Failed(Integrity) && w1.users == w.users
             else reply == Done && w1.users == w.users[u := renamed]
           else if address == None || user.email == address.value then
             reply == Done && w1.users == w.users[u := user.(verified := true)]
           else reply == Failed(InvalidToken) && w1.users == w.users
  }

  lemma VerifyIsOutcome(w: World, token: Token, w1: World, reply: Reply)
    ensures (w1, reply) == VerifyEmail(w, token) <==> VerifyOutcome(w, token, w1, reply)
  {
  }

  // ---- New users ----

  /** Some row, live or deleted, keeps the new one out: by its id, its addresses or its name. */
  predicate RowConflicts(w: World, user: User) {
    exists u :: 0 <= u < |w.users| &&
      (w.users[u].id == user.id || w.users[u].email == user.email ||
       (user.pending.Some? && w.users[u].pending == user.pending) ||
       (user.username.Some? && w.users[u].username == user.username))
  }

  lemma AddUserIff(w: World, user: User)
    requires IsUserId(user.id) && user.role < |w.roles|
    ensures AddUser(w, user) == if RowConflicts(w, user) then Err(Integrity) else Ok(w.(users := w.users + [user]))
  {
  }

  /** Some row, live or deleted, has the id, the address or the user name. */
  predicate Occupied(w: World, id: string, address: string, username: Option<string>) {
    exists u :: 0 <= u < |w.users| &&
      (w.users[u].id == id || w.users[u].email == address || (username.Some? && w.users[u].username == username))
  }

  predicate LiveRole(roles: seq<Role>, name: string, onlySystem: bool, r: RoleId) {
    r < |roles| && !roles[r].deleted && roles[r].name == name && (onlySystem ==> roles[r].system)
  }

  /** The role that a lookup by name answers: the first live one. */
  ghost predicate FirstRole(roles: seq<Role>, name: string, onlySystem: bool, r: RoleId) {
    LiveRole(roles, name, onlySystem, r) && forall v :: 0 <= v < r ==> !LiveRole(roles, name, onlySystem, v)
  }

  /** The first live system "app_user"; without one, the first live "app_user"; without one, a new
      system role with the starting permissions. */
  ghost predicate DefaultRoleIs(roles: seq<Role>, roles1: seq<Role>, r: RoleId) {
    || (FirstRole(roles, "app_user", true, r) && roles1 == roles)
    || (FirstRole(roles, "app_user", false, r) && roles1 == roles &&
        forall v: RoleId :: LiveRole(roles, "app_user", false, v) ==> !roles[v].system)
    || (r == |roles| && roles1 == roles + [Role("app_user", true, false, APP_USER_PERMISSIONS)] &&
        forall v: RoleId :: !LiveRole(roles, "app_user", false, v))
  }

  lemma RoleIsFirst(roles: seq<Role>, name: string, onlySystem: bool, r: RoleId)
    ensures FindRole(roles, name, onlySystem, 0) == Some(r) <==> FirstRole(roles, name, onlySystem, r)
  {
    var found := FindRole(roles, name, onlySystem, 0);
    assert found.Some? ==> FirstRole(roles, name, onlySystem, found.value);
  }

  lemma DefaultRoleIff(roles: seq<Role>, roles1: seq<Role>, r: RoleId)
    ensures DefaultRole(roles) == (roles1, r) <==> DefaultRoleIs(roles, roles1, r)
  {
    forall v: RoleId, onlySystem: bool
      ensures FindRole(roles, APP_USER, onlySystem, 0) == Some(v) <==> FirstRole(roles, APP_USER, onlySystem, v)
    {
      RoleIsFirst(roles, APP_USER, onlySystem, v);
    }
  }

  /** A client starts unverified, active, with the default role and a token for its address. */
  ghost predicate RegisterOutcome(w: World, id: string, email: string, password: string, w1: World, reply: Reply) {
    var address := Lower(email);
    var refused := InUse(w.users, address, None) || Occupied(w, id, address, None);
    match reply
    case Done =>
      && !refused && |w1.users| == |w.users| + 1
      && var role := w1.users[|w.users|].role;
         && DefaultRoleIs(w.roles, w1.roles, role)
         && w1.users == w.users +
              [User(id, address, None, None, role, ClientSurface, Some(Digest(password)), true, false, false)]
         && SameClock(w, w1) && TokenSent(w, w1, id, address)
    case Failed(e) => refused && e == EmailUsed && w1 == w
  }

  /** What the service has established when it is done is the outcome. */
  lemma RegisteredIsOutcome(w: World, id: string, email: string, password: string, role: RoleId, w1: World)
    requires !EmailExists(w.users, email, None) && !RowConflicts(w, NewClient(id, email, role, password))
    requires DefaultRoleIs(w.roles, w1.roles, role) && w1.users == w.users + [NewClient(id, email, role, password)]
    requires SameClock(w, w1) && TokenSent(w, w1, id, Lower(email))
    ensures RegisterOutcome(w, id, email, password, w1, Done)
  {
  }

  lemma RefusalIsOutcome(w: World, id: string, email: string, password: string, role: RoleId)
    requires EmailExists(w.users, email, None) || RowConflicts(w, NewClient(id, email, role, password))
    ensures RegisterOutcome(w, id, email, password, w, Failed(EmailUsed))
  {
  }

  /** What the transition does once the default role is known. */
  lemma RegisterWithRole(w: World, id: string, email: string, password: string, roles: seq<Role>, role: RoleId)
    requires IsUserId(id) && DefaultRole(w.roles) == (roles, role)
    ensures var user := NewClient(id, email, role, password);
            Register(w, id, email, password) ==
            if EmailExists(w.users, email, None) || RowConflicts(w, user) then (w, Failed(EmailUsed))
            else (SendToken(w.(roles := roles, users := w.users + [user]), |w.users|, Lower(email)), Done)
  {
    AddUserIff(w.(roles := roles), NewClient(id, email, role, password));
    LowerIsLower(email);
  }

  lemma WritesAreOutcome(w: World, id: string, email: string, password: string, roles: seq<Role>, role: RoleId,
                         w1: World, reply: Reply)
    requires DefaultRoleIs(w.roles, roles, role)
    requires var user := NewClient(id, email, role, password);
             (w1, reply) ==
             if EmailExists(w.users, email, None) || RowConflicts(w, user) then (w, Failed(EmailUsed))
             else (SendToken(w.(roles := roles, users := w.users + [user]), |w.users|, Lower(email)), Done)
    ensures RegisterOutcome(w, id, email, password, w1, reply)
  {
    LowerIsLower(email);
    if reply.Done? {
      RegisteredIsOutcome(w, id, email, password, role, w1);
    } else {
      RefusalIsOutcome(w, id, email, password, role);
    }
  }

  lemma RegisterMeetsOutcome(w: World, id: string, email: string, password: string, w1: World, reply: Reply)
    requires IsUserId(id) && (w1, reply) == Register(w, id, email, password)
    ensures RegisterOutcome(w, id, email, password, w1, reply)
  {
    var (roles, role) := DefaultRole(w.roles);
    DefaultRoleIff(w.roles, roles, role);
    RegisterWithRole(w, id, email, password, roles, role);
    WritesAreOutcome(w, id, email, password, roles, role, w1, reply);
  }

  /** The outcome leaves nothing open. */
  lemma RegisterOutcomeIsUnique(w: World, id: string, email: string, password: string, w1: World, reply: Reply,
                                w2: World, reply2: Reply)
    requires RegisterOutcome(w, id, email, password, w1, reply) && RegisterOutcome(w, id, email, password, w2, reply2)
    ensures w1 == w2 && reply == reply2
  {
    if reply.Done? {
      DefaultRoleIff(w.roles, w1.roles, w1.users[|w.users|].role);
      DefaultRoleIff(w.roles, w2.roles, w2.users[|w.users|].role);
    }
  }

  lemma RegisterIsOutcome(w: World, id: string, email: string, password: string, w1: World, reply: Reply)
    requires IsUserId(id)
    ensures (w1, reply) == Register(w, id, email, password) <==> RegisterOutcome(w, id, email, password, w1, reply)
  {
    var (w2, reply2) := Register(w, id, email, password);
    RegisterMeetsOutcome(w, id, email, password, w2, reply2);
    if RegisterOutcome(w, id, email, password, w1, reply) {
      RegisterOutcomeIsUnique(w, id, email, password, w1, reply, w2, reply2);
    }
  }

  lemma DefaultRoleIsAppUser(roles: seq<Role>, roles1: seq<Role>, r: RoleId)
    requires DefaultRoleIs(roles, roles1, r)
    ensures LiveRole(roles1, "app_user", false, r)
    ensures roles1[r].system || forall v: RoleId :: !LiveRole(roles, "app_user", true, v)
    ensures if exists v: RoleId :: LiveRole(roles, "app_user", false, v) then roles1 == roles
            else r == |roles| && roles1 == roles + [Role("app_user", true, false, APP_USER_PERMISSIONS)]
  {
    forall v: RoleId
      ensures LiveRole(roles, "app_user", true, v) <==> LiveRole(roles, "app_user", false, v) && roles[v].system
    {
    }
  }

  /** Whoever registers holds a live "app_user" role, a system one if there is any. The role table
      grows iff no live "app_user" existed, by a system one that does not open the admin panel. */
  lemma RegistrationGivesAppUser(w: World, id: string, email: string, password: string, w1: World)
    requires IsUserId(id) && Register(w, id, email, password) == (w1, Done)
    ensures |w1.users| == |w.users| + 1 && LiveRole(w1.roles, "app_user", false, w1.users[|w.users|].role)
    ensures var r := w1.users[|w.users|].role;
            && (w1.roles[r].system || forall v: RoleId :: !LiveRole(w.roles, "app_user", true, v))
            && (if exists v: RoleId :: LiveRole(w.roles, "app_user", false, v) then w1.roles == w.roles
                else |w1.roles| == |w.roles| + 1 && w1.roles[..|w.roles|] == w.roles && r == |w.roles| &&
                     w1.roles[r].system && |w1.roles[r].perms| == 16 && !ReachesPanel(w1, r))
  {
    RegisterIsOutcome(w, id, email, password, w1, Done);
    DefaultRoleIsAppUser(w.roles, w1.roles, w1.users[|w.users|].role);
    SixteenPermissions();
    forall p | p in APP_USER_PERMISSIONS ensures p !in ADMIN_SURFACE_PERMISSIONS { StartingPermissionsStayOutside(p); }
  }

  /** An admin starts active, unverified and without a password, with a role that reaches the panel. */
  ghost predicate AdminUserOutcome(w: World, id: string, email: string, username: Option<string>, roleName: string,
                                   w1: World, reply: Reply)
  {
    var address := Lower(email);
    var used := InUse(w.users, address, None);
    var named := username.Some? && username.value != "" &&
                 exists u :: 0 <= u < |w.users| && !w.users[u].deleted && w.users[u].username == username;
    match reply
    case Done =>
      && !used && !named && !Occupied(w, id, address, username) && |w1.users| == |w.users| + 1
      && var role := w1.users[|w.users|].role;
         && FirstRole(w.roles, roleName, false, role) && ReachesPanel(w, role)
         && w1.users == w.users + [User(id, address, None, username, role, AdminSurface, None, true, false, false)]
         && w1.roles == w.roles && SameClock(w, w1) && NoTokenSent(w, w1)
    case Failed(e) =>
      && w1 == w
      && match e
         case EmailUsed => used
         case UsernameUsed => !used && named
         case NotFound => !used && !named && forall r: RoleId :: !LiveRole(w.roles, roleName, false, r)
         case NotAdminRole =>
           !used && !named && exists r: RoleId :: FirstRole(w.roles, roleName, false, r) && !ReachesPanel(w, r)
         case Integrity =>
           && !used && !named && Occupied(w, id, address, username)
           && exists r: RoleId :: FirstRole(w.roles, roleName, false, r) && ReachesPanel(w, r)
         case _ => false
  }

  /** The role has a permission that only the admin panel asks for. */
  ghost predicate ReachesPanel(w: World, r: RoleId) {
    r < |w.roles| && exists p :: p in w.roles[r].perms && p in ADMIN_SURFACE_PERMISSIONS
  }

  lemma ReachesPanelIff(w: World, r: RoleId)
    requires r < |w.roles|
    ensures HasAdminSurfaceAccess(w.roles[r].perms) <==> ReachesPanel(w, r)
  {
    var both := w.roles[r].perms * ADMIN_SURFACE_PERMISSIONS;
    if both != {} {
      var p :| p in both;
      assert p in w.roles[r].perms;
    } else {
      forall p | p in w.roles[r].perms ensures p !in ADMIN_SURFACE_PERMISSIONS { assert p !in both; }
    }
  }

  lemma AdminUserIsOutcome(w: World, id: string, email: string, username: Option<string>, roleName: string, w1: World,
                           reply: Reply)
    requires IsUserId(id)
    ensures (w1, reply) == CreateAdminUser(w, id, email, username, roleName) <==>
            AdminUserOutcome(w, id, email, username, roleName, w1, reply)
  {
    AdminUserMeetsOutcome(w, id, email, username, roleName);
    if AdminUserOutcome(w, id, email, username, roleName, w1, reply) {
      AdminUserOutcomeIsUnique(w, id, email, username, roleName, w1, reply);
    }
  }

  lemma AdminUserMeetsOutcome(w: World, id: string, email: string, username: Option<string>, roleName: string)
    requires IsUserId(id)
    ensures var (w1, reply) := CreateAdminUser(w, id, email, username, roleName);
            AdminUserOutcome(w, id, email, username, roleName, w1, reply)
  {
    LowerIsLower(email);
    var role := FindRole(w.roles, roleName, false, 0);
    if EmailExists(w.users, Lower(email), None) || UsernameTaken(w.users, username) {
      assert CreateAdminUser(w, id, email, username, roleName).0 == w;
    } else if role.Some? {
      assert FirstRole(w.roles, roleName, false, role.value);
      ReachesPanelIff(w, role.value);
      AddUserIff(w, NewAdmin(id, email, username, role.value));
    }
  }

  lemma AdminUserOutcomeIsUnique(w: World, id: string, email: string, username: Option<string>, roleName: string,
                                 w1: World, reply: Reply)
    requires IsUserId(id) && AdminUserOutcome(w, id, email, username, roleName, w1, reply)
    ensures (w1, reply) == CreateAdminUser(w, id, email, username, roleName)
  {
    LowerIsLower(email);
    match reply
    case Done =>
      var role := w1.users[|w.users|].role;
      RoleIsFirst(w.roles, roleName, false, role);
      ReachesPanelIff(w, role);
      AddUserIff(w, NewAdmin(id, email, username, role));
    case Failed(_) =>
      AdminUserMeetsOutcome(w, id, email, username, roleName);
      forall r: RoleId, s: RoleId | FirstRole(w.roles, roleName, false, r) && FirstRole(w.roles, roleName, false, s)
        ensures r == s
      {
        RoleIsFirst(w.roles, roleName, false, r);
        RoleIsFirst(w.roles, roleName, false, s);
      }
  }

  // ---- Administration ----

  /** The refusals of a call on a target that the actor may not administer. */
  ghost predicate TargetRefused(w: World, actor: nat, u: nat, includeDeleted: bool, e: Error) {
    var found := u < |w.users| && (includeDeleted || !w.users[u].deleted);
    match e
    case NotFound => !found
    case SelfAction => found && u == actor
    case ProtectedAdmin => found && u != actor && HoldsPanelAdmin(w, u)
    case _ => false
  }

  /** What a call that manages a user does: one column of the target's row, or a refusal that
      changes nothing. */
  ghost predicate ManageOutcome(w: World, call: Call, w1: World, reply: Reply) {
    match call
    case DoSetActive(actor, u, active) =>
      if MayManage(w, actor, u, false) then
        reply == Done && w1 == w.(users := w.users[u := w.users[u].(active := active)])
      else reply.Failed? && w1 == w && TargetRefused(w, actor, u, false, reply.error)
    case DoAssignRole(actor, u, name) =>
      if MayManage(w, actor, u, false) then
        if exists r: RoleId :: FirstRole(w.roles, name, false, r) then
          && reply == Done && |w1.users| == |w.users|
          && var r := w1.users[u].role;
             FirstRole(w.roles, name, false, r) && w1 == w.(users := w.users[u := w.users[u].(role := r)])
        else reply == Failed(NotFound) && w1 == w && forall r: RoleId :: !LiveRole(w.roles, name, false, r)
      else reply.Failed? && w1 == w && TargetRefused(w, actor, u, false, reply.error)
    case DoSoftDelete(actor, u) =>
      if MayManage(w, actor, u, false) then
        reply == Done && w1 == w.(users := w.users[u := w.users[u].(deleted := true)])
      else reply.Failed? && w1 == w && TargetRefused(w, actor, u, false, reply.error)
    case DoRestore(actor, u) =>
      if !MayManage(w, actor, u, true) then reply.Failed? && w1 == w && TargetRefused(w, actor, u, true, reply.error)
      else if w.users[u].deleted then
        reply == Done && w1 == w.(users := w.users[u := w.users[u].(deleted := false)])
      else reply == Failed(NotDeleted) && w1 == w
    case DoResendUserVerification(actor, u) =>
      if !MayManage(w, actor, u, false) then reply.Failed? && w1 == w && TargetRefused(w, actor, u, false, reply.error)
      else if w.users[u].pending.Some? then reply == Done && OnlyTokenSent(w, w1, u, w.users[u].pending.value)
      else if !w.users[u].verified then reply == Done && OnlyTokenSent(w, w1, u, w.users[u].email)
      else reply == Failed(NothingPending) && w1 == w
    case _ => false
  }

  ghost predicate OnlyTokenSent(w: World, w1: World, u: nat, address: string)
    requires u < |w.users|
  {
    w1.users == w.users && w1.roles == w.roles && SameClock(w, w1) && TokenSent(w, w1, w.users[u].id, address)
  }

  lemma ManageIsOutcome(w: World, call: Call)
    requires call.DoSetActive? || call.DoAssignRole? || call.DoSoftDelete? || call.DoRestore? ||
             call.DoResendUserVerification?
    ensures var (w1, reply) := Step(w, call); ManageOutcome(w, call, w1, reply)
  {
    if call.DoAssignRole? {
      var found := FindRole(w.roles, call.roleName, false, 0);
      forall r: RoleId ensures found == Some(r) <==> FirstRole(w.roles, call.roleName, false, r) {
        RoleIsFirst(w.roles, call.roleName, false, r);
      }
    }
  }

  /** Row u is the first live, active one with the address in the column that is searched. */
  ghost predicate FirstReached(users: seq<User>, address: string, byPending: bool, u: nat) {
    && u < |users| && Reached(users[u], address, byPending)
    && forall v :: 0 <= v < u ==> !Reached(users[v], address, byPending)
  }

  ghost predicate Reached(user: User, address: string, byPending: bool) {
    user.active && !user.deleted && (if byPending then user.pending == Some(address) else user.email == address)
  }

  /** Another mail goes to the unverified user of the address, or else to whoever has it pending; the
      caller cannot tell. */
  ghost predicate ResendOutcome(w: World, email: string, w1: World, reply: Reply) {
    var address := Lower(email);
    var unverified := exists u: nat :: FirstReached(w.users, address, false, u) && !w.users[u].verified;
    && reply == Done
    && if unverified then
         exists u: nat :: FirstReached(w.users, address, false, u) && OnlyTokenSent(w, w1, u, address)
       else if address != "" && exists u: nat :: FirstReached(w.users, address, true, u) then
         exists u: nat :: FirstReached(w.users, address, true, u) && OnlyTokenSent(w, w1, u, address)
       else w1 == w
  }

  lemma ResendIsOutcome(w: World, email: string)
    ensures var (w1, reply) := ResendVerification(w, email); ResendOutcome(w, email, w1, reply)
  {
    forall b: bool, u: nat
      ensures FindActive(w.users, Lower(email), b, 0) == Some(u) <==> FirstReached(w.users, Lower(email), b, u)
    {
      ReachedIsFirst(w.users, Lower(email), b, u);
    }
  }

  lemma ReachedIsFirst(users: seq<User>, address: string, byPending: bool, u: nat)
    ensures FindActive(users, address, byPending, 0) == Some(u) <==> FirstReached(users, address, byPending, u)
  {
    var found := FindActive(users, address, byPending, 0);
    assert found.Some? ==> FirstReached(users, address, byPending, found.value);
  }

  /** Roles: a name is taken while a live role has it, system roles are not changed, and a role is
      deleted only when no live user holds it. */
  ghost predicate RoleOutcome(w: World, call: Call, w1: World, reply: Reply) {
    match call
    case DoCreateRole(name, perms) =>
      if exists r: RoleId :: LiveRole(w.roles, name, false, r) then reply == Failed(AlreadyExists) && w1 == w
      else reply == Done && w1 == w.(roles := w.roles + [Role(name, false, false, perms)])
    case DoUpdateRole(r, perms) =>
      if r >= |w.roles| || w.roles[r].deleted then reply == Failed(NotFound) && w1 == w
      else if perms.Some? && w.roles[r].system then reply == Failed(SystemRole) && w1 == w
      else
        && reply == Done
        && w1 == if perms == None then w else w.(roles := w.roles[r := w.roles[r].(perms := perms.value)])
    case DoDeleteRole(r) =>
      if r >= |w.roles| || w.roles[r].deleted then reply == Failed(NotFound) && w1 == w
      else if w.roles[r].system then reply == Failed(SystemRole) && w1 == w
      else if exists u :: 0 <= u < |w.users| && w.users[u].role == r && !w.users[u].deleted then
        reply == Failed(HasUsers) && w1 == w
      else reply == Done && w1 == w.(roles := w.roles[r := w.roles[r].(deleted := true)])
    case Tick(elapsed) => reply == Done && w1 == w.(now := w.now + elapsed)
    case _ => false
  }

  lemma RoleIsOutcome(w: World, call: Call)
    requires call.DoCreateRole? || call.DoUpdateRole? || call.DoDeleteRole? || call.Tick?
    ensures var (w1, reply) := Step(w, call); RoleOutcome(w, call, w1, reply)
  {
    if call.DoCreateRole? {
      var found := FindRole(w.roles, call.name, false, 0);
      forall r: RoleId ensures LiveRole(w.roles, call.name, false, r) ==> found.Some? {
      }
      assert found.Some? ==> LiveRole(w.roles, call.name, false, found.value);
    }
  }

  /** Restoring undoes a soft-deletion completely, whoever does either. */
  lemma RestoreUndoesSoftDelete(w: World, deleter: nat, restorer: nat, u: nat)
    requires SoftDelete(w, deleter, u).1.Done? && restorer != u
    ensures Restore(SoftDelete(w, deleter, u).0, restorer, u) == (w, Done)
  {
    assert w.users[u := w.users[u].(deleted := true)][u := w.users[u]] == w.users;
  }
}
