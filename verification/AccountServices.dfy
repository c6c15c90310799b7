/** Registration, email changes and email verification as they run over the tables and Redis. */
module AccountServices {
  import opened A = Accounts
  import opened AccountOutcomes
  import opened Catalogue
  import opened Keys
  import opened Prelude

  class UserService {
    const verifyTtl: nat
    var now: nat
    var users: seq<User>
    var roles: seq<Role>
    var tokens: map<Token, Entry>
    var sent: map<Token, Sent>
    var nextToken: Token

    constructor (verifyTtl: nat, now: nat, roles: seq<Role>)
      ensures State() == World(now, [], roles, map[], map[], 0, verifyTtl)
    {
      this.verifyTtl, this.now, this.roles := verifyTtl, now, roles;
      users, tokens, sent, nextToken := [], map[], map[], 0;
    }

    function State(): World
      reads this
    {
      World(now, users, roles, tokens, sent, nextToken, verifyTtl)
    }

    // ---- Repository queries and writes ----

    /** Counts the live rows, other than `except`, that claim the address. */
    method EmailExists(email: string, except: Option<nat>) returns (found: bool)
      ensures found == A.EmailExists(users, email, except)
    {
      var normalized := Lower(email);
      var count := 0;
      for u := 0 to |users|
        invariant count > 0 <==>
                  exists v :: 0 <= v < u && Some(v) != except && !users[v].deleted && Claims(users[v], normalized)
        invariant count >= 0
      {
        if (users[u].email == normalized || users[u].pending == Some(normalized)) && !users[u].deleted &&
          Some(u) != except {
          count := count + 1;
        }
      }
      found := count > 0;
    }

    /** INSERT, refused by the primary key and the unique indexes. */
    method AddRow(user: User) returns (ok: bool)
      modifies `users
      ensures ok <==> !RowConflicts(old(State()), user)
      ensures users == if ok then old(users) + [user] else old(users)
    {
      for u := 0 to |users|
        invariant users == old(users)
        invariant forall v :: 0 <= v < u ==>
          users[v].id != user.id && users[v].email != user.email &&
          (user.pending.Some? ==> users[v].pending != user.pending) &&
            (user.username.Some? ==> users[v].username != user.username)
      {
        var row := users[u];
        if row.id == user.id || row.email == user.email { return false; }
        if user.pending.Some? && row.pending == user.pending { return false; }
        if user.username.Some? && row.username == user.username { return false; }
      }
      users := users + [user];
      ok := true;
    }

    /** UPDATE of a row's address columns, refused by the unique indexes. */
    method UpdateEmails(u: nat, email: string, pending: Option<string>, verified: bool) returns (ok: bool)
      requires u < |users|
      modifies `users
      ensures ok <==> !ViolatesUnique(old(users), u, email, pending)
      ensures users == if ok then
              old(users)[u := old(users)[u].(email := email, pending := pending, verified := verified)] else old(users)
    {
      for v := 0 to |users|
        invariant users == old(users)
        invariant forall k :: 0 <= k < v && k != u ==>
                  users[k].email != email && (pending.Some? ==> users[k].pending != pending)
      {
        if v != u && (users[v].email == email || (pending.Some? && users[v].pending == pending)) { return false; }
      }
      users := users[u := users[u].(email := email, pending := pending, verified := verified)];
      ok := true;
    }

    method IssueVerificationEmail(user: string, address: string)
      modifies `tokens, `sent, `nextToken
      ensures TokenSent(old(State()), State(), user, address)
    {
      var token := nextToken;
      nextToken := token + 1;
      tokens := tokens[token := Entry(EncodeEmailVerify(user, Some(address)), now + verifyTtl * SECOND)];
      sent := sent[token := Sent(user, Lower(address), now)];
    }

    /** `_get_manageable_target_or_raise`, with its refusals in order. */
    method GetManageableTarget(actor: nat, u: nat, includeDeleted: bool) returns (error: Option<Error>)
      ensures error == None <==> MayManage(State(), actor, u, includeDeleted)
      ensures error == Some(NotFound) <==> u >= |users| || (users[u].deleted && !includeDeleted)
      ensures error == Some(SelfAction) ==> u == actor
      ensures error == Some(ProtectedAdmin) ==> u < |users| && u != actor && HoldsPanelAdmin(State(), u)
      ensures error.Some? ==> error.value in {NotFound, SelfAction, ProtectedAdmin}
    {
      if u >= |users| { return Some(NotFound); }
      var target := users[u];
      if target.deleted && !includeDeleted { return Some(NotFound); }
      if u == actor { return Some(SelfAction); }
      if target.role < |roles| && roles[target.role].name == PANEL_ADMIN { return Some(ProtectedAdmin); }
      error := None;
    }

    // ---- New users ----

    /** `_get_default_role_id`; the new row is written when the registration goes through. */
    method GetDefaultRole() returns (withDefault: seq<Role>, role: RoleId)
      ensures DefaultRoleIs(roles, withDefault, role)
    {
      var r := FindRole(roles, APP_USER, true, 0);
      if r.None? { r := FindRole(roles, APP_USER, false, 0); }
      if r.Some? {
        withDefault, role := roles, r.value;
      } else {
        withDefault, role := roles + [Role(APP_USER, true, false, APP_USER_PERMISSIONS)], |roles|;
      }
      DefaultRoleIff(roles, withDefault, role);
    }

    method Register(id: string, email: string, password: string) returns (reply: Reply)
      modifies this
      ensures RegisterOutcome(old(State()), id, email, password, State(), reply)
    {
      ghost var before := State();
      var taken := EmailExists(email, None);
      var withDefault, role := GetDefaultRole();
      var added := false;
      if !taken { added := Enroll(NewClient(id, email, role, password), withDefault); }
      if added {
        RegisteredIsOutcome(before, id, email, password, role, State());
      } else {
        RefusalIsOutcome(before, id, email, password, role);
      }
      reply := if added then Done else Failed(EmailUsed);
    }

    /** The writes of a registration, all or none. */
    method Enroll(user: User, withDefault: seq<Role>) returns (added: bool)
      modifies this
      ensures added <==> !RowConflicts(old(State()), user)
      ensures added ==>
                && users == old(users) + [user] && roles == withDefault && SameClock(old(State()), State())
                && TokenSent(old(State()), State(), user.id, user.email)
      ensures !added ==> State() == old(State())
    {
      added := AddRow(user);
      if added {
        roles := withDefault;
        IssueVerificationEmail(user.id, user.email);
      }
    }

    method CreateAdminUser(id: string, email: string, username: Option<string>, roleName: string) returns (reply: Reply)
      modifies this
      ensures AdminUserOutcome(old(State()), id, email, username, roleName, State(), reply)
    {
      var taken := EmailExists(email, None);
      if taken { return Failed(EmailUsed); }
      if UsernameTaken(users, username) { return Failed(UsernameUsed); }
      var role := FindRole(roles, roleName, false, 0);
      if role.None? { return Failed(NotFound); }
      assert FirstRole(roles, roleName, false, role.value);
      ReachesPanelIff(State(), role.value);
      if !HasAdminSurfaceAccess(roles[role.value].perms) { return Failed(NotAdminRole); }
      var added := AddRow(NewAdmin(id, email, username, role.value));
      reply := if added then Done else Failed(Integrity);
    }

    // ---- Email changes ----

    /** What the two ways of changing an address share. */
    method RequestEmail(u: nat, address: string) returns (reply: Reply)
      requires u < |users| && IsLower(address)
      modifies this
      ensures match reply
              case Done =>
                && !AddressUsed(old(State()), u, address) && !AddressIndexed(old(State()), u, address)
                && EmailRequested(old(State()), State(), u, address)
              case Failed(e) =>
                && State() == old(State()) && e in {EmailUsed, Integrity}
                && (e == EmailUsed <==> AddressUsed(State(), u, address))
                && (e == Integrity ==> AddressIndexed(State(), u, address))
    {
      var taken := EmailExists(address, Some(u));
      if taken { return Failed(EmailUsed); }
      var updated := UpdateEmails(u, users[u].email, Some(address), false);
      if !updated { return Failed(Integrity); }
      IssueVerificationEmail(users[u].id, address);
      reply := Done;
    }

    method UpdateSelfEmail(u: nat, email: string, password: string) returns (reply: Reply)
      modifies this
      ensures SelfEmailOutcome(old(State()), u, email, password, State(), reply)
    {
      if u >= |users| || users[u].deleted { return Failed(NotFound); }
      var normalized := Lower(email);
      if normalized == users[u].email { return Failed(SameEmail); }
      if users[u].password.None? { return Failed(NoPassword); }
      if !VerifyPassword(password, users[u].password.value) { return Failed(WrongPassword); }
      LowerIsLower(email);
      reply := RequestEmail(u, normalized);
    }

    method AdminChangeEmail(actor: nat, u: nat, email: string) returns (reply: Reply)
      modifies this
      ensures AdminEmailOutcome(old(State()), actor, u, email, State(), reply)
    {
      var error := GetManageableTarget(actor, u, false);
      if error.Some? { return Failed(error.value); }
      if Lower(email) == users[u].email { return Failed(SameEmail); }
      LowerIsLower(email);
      reply := RequestEmail(u, Lower(email));
    }

    /** The token is consumed whatever follows; an already verified user is not written again. */
    method VerifyEmail(token: Token) returns (reply: Reply)
      modifies this
      ensures VerifyOutcome(old(State()), token, State(), reply)
    {
      if token !in tokens || now >= tokens[token].expires { return Failed(InvalidToken); }
      var raw := tokens[token].value;
      tokens := tokens - {token};
      var (id, target) := DecodeEmailVerify(raw);
      var found := FindById(users, id, 0);
      if found.None? || users[found.value].deleted { return Failed(InvalidToken); }
      var u := found.value;
      if target.Some? && target.value != "" && users[u].pending == target {
        var ok := UpdateEmails(u, target.value, None, true);
        return if ok then Done else Failed(Integrity);
      }
      if target.Some? && target.value != "" && users[u].email != target.value { return Failed(InvalidToken); }
      assert users[u].verified ==> users == users[u := users[u].(verified := true)];
      if !users[u].verified {
        users := users[u := users[u].(verified := true)];
      }
      reply := Done;
    }
  }
}
