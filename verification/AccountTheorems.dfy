/** Addresses belong to one live user, change only by proof of receipt, and panel admins stay. */
module AccountTheorems {
  import opened Accounts
  import opened Catalogue
  import opened Keys
  import opened Prelude

  // ---- The address namespace ----

  /** The two users claim a common address. */
  ghost predicate Overlap(a: User, b: User) {
    exists address :: Claims(a, address) && Claims(b, address)
  }

  /** Two users overlap iff an email of one is an address of the other, or their pending emails agree. */
  lemma OverlapIff(a: User, b: User)
    ensures Overlap(a, b) <==> a.email == b.email || a.pending == Some(b.email) || b.pending == Some(a.email) ||
                               (a.pending.Some? && a.pending == b.pending)
  {
    assert Claims(a, a.email) && Claims(b, b.email);
    assert a.pending.Some? ==> Claims(a, a.pending.value);
    assert b.pending.Some? ==> Claims(b, b.pending.value);
  }

  ghost predicate Disjoint(users: seq<User>) {
    forall u, v :: 0 <= u < |users| && 0 <= v < |users| && u != v && !users[u].deleted && !users[v].deleted ==>
      !Overlap(users[u], users[v])
  }

  ghost predicate LowerCase(users: seq<User>) {
    forall u, address :: 0 <= u < |users| && Claims(users[u], address) ==> IsLower(address)
  }

  ghost predicate Namespace(w: World) { Disjoint(w.users) && LowerCase(w.users) }

  /** A live row may be written if no other live row shares an address with it. */
  lemma WriteKeepsDisjoint(users: seq<User>, u: nat, row: User)
    requires Disjoint(users) && u < |users|
    requires !row.deleted ==> forall v :: 0 <= v < |users| && v != u && !users[v].deleted ==> !Overlap(row, users[v])
    ensures Disjoint(users[u := row])
  {
  }

  lemma AppendKeepsNamespace(w: World, row: User)
    requires Namespace(w) && row.pending == None && IsLower(row.email)
    requires !EmailExists(w.users, row.email, None)
    ensures Namespace(w.(users := w.users + [row]))
  {
  }

  lemma RequestKeepsNamespace(w: World, u: nat, email: string)
    requires Namespace(w) && Live(w, u)
    ensures Namespace(RequestEmail(w, u, Lower(email)).0)
  {
  }

  lemma VerifyKeepsNamespace(w: World, token: Token)
    requires Namespace(w)
    ensures Namespace(VerifyEmail(w, token).0)
  {
  }

  lemma RowKeepsNamespace(w: World, call: Call, u: nat)
    requires Namespace(w)
    requires (call.DoSetActive? || call.DoAssignRole? || call.DoSoftDelete?) && call.u == u
    ensures Namespace(Step(w, call).0)
  {
  }

  lemma RegisterKeepsNamespace(w: World, id: string, email: string, password: string)
    requires Namespace(w)
    ensures Namespace(Register(w, id, email, password).0)
  {
  }

  lemma InviteKeepsNamespace(w: World, id: string, email: string, username: Option<string>, roleName: string)
    requires Namespace(w)
    ensures Namespace(CreateAdminUser(w, id, email, username, roleName).0)
  {
    LowerIsLower(email);
    if CreateAdminUser(w, id, email, username, roleName).1.Done? {
      var role := FindRole(w.roles, roleName, false, 0).value;
      AppendKeepsNamespace(w, NewAdmin(id, email, username, role));
    }
  }

  lemma AskingKeepsNamespace(w: World, call: Call, u: nat, email: string)
    requires Namespace(w) && (call.DoUpdateSelfEmail? || call.DoAdminChangeEmail?) && call.u == u && call.email == email
    ensures Namespace(Step(w, call).0)
  {
    if Live(w, u) { RequestKeepsNamespace(w, u, email); }
  }

  lemma StepKeepsNamespace(w: World, call: Call)
    requires Namespace(w) && !call.DoRestore?
    ensures Namespace(Step(w, call).0)
  {
    match call
    case DoRegister(id, email, password) => RegisterKeepsNamespace(w, id, email, password);
    case DoCreateAdminUser(id, email, username, roleName) => InviteKeepsNamespace(w, id, email, username, roleName);
    case DoUpdateSelfEmail(u, email, _) => AskingKeepsNamespace(w, call, u, email);
    case DoAdminChangeEmail(_, u, email) => AskingKeepsNamespace(w, call, u, email);
    case DoVerifyEmail(token) => VerifyKeepsNamespace(w, token);
    case DoSetActive(_, u, _) => RowKeepsNamespace(w, call, u);
    case DoAssignRole(_, u, _) => RowKeepsNamespace(w, call, u);
    case DoSoftDelete(_, u) => RowKeepsNamespace(w, call, u);
    case _ =>
  }

  ghost predicate WithoutRestore(calls: seq<Call>) {
    forall i :: 0 <= i < |calls| ==> !calls[i].DoRestore?
  }

  /** In every run without a restore, distinct live users claim disjoint, lower-case addresses. */
  lemma {:induction false} AddressesStayDisjoint(w: World, calls: seq<Call>)
    requires Namespace(w) && WithoutRestore(calls)
    ensures Namespace(Run(w, calls))
    decreases |calls|
  {
    if calls != [] {
      StepKeepsNamespace(w, calls[0]);
      AddressesStayDisjoint(Step(w, calls[0]).0, calls[1..]);
    }
  }

  /** A restore keeps the namespace iff no live user has taken one of the restored addresses. */
  lemma RestoreKeepsNamespaceIff(w: World, actor: nat, u: nat)
    requires Namespace(w) && Restore(w, actor, u).1.Done?
    ensures Namespace(Restore(w, actor, u).0) <==>
            !EmailExists(w.users, w.users[u].email, Some(u)) &&
            (w.users[u].pending.Some? ==> !EmailExists(w.users, w.users[u].pending.value, Some(u)))
  {
    var row := w.users[u].(deleted := false);
    var w1 := Restore(w, actor, u).0;
    assert w1.users == w.users[u := row];
    assert IsLower(row.email) by { assert Claims(w.users[u], row.email); }
    assert row.pending.Some? ==> IsLower(row.pending.value) by {
      assert row.pending.Some? ==> Claims(w.users[u], row.pending.value);
    }
    forall v | 0 <= v < |w.users| && v != u && !w.users[v].deleted
      ensures Overlap(row, w.users[v]) <==>
              Claims(w.users[v], row.email) || (row.pending.Some? && Claims(w.users[v], row.pending.value))
    {
      assert Claims(row, row.email);
      assert row.pending.Some? ==> Claims(row, row.pending.value);
    }
    if !EmailExists(w.users, row.email, Some(u)) &&
      (row.pending.Some? ==> !EmailExists(w.users, row.pending.value, Some(u))) {
      WriteKeepsDisjoint(w.users, u, row);
    } else {
      var v :| 0 <= v < |w.users| && v != u && !w.users[v].deleted &&
               (Claims(w.users[v], row.email) || (row.pending.Some? && Claims(w.users[v], row.pending.value)));
      assert w1.users[v] == w.users[v] && Overlap(w1.users[u], w1.users[v]);
    }
  }

  // ---- A run in which it does ----

  const NEW_SYSTEM := World(0, [], [], map[], map[], 0, 86400)
  const FIRST_ROLES := [Role(APP_USER, true, false, APP_USER_PERMISSIONS)]

  function FirstUser(deleted: bool): User {
    User("a", "x@y", None, None, 0, ClientSurface, Some(Digest("p")), true, false, deleted)
  }

  function SecondUser(pending: Option<string>): User {
    User("b", "z@y", pending, None, 0, ClientSurface, Some(Digest("q")), true, false, false)
  }

  /** "a" registers and is deleted, "b" asks for the address that "a" had, "a" is restored. */
  const COLLIDING_CALLS := [
    DoRegister("a", "x@y", "p"), DoRegister("b", "z@y", "q"), DoSoftDelete(2, 0),
    DoUpdateSelfEmail(1, "x@y", "q"), DoRestore(2, 0)
  ]

  lemma FirstRegisters(w: World)
    requires w == Step(NEW_SYSTEM, COLLIDING_CALLS[0]).0
    ensures w.users == [FirstUser(false)] && w.roles == FIRST_ROLES
  {
    assert Lower("x@y") == "x@y";
  }

  lemma SecondRegisters(w: World, w1: World)
    requires w.users == [FirstUser(false)] && w.roles == FIRST_ROLES && w1 == Step(w, COLLIDING_CALLS[1]).0
    ensures w1.users == [FirstUser(false), SecondUser(None)] && w1.roles == FIRST_ROLES
  {
    assert Lower("z@y") == "z@y" && "z@y" != "x@y" && "b" != "a";
    assert FindRole(w.roles, APP_USER, true, 0) == Some(0);
  }

  lemma FirstIsDeletedAndRestored(w: World, deleted: bool)
    requires |w.users| == 2 && w.users[0] == FirstUser(deleted) && w.roles == FIRST_ROLES
    ensures !deleted ==> Step(w, COLLIDING_CALLS[2]).0 == w.(users := [FirstUser(true), w.users[1]])
    ensures deleted ==> Step(w, COLLIDING_CALLS[4]).0 == w.(users := [FirstUser(false), w.users[1]])
  {
    assert APP_USER != PANEL_ADMIN by { assert |APP_USER| == 8 && |PANEL_ADMIN| == 11; }
  }

  lemma SecondAsksForAddress(w: World, w1: World)
    requires w.users == [FirstUser(true), SecondUser(None)] && w.roles == FIRST_ROLES
    requires w1 == Step(w, COLLIDING_CALLS[3]).0
    ensures w1.users == [FirstUser(true), SecondUser(Some("x@y"))] && w1.roles == FIRST_ROLES
  {
    assert Lower("x@y") == "x@y" && "z@y" != "x@y";
  }

  lemma RunSplits(w: World, call: Call, rest: seq<Call>)
    ensures Run(w, [call] + rest) == Run(Step(w, call).0, rest)
  {
  }

  lemma CollidingRun(w5: World)
    requires w5 == Run(NEW_SYSTEM, COLLIDING_CALLS)
    ensures w5.users == [FirstUser(false), SecondUser(Some("x@y"))]
  {
    var c := COLLIDING_CALLS;
    var w1 := Step(NEW_SYSTEM, c[0]).0;
    var w2 := Step(w1, c[1]).0;
    FirstRegisters(w1);
    SecondRegisters(w1, w2);
    FirstIsDeletedAndRestored(w2, false);
    var w3 := Step(w2, c[2]).0;
    var w4 := Step(w3, c[3]).0;
    SecondAsksForAddress(w3, w4);
    FirstIsDeletedAndRestored(w4, true);
    RunSplits(NEW_SYSTEM, c[0], c[1..]);
    RunSplits(w1, c[1], c[2..]);
    RunSplits(w2, c[2], c[3..]);
    RunSplits(w3, c[3], c[4..]);
    RunSplits(w4, c[4], []);
    assert c == [c[0]] + c[1..] && c[1..] == [c[1]] + c[2..] && c[2..] == [c[2]] + c[3..] && c[3..] == [c[3]] + c[4..];
    assert c[4..] == [c[4]] + [];
  }

  /** From a new system, a run with a restore breaks the namespace: two live users claim one address. */
  lemma RestoreCanBreakNamespace(w: World)
    requires w == Run(NEW_SYSTEM, COLLIDING_CALLS)
    ensures Namespace(NEW_SYSTEM) && !Namespace(w)
  {
    CollidingRun(w);
    assert Claims(w.users[0], "x@y") && Claims(w.users[1], "x@y");
    assert Overlap(w.users[0], w.users[1]);
  }

  // ---- Where a user's email comes from ----

  /** Tokens hold what was sent, and outlive it by the configured TTL. */
  ghost predicate TokensSane(w: World) {
    && (forall t :: t in w.sent ==> t < w.nextToken)
    && (forall t :: t in w.tokens ==>
          && t in w.sent && IsUserId(w.sent[t].user) && IsLower(w.sent[t].address)
          && w.tokens[t].value == EncodeEmailVerify(w.sent[t].user, Some(w.sent[t].address))
          && w.tokens[t].expires == w.sent[t].at + w.verifyTtl * SECOND)
    && (forall u :: 0 <= u < |w.users| ==> IsUserId(w.users[u].id))
  }

  lemma SendKeepsTokens(w: World, u: nat, address: string)
    requires TokensSane(w) && u < |w.users|
    ensures TokensSane(SendToken(w, u, address))
  {
    LowerIsLower(address);
    assert EncodeEmailVerify(w.users[u].id, Some(address)) == EncodeEmailVerify(w.users[u].id, Some(Lower(address)));
  }

  lemma RegisterKeepsTokens(w: World, id: string, email: string, password: string)
    requires TokensSane(w)
    ensures TokensSane(Register(w, id, email, password).0)
  {
    var (roles, role) := DefaultRole(w.roles);
    var added := AddUser(w.(roles := roles), NewClient(id, email, role, password));
    if added.Ok? { SendKeepsTokens(added.value, |w.users|, Lower(email)); }
  }

  lemma ResendKeepsTokens(w: World, call: Call)
    requires TokensSane(w) && (call.DoResendVerification? || call.DoResendUserVerification?)
    ensures TokensSane(Step(w, call).0)
  {
    SendsOrNothing(w, call);
    if u: nat, address :| u < |w.users| && Step(w, call).0 == SendToken(w, u, address) {
      SendKeepsTokens(w, u, address);
    }
  }

  /** A call that asks for another verification mail sends one token or does nothing. */
  lemma SendsOrNothing(w: World, call: Call)
    requires call.DoResendVerification? || call.DoResendUserVerification?
    ensures Step(w, call).0 == w ||
            exists u: nat, address :: u < |w.users| && Step(w, call).0 == SendToken(w, u, address)
  {
  }

  lemma VerifyKeepsIds(w: World, token: Token)
    ensures var w1 := VerifyEmail(w, token).0;
            && (w1.tokens == w.tokens || w1.tokens == w.tokens - {token}) && w1.sent == w.sent &&
               w1.nextToken == w.nextToken && w1.verifyTtl == w.verifyTtl
            && |w1.users| == |w.users| && forall u :: 0 <= u < |w.users| ==> w1.users[u].id == w.users[u].id
  {
  }

  lemma VerifyKeepsTokens(w: World, token: Token)
    requires TokensSane(w)
    ensures TokensSane(VerifyEmail(w, token).0)
  {
    VerifyKeepsIds(w, token);
  }

  lemma StepKeepsTokens(w: World, call: Call)
    requires TokensSane(w)
    ensures TokensSane(Step(w, call).0)
  {
    match call
    case DoRegister(id, email, password) => RegisterKeepsTokens(w, id, email, password);
    case DoUpdateSelfEmail(u, email, _) => RequestKeepsTokens(w, u, Lower(email));
    case DoAdminChangeEmail(_, u, email) => RequestKeepsTokens(w, u, Lower(email));
    case DoResendVerification(_) => ResendKeepsTokens(w, call);
    case DoResendUserVerification(_, _) => ResendKeepsTokens(w, call);
    case DoVerifyEmail(token) => VerifyKeepsTokens(w, token);
    case _ => OtherCallsKeepTokens(w, call);
  }

  /** Calls that leave the tokens alone and only add users with proper ids. */
  ghost predicate SameTokens(w: World, w1: World) {
    && w1.tokens == w.tokens && w1.sent == w.sent && w1.nextToken == w.nextToken && w1.verifyTtl == w.verifyTtl
    && forall u :: 0 <= u < |w1.users| ==>
         IsUserId(w1.users[u].id) || (u < |w.users| && w1.users[u].id == w.users[u].id)
  }

  lemma ManagementSendsNothing(w: World, call: Call)
    requires call.DoSetActive? || call.DoAssignRole? || call.DoSoftDelete? || call.DoRestore?
    ensures SameTokens(w, Step(w, call).0)
  {
  }

  lemma RoleCallsSendNothing(w: World, call: Call)
    requires call.DoCreateRole? || call.DoUpdateRole? || call.DoDeleteRole? || call.Tick?
    ensures SameTokens(w, Step(w, call).0)
  {
  }

  lemma SameTokensSane(w: World, w1: World)
    requires TokensSane(w) && SameTokens(w, w1)
    ensures TokensSane(w1)
  {
  }

  lemma OtherCallsKeepTokens(w: World, call: Call)
    requires TokensSane(w)
    requires call.DoCreateAdminUser? || call.DoSetActive? || call.DoAssignRole? || call.DoSoftDelete? || call.DoRestore?
          || call.DoCreateRole? || call.DoUpdateRole? || call.DoDeleteRole? || call.Tick?
    ensures TokensSane(Step(w, call).0)
  {
    if call.DoSetActive? || call.DoAssignRole? || call.DoSoftDelete? || call.DoRestore? {
      ManagementSendsNothing(w, call);
    } else if !call.DoCreateAdminUser? {
      RoleCallsSendNothing(w, call);
    }
    SameTokensSane(w, Step(w, call).0);
  }

  lemma RequestKeepsTokens(w: World, u: nat, email: string)
    requires TokensSane(w)
    ensures u < |w.users| ==> TokensSane(RequestEmail(w, u, email).0)
  {
    if u < |w.users| {
      var written := WriteEmails(w, u, w.users[u].email, Some(email), false);
      if written.Ok? { SendKeepsTokens(written.value, u, email); }
    }
  }

  lemma {:induction false} RunKeepsTokens(w: World, calls: seq<Call>)
    requires TokensSane(w)
    ensures TokensSane(Run(w, calls))
    decreases |calls|
  {
    if calls != [] {
      StepKeepsTokens(w, calls[0]);
      RunKeepsTokens(Step(w, calls[0]).0, calls[1..]);
    }
  }

  /** The presented token was sent to this user for this address, and is still within its TTL. */
  ghost predicate Proves(w: World, call: Call, user: User, address: string) {
    && call.DoVerifyEmail? && call.token in w.sent
    && w.sent[call.token].user == user.id
    && w.sent[call.token].address == address
    && w.now < w.sent[call.token].at + w.verifyTtl * SECOND
  }

  /** Asking for an address, or for another mail, reaches two columns of a row. */
  ghost predicate OnlyPending(w: World, w1: World, u: nat)
    requires u < |w.users|
  {
    && |w1.users| == |w.users| && w1.roles == w.roles
    && w1.users[u] == w.users[u].(pending := w1.users[u].pending, verified := w1.users[u].verified)
  }

  predicate IsMailCall(call: Call) {
    call.DoUpdateSelfEmail? || call.DoAdminChangeEmail? || call.DoResendVerification? || call.DoResendUserVerification?
  }

  lemma RequestOnlyPending(w: World, target: nat, email: string, u: nat)
    requires target < |w.users| && u < |w.users|
    ensures OnlyPending(w, RequestEmail(w, target, email).0, u)
  {
  }

  lemma MailCallOnlyPending(w: World, call: Call, u: nat)
    requires u < |w.users| && IsMailCall(call)
    ensures OnlyPending(w, Step(w, call).0, u)
  {
    match call
    case DoUpdateSelfEmail(t, email, _) =>
      RequestsOrNothing(w, call, t, email);
      if t < |w.users| { RequestOnlyPending(w, t, Lower(email), u); }
    case DoAdminChangeEmail(_, t, email) =>
      RequestsOrNothing(w, call, t, email);
      if t < |w.users| { RequestOnlyPending(w, t, Lower(email), u); }
    case _ => ResendOnlyPending(w, call, u, Step(w, call).0);
  }

  lemma RequestsOrNothing(w: World, call: Call, t: nat, email: string)
    requires (call.DoUpdateSelfEmail? || call.DoAdminChangeEmail?) && call.u == t && call.email == email
    ensures Step(w, call).0 == w || (t < |w.users| && Step(w, call) == RequestEmail(w, t, Lower(email)))
  {
  }

  lemma ResendOnlyPending(w: World, call: Call, u: nat, w1: World)
    requires u < |w.users| && (call.DoResendVerification? || call.DoResendUserVerification?) && w1 == Step(w, call).0
    ensures OnlyPending(w, w1, u)
  {
    SendsOrNothing(w, call);
    assert w1 == w || exists t: nat, address :: t < |w.users| && w1 == SendToken(w, t, address);
  }

  lemma OnlyVerificationChangesEmail(w: World, call: Call, u: nat)
    requires u < |w.users| && !call.DoVerifyEmail?
    ensures u < |Step(w, call).0.users| && Step(w, call).0.users[u].email == w.users[u].email
  {
    if IsMailCall(call) {
      MailCallOnlyPending(w, call, u);
    } else if call.DoRegister? {
      RegisterOnlyAdds(w, call, u);
    }
  }

  lemma RegisterOnlyAdds(w: World, call: Call, u: nat)
    requires call.DoRegister?
    ensures var w1 := Step(w, call).0;
            && (u < |w.users| ==> u < |w1.users| && w1.users[u] == w.users[u])
            && (u < |w.roles| ==> u < |w1.roles| && w1.roles[u] == w.roles[u])
  {
  }

  lemma VerificationIsProved(w: World, token: Token, u: nat)
    requires TokensSane(w) && u < |w.users| && VerifyEmail(w, token).0.users[u].email != w.users[u].email
    ensures var address := VerifyEmail(w, token).0.users[u].email;
            Proves(w, DoVerifyEmail(token), w.users[u], address) && w.users[u].pending == Some(address) &&
              !w.users[u].deleted
  {
    var sent := w.sent[token];
    EmailVerifyRoundTrip(sent.user, Some(sent.address));
  }

  /** At any point of any run: if a call changes a user's email, then it presents a token that was
      sent to that user for the new address, and the address was still the user's pending one. */
  lemma EmailChangesAreProved(w0: World, before: seq<Call>, w: World, call: Call, u: nat)
    requires TokensSane(w0) && w == Run(w0, before)
    requires u < |w.users| && u < |Step(w, call).0.users| && Step(w, call).0.users[u].email != w.users[u].email
    ensures var address := Step(w, call).0.users[u].email;
            Proves(w, call, w.users[u], address) && w.users[u].pending == Some(address) && !w.users[u].deleted
  {
    RunKeepsTokens(w0, before);
    if !call.DoVerifyEmail? { OnlyVerificationChangesEmail(w, call, u); }
    VerificationIsProved(w, call.token, u);
  }

  // ---- Panel admins and system roles ----

  /** The user is live and active and holds the panel-admin role, which is live. */
  ghost predicate IsPanelAdmin(w: World, u: nat) {
    && u < |w.users| && !w.users[u].deleted && w.users[u].active
    && w.users[u].role < |w.roles| && w.roles[w.users[u].role].name == PANEL_ADMIN && !w.roles[w.users[u].role].deleted
  }

  /** The row keeps its role and both flags. */
  ghost predicate StandingKept(w: World, users: seq<User>, u: nat)
    requires u < |w.users|
  {
    u < |users| && users[u].deleted == w.users[u].deleted && users[u].active == w.users[u].active &&
      users[u].role == w.users[u].role
  }

  lemma AddressCallsKeepStanding(w: World, call: Call, u: nat)
    requires u < |w.users|
    requires IsMailCall(call) || call.DoVerifyEmail?
    ensures StandingKept(w, Step(w, call).0.users, u)
  {
    if IsMailCall(call) { MailCallOnlyPending(w, call, u); }
  }

  /** A panel admin's row keeps its role and both flags: every call that writes them refuses it. */
  lemma AdminRowIsKept(w: World, call: Call, u: nat)
    requires IsPanelAdmin(w, u)
    ensures StandingKept(w, Step(w, call).0.users, u)
  {
    if IsMailCall(call) || call.DoVerifyEmail? {
      AddressCallsKeepStanding(w, call, u);
    } else if call.DoRegister? {
      RegisterOnlyAdds(w, call, u);
    }
  }

  /** Roles keep their names; the permissions of a system role are kept, and a role in use, or a
      system role, is not deleted. */
  lemma RoleIsKept(w: World, call: Call, r: RoleId)
    requires r < |w.roles|
    ensures var roles := Step(w, call).0.roles;
            && r < |roles| && roles[r].name == w.roles[r].name
            && (RoleInUse(w, r) ==> roles[r].deleted == w.roles[r].deleted)
            && (w.roles[r].system ==> roles[r] == w.roles[r])
  {
    if IsMailCall(call) && w.users != [] {
      MailCallOnlyPending(w, call, 0);
    } else if call.DoRegister? {
      RegisterOnlyAdds(w, call, r);
    }
  }

  lemma StepKeepsAdmin(w: World, call: Call, u: nat)
    requires IsPanelAdmin(w, u)
    ensures IsPanelAdmin(Step(w, call).0, u)
  {
    assert RoleInUse(w, w.users[u].role);
    AdminRowIsKept(w, call, u);
    RoleIsKept(w, call, w.users[u].role);
  }

  /** Whatever actors do, no live, active panel admin is ever lost, and a system role keeps its
      name, its permissions and its existence. */
  lemma {:induction false} ProtectedAdminsAreNeverLost(w: World, calls: seq<Call>, u: nat, r: RoleId)
    ensures IsPanelAdmin(w, u) ==> IsPanelAdmin(Run(w, calls), u)
    ensures r < |w.roles| && w.roles[r].system ==> r < |Run(w, calls).roles| && Run(w, calls).roles[r] == w.roles[r]
    decreases |calls|
  {
    if calls != [] {
      var w1 := Step(w, calls[0]).0;
      if IsPanelAdmin(w, u) { StepKeepsAdmin(w, calls[0], u); }
      if r < |w.roles| && w.roles[r].system { RoleIsKept(w, calls[0], r); }
      ProtectedAdminsAreNeverLost(w1, calls[1..], u, r);
    }
  }

  /** Administration reaches the target's row and no other: not another user's, and never the
      actor's own. */
  lemma ManagementTouchesOnlyTheTarget(w: World, call: Call, v: nat)
    requires v < |w.users|
    requires call.DoSetActive? || call.DoAssignRole? || call.DoSoftDelete? || call.DoRestore? ||
             call.DoAdminChangeEmail?
    requires v != call.u || v == call.actor
    ensures Step(w, call).0.users[v] == w.users[v] && Step(w, call).0.roles == w.roles
  {
  }

  /** Verification mail goes only to an address that the user named in the token claims. */
  lemma TokensGoToClaimedAddresses(w: World, call: Call, t: Token)
    requires LowerCase(w.users) && t in Step(w, call).0.sent && t !in w.sent
    ensures var w1 := Step(w, call).0;
            exists u :: 0 <= u < |w1.users| && w1.users[u].id == w1.sent[t].user &&
              Claims(w1.users[u], w1.sent[t].address)
  {
    var w1 := Step(w, call).0;
    match call
    case DoRegister(id, email, _) =>
      LowerIsLower(email);
      assert Claims(w1.users[|w.users|], w1.sent[t].address);
    case DoUpdateSelfEmail(u, email, _) => RequestGoesToRequester(w, call, u, email, t);
    case DoAdminChangeEmail(_, u, email) => RequestGoesToRequester(w, call, u, email, t);
    case DoResendVerification(email) => ResendGoesToOwner(w, email, t);
    case DoResendUserVerification(_, u) =>
      OwnAddressesAreLower(w, u);
      assert Claims(w1.users[u], w1.sent[t].address);
    case _ =>
  }

  lemma RequestGoesToRequester(w: World, call: Call, u: nat, email: string, t: Token)
    requires (call.DoUpdateSelfEmail? || call.DoAdminChangeEmail?) && call.u == u && call.email == email
    requires t in Step(w, call).0.sent && t !in w.sent
    ensures var w1 := Step(w, call).0;
            u < |w1.users| && w1.users[u].id == w1.sent[t].user && Claims(w1.users[u], w1.sent[t].address)
  {
    LowerIsLower(email);
    RequestsOrNothing(w, call, u, email);
  }

  lemma ResendGoesToOwner(w: World, email: string, t: Token)
    requires LowerCase(w.users) && t in ResendVerification(w, email).0.sent && t !in w.sent
    ensures var w1 := ResendVerification(w, email).0;
            exists u :: 0 <= u < |w1.users| && w1.users[u].id == w1.sent[t].user &&
              Claims(w1.users[u], w1.sent[t].address)
  {
    var w1 := ResendVerification(w, email).0;
    var (byEmail, byPending) := (FindActive(w.users, Lower(email), false, 0),
      FindActive(w.users, Lower(email), true, 0));
    var u := if byEmail.Some? && !w.users[byEmail.value].verified then byEmail.value else byPending.value;
    OwnAddressesAreLower(w, u);
    assert Claims(w1.users[u], w1.sent[t].address);
  }

  lemma OwnAddressesAreLower(w: World, u: nat)
    requires LowerCase(w.users) && u < |w.users|
    ensures Lower(w.users[u].email) == w.users[u].email
    ensures w.users[u].pending.Some? ==> Lower(w.users[u].pending.value) == w.users[u].pending.value
  {
    assert Claims(w.users[u], w.users[u].email);
    assert w.users[u].pending.Some? ==> Claims(w.users[u], w.users[u].pending.value);
    assert IsLower(w.users[u].email) && (w.users[u].pending.Some? ==> IsLower(w.users[u].pending.value));
  }
}
