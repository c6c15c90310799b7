/** What every call of the credential protocol keeps, and so what holds after any run. */
module CredentialInvariants {
  import opened Credentials
  import Keys
  import opened Prelude
  import opened Scopes

  /** Identifiers come from the counter; a credential has its parent's owner and is younger. */
  ghost predicate IssuedSane(w: World) {
    forall id :: id in w.issued ==>
      && id < w.nextId
      && w.issued[id].owner < |w.users|
      && (w.issued[id].parent.Some? ==>
            w.issued[id].parent.value < id && w.issued[id].parent.value in w.issued &&
            w.issued[w.issued[id].parent.value].owner == w.issued[id].owner)
      && (w.issued[id].kind.JwtCredential? ==>
            w.issued[id].kind.jwt.jti == id && w.issued[id].kind.jwt.sub == w.issued[id].owner &&
              w.issued[id].kind.jwt.iat <= w.now &&
            w.issued[id].kind.jwt.iat % SECOND == 0 && w.issued[id].kind.jwt.exp % SECOND == 0)
  }

  /** Key rows are issued credentials of their user, one row each. */
  ghost predicate KeysSane(w: World) {
    && (forall i :: 0 <= i < |w.keys| ==>
          w.keys[i].id in w.issued && w.issued[w.keys[i].id].kind.KeyCredential? &&
            w.issued[w.keys[i].id].owner == w.keys[i].user)
    && (forall i, j :: 0 <= i < j < |w.keys| ==> w.keys[i].id != w.keys[j].id)
  }

  ghost predicate EntrySane(w: World, key: Key, entry: Entry) {
    && entry.expires.Some?
    && key.id < w.nextId
    && (key.LoginPartial? ==>
          && entry.value.PartialLogin? && entry.value.issuedAt.Some? && entry.value.issuedAt.value <= w.now
          && key.id in w.issued && w.issued[key.id].kind.PartialCredential? &&
             w.issued[key.id].owner == entry.value.user)
    && (key.PasswordReset? ==> entry.value.UserRef? && entry.value.user < |w.users|)
  }

  ghost predicate RedisSane(w: World) {
    forall key :: key in w.redis ==> EntrySane(w, key, w.redis[key])
  }

  ghost predicate CutoffsSane(w: World) {
    forall u :: 0 <= u < |w.users| && w.users[u].revokedAfter.Some? ==> w.users[u].revokedAfter.value <= w.now
  }

  ghost predicate Sane(w: World) {
    IssuedSane(w) && KeysSane(w) && RedisSane(w) && CutoffsSane(w)
  }

  lemma IssuePairSane(w: World, user: UserId, parent: Option<Id>)
    requires Sane(w) && user < |w.users|
    requires parent.Some? ==> parent.value in w.issued && w.issued[parent.value].owner == user
    ensures Sane(IssuePair(w, user, parent).0)
  {
    var w1 := WithJwt(w, user, Access, parent);
    NewJwtSane(w, user, Access, parent);
    NewJwtSane(w1, user, Refresh, parent);
    assert IssuePair(w, user, parent).0 == WithJwt(w1, user, Refresh, parent);
  }

  function WithJwt(w: World, user: UserId, kind: TokenType, parent: Option<Id>): World {
    w.(nextId := w.nextId + 1,
       issued := w.issued[w.nextId := Issued(user, parent, JwtCredential(NewJwt(w, user, kind, w.nextId)))])
  }

  lemma NewJwtSane(w: World, user: UserId, kind: TokenType, parent: Option<Id>)
    requires Sane(w) && user < |w.users|
    requires parent.Some? ==> parent.value in w.issued && w.issued[parent.value].owner == user
    ensures Sane(WithJwt(w, user, kind, parent))
  {
  }

  lemma DropKeySane(w: World, key: Key)
    requires Sane(w)
    ensures Sane(w.(redis := w.redis - {key}))
  {
  }

  lemma BlacklistSane(w: World, jwt: Jwt)
    requires Sane(w) && Genuine(w, jwt)
    ensures Sane(w.(redis := BlacklistToken(w.redis, jwt, w.now)))
  {
  }

  lemma LoginSane(w: World, email: string, password: string, surface: Surface)
    requires Sane(w)
    ensures Sane(Login(w, email, password, surface).0)
  {
    var found := FindActiveByEmail(w.users, Keys.Lower(email), Some(surface), 0);
    if found.Some? {
      IssuePairSane(w, found.value, None);
      NewPartialSane(w, found.value);
    }
  }

  lemma NewPartialSane(w: World, user: UserId)
    requires Sane(w) && user < |w.users|
    ensures Sane(w.(nextId := w.nextId + 1,
                    issued := w.issued[w.nextId := Issued(user, None, PartialCredential)],
                    redis := SetEx(w.redis, LoginPartial(w.nextId), w.settings.loginPartialTtl,
                                   PartialLogin(user, Some(w.now)), w.now)))
  {
  }

  lemma CompleteTotpSane(w: World, token: Id, codeOk: bool)
    requires Sane(w)
    ensures Sane(CompleteTotp(w, token, codeOk).0)
  {
    var value := GetKey(w.redis, LoginPartial(token), w.now);
    if value.Some? {
      var w1 := w.(redis := w.redis - {LoginPartial(token)});
      DropKeySane(w, LoginPartial(token));
      assert EntrySane(w, LoginPartial(token), w.redis[LoginPartial(token)]);
      IssuePairSane(w1, value.value.user, Some(token));
    }
  }

  lemma RefreshSane(w: World, jwt: Jwt)
    requires Sane(w)
    ensures Sane(RefreshTokens(w, jwt).0)
  {
    if DecodeToken(w, jwt).Ok? {
      BlacklistSane(w, jwt);
      IssuePairSane(w.(redis := BlacklistToken(w.redis, jwt, w.now)), jwt.sub, Some(jwt.jti));
    }
  }

  lemma LogoutSane(w: World, access: Jwt, refresh: Option<Jwt>)
    requires Sane(w)
    ensures Sane(Logout(w, access, refresh).0)
  {
  }

  lemma ResetSane(w: World, token: Id, password: string)
    requires Sane(w)
    ensures Sane(ResetPassword(w, token, password).0)
  {
  }

  /** An accepted credential is on record as its user's. */
  lemma AuthIsIssued(w: World, presented: Presented)
    requires Sane(w) && GetCurrentAuth(w, presented).Ok?
    ensures var auth := GetCurrentAuth(w, presented).value;
            auth.credential in w.issued && w.issued[auth.credential].owner == auth.user
  {
  }

  lemma NewKeySane(w: World, auth: Auth, row: ApiKey)
    requires Sane(w) && auth.credential in w.issued && w.issued[auth.credential].owner == auth.user
    requires row.id == w.nextId && row.user == auth.user
    ensures Sane(w.(nextId := w.nextId + 1, keys := w.keys + [row],
                    issued := w.issued[w.nextId := Issued(auth.user, Some(auth.credential), KeyCredential)]))
  {
  }

  lemma CreateKeySane(w: World, presented: Presented, raw: string, scopes: seq<string>, expires: Option<nat>,
                      perms: set<string>)
    requires Sane(w)
    ensures Sane(CreateKey(w, presented, raw, scopes, expires, perms).0)
  {
    var auth := GetCurrentAuth(w, presented);
    if auth.Ok? {
      AuthIsIssued(w, presented);
      NewKeySane(w, auth.value, ApiKey(w.nextId, auth.value.user, SplitKey(raw).0, HashPassword(SplitKey(raw).1),
        Stored(scopes), expires, true));
    }
  }

  lemma RegisterSane(w: World, row: User)
    requires Sane(w)
    ensures Sane(Register(w, row).0)
  {
  }

  lemma ForgotSane(w: World, email: string)
    requires Sane(w)
    ensures Sane(ForgotPassword(w, email).0)
  {
  }

  lemma InviteSane(w: World, user: UserId)
    requires Sane(w)
    ensures Sane(Invite(w, user).0)
  {
  }

  lemma RevokeSane(w: World, id: Id, user: UserId)
    requires Sane(w)
    ensures Sane(RevokeKey(w, id, user).0)
  {
  }

  lemma StepSane(w: World, call: Call)
    requires Sane(w)
    ensures Sane(Step(w, call).0)
  {
    match call
    case DoLogin(email, password, surface) => LoginSane(w, email, password, surface);
    case DoCompleteTotp(token, codeOk) => CompleteTotpSane(w, token, codeOk);
    case DoRefresh(jwt) => RefreshSane(w, jwt);
    case DoLogout(access, refresh) => LogoutSane(w, access, refresh);
    case DoResetPassword(token, password) => ResetSane(w, token, password);
    case DoCreateKey(presented, raw, scopes, expires, perms) =>
      CreateKeySane(w, presented, raw, scopes, expires, perms);
    case DoRegister(row) => RegisterSane(w, row);
    case DoForgotPassword(email) => ForgotSane(w, email);
    case DoInvite(user) => InviteSane(w, user);
    case DoRevokeKey(id, user) => RevokeSane(w, id, user);
    case _ => TablesSane(w, call);
  }

  lemma TablesSane(w: World, call: Call)
    requires Sane(w) && (call.DoCleanUp? || call.DoEditUser? || call.Tick?)
    ensures Sane(Step(w, call).0)
  {
  }

  lemma {:induction false} RunSane(w: World, calls: seq<Call>)
    requires Sane(w)
    ensures Sane(Run(w, calls))
    decreases |calls|
  {
    if calls != [] {
      StepSane(w, calls[0]);
      RunSane(Step(w, calls[0]).0, calls[1..]);
    }
  }

  /** The state before anything happened. */
  function EmptyWorld(now: nat, settings: Settings): World {
    World(now, 0, [], map[], [], map[], settings)
  }

  /** Every state the calls can reach is sane. */
  lemma ReachableIsSane(now: nat, settings: Settings, calls: seq<Call>)
    ensures Sane(Run(EmptyWorld(now, settings), calls))
  {
    RunSane(EmptyWorld(now, settings), calls);
  }
}
