/** The promises of the credential protocol over whole runs. */
module CredentialTheorems {
  import opened CredentialInvariants
  import opened Credentials
  import Keys
  import opened Prelude

  // ---- What it means for a credential to be accepted, and to derive from another ----

  /** Presenting credential `id` to the HTTP API now succeeds. (For the WebSocket handshake see
      `ResetSparesTheHandshake`.) */
  ghost predicate Accepted(w: World, id: Id)
    requires id in w.issued
  {
    match w.issued[id].kind
    case JwtCredential(jwt) =>
      if jwt.kind.Access? then GetCurrentAuth(w, Bearer(jwt)).Ok? else RefreshTokens(w, jwt).1.Tokens?
    case PartialCredential => CompleteTotp(w, id, true).1.Tokens?
    case KeyCredential => exists raw :: KeyAuthenticates(w, raw, id)
  }

  ghost predicate KeyAuthenticates(w: World, raw: string, id: Id) {
    var auth := GetCurrentAuth(w, ApiKeyHeader(raw));
    auth.Ok? && auth.value.credential == id
  }

  /** `id` is `ancestor`, or was obtained with a credential that derives from it. */
  ghost predicate Derives(w: World, id: Id, ancestor: Id)
    decreases id
  {
    id in w.issued &&
    (id == ancestor ||
     (w.issued[id].parent.Some? && w.issued[id].parent.value < id && Derives(w, w.issued[id].parent.value, ancestor)))
  }

  // ---- Password reset is a barrier ----

  /** A credential of kind `kind` that can no longer be used against the cutoff `t`. */
  ghost predicate Dead(w: World, id: Id, t: nat) {
    && id in w.issued
    && match w.issued[id].kind
       case JwtCredential(jwt) => jwt.iat <= t
       case PartialCredential =>
         LoginPartial(id) in w.redis ==>
           (var v := w.redis[LoginPartial(id)].value; v.PartialLogin? ==> v.issuedAt.Some? && v.issuedAt.value <= t)
       case KeyCredential => forall i :: 0 <= i < |w.keys| && w.keys[i].id == id ==> !w.keys[i].active
  }

  /** Every credential of `user` older than `limit` is dead, and no younger one derives from them. */
  ghost predicate Barred(w: World, user: UserId, t: nat, limit: Id) {
    && limit <= w.nextId && t <= w.now
    && user < |w.users| && w.users[user].revokedAfter.Some? && t <= w.users[user].revokedAfter.value
    && (forall id :: id in w.issued && id < limit && w.issued[id].owner == user ==> Dead(w, id, t))
    && (forall id :: id in w.issued && id >= limit && w.issued[id].owner == user && w.issued[id].parent.Some? ==>
                     w.issued[id].parent.value >= limit)
  }

  lemma AuthenticatingKeyIsActive(w: World, raw: string, id: Id)
    requires KeyAuthenticates(w, raw, id)
    ensures exists i :: 0 <= i < |w.keys| && w.keys[i].id == id && w.keys[i].active
  {
  }

  lemma DeadIsRejected(w: World, user: UserId, t: nat, limit: Id, id: Id)
    requires Sane(w) && Barred(w, user, t, limit)
    requires id in w.issued && w.issued[id].owner == user && id < limit
    ensures !Accepted(w, id)
  {
  }

  /** Whoever is accepted as the parent of a new credential is not barred. */
  lemma ParentIsYoung(w: World, user: UserId, t: nat, limit: Id, parent: Id)
    requires Sane(w) && Barred(w, user, t, limit)
    requires parent in w.issued && w.issued[parent].owner == user && Accepted(w, parent)
    ensures parent >= limit
  {
  }

  lemma PairKeepsBar(w: World, user: UserId, t: nat, limit: Id, owner: UserId, parent: Option<Id>)
    requires Sane(w) && Barred(w, user, t, limit)
    requires owner == user && parent.Some? ==> parent.value >= limit
    ensures Barred(IssuePair(w, owner, parent).0, user, t, limit)
  {
  }

  /** Changing Redis entries other than old partial-login tokens lifts no bar. */
  lemma RedisKeepsBar(w: World, redis: Redis, user: UserId, t: nat, limit: Id)
    requires Barred(w, user, t, limit)
    requires forall id: Id :: id < limit && LoginPartial(id) in redis ==>
             LoginPartial(id) in w.redis && redis[LoginPartial(id)] == w.redis[LoginPartial(id)]
    ensures Barred(w.(redis := redis), user, t, limit)
  {
  }

  lemma KeysKeepBar(w: World, keys: seq<ApiKey>, user: UserId, t: nat, limit: Id)
    requires Barred(w, user, t, limit)
    requires |keys| == |w.keys|
    requires forall i :: 0 <= i < |keys| ==> keys[i].id == w.keys[i].id && (keys[i].active ==> w.keys[i].active)
    ensures Barred(w.(keys := keys), user, t, limit)
  {
  }

  lemma LoginKeepsBar(w: World, user: UserId, t: nat, limit: Id, email: string, password: string, surface: Surface)
    requires Sane(w) && Barred(w, user, t, limit)
    ensures Barred(Login(w, email, password, surface).0, user, t, limit)
  {
    var found := FindActiveByEmail(w.users, Keys.Lower(email), Some(surface), 0);
    if found.Some? {
      PairKeepsBar(w, user, t, limit, found.value, None);
      var w1 := Login(w, email, password, surface).0;
      forall id | id in w1.issued && id < limit && w1.issued[id].owner == user ensures Dead(w1, id, t) {
        assert id in w.issued && Dead(w, id, t);
      }
    }
  }

  lemma CompleteTotpKeepsBar(w: World, user: UserId, t: nat, limit: Id, token: Id, codeOk: bool)
    requires Sane(w) && Barred(w, user, t, limit)
    ensures Barred(CompleteTotp(w, token, codeOk).0, user, t, limit)
  {
  }

  lemma RefreshKeepsBar(w: World, user: UserId, t: nat, limit: Id, jwt: Jwt)
    requires Sane(w) && Barred(w, user, t, limit)
    ensures Barred(RefreshTokens(w, jwt).0, user, t, limit)
  {
  }

  lemma AuthIsAccepted(w: World, presented: Presented)
    requires Sane(w) && GetCurrentAuth(w, presented).Ok?
    ensures var auth := GetCurrentAuth(w, presented).value;
            auth.credential in w.issued && w.issued[auth.credential].owner == auth.user && Accepted(w, auth.credential)
  {
    if presented.ApiKeyHeader? {
      assert KeyAuthenticates(w, presented.raw, GetCurrentAuth(w, presented).value.credential);
    }
  }

  lemma CreateKeyKeepsBar(w: World, user: UserId, t: nat, limit: Id, presented: Presented, raw: string,
                          scopes: seq<string>, expires: Option<nat>, perms: set<string>)
    requires Sane(w) && Barred(w, user, t, limit)
    ensures Barred(CreateKey(w, presented, raw, scopes, expires, perms).0, user, t, limit)
  {
    var (w1, reply) := CreateKey(w, presented, raw, scopes, expires, perms);
    if reply.KeyCreated? {
      AuthIsAccepted(w, presented);
      var auth := GetCurrentAuth(w, presented).value;
      if auth.user == user { ParentIsYoung(w, user, t, limit, auth.credential); }
      forall id | id in w1.issued && id < limit && w1.issued[id].owner == user ensures Dead(w1, id, t) {
        assert id in w.issued && Dead(w, id, t);
      }
    }
  }

  lemma ResetKeepsBar(w: World, user: UserId, t: nat, limit: Id, token: Id, password: string)
    requires Sane(w) && Barred(w, user, t, limit)
    ensures Barred(ResetPassword(w, token, password).0, user, t, limit)
  {
  }

  lemma RecordsKeepBar(w: World, user: UserId, t: nat, limit: Id, call: Call)
    requires Sane(w) && Barred(w, user, t, limit)
    requires call.DoLogout? || call.DoCleanUp?
    ensures Barred(Step(w, call).0, user, t, limit)
  {
    RedisKeepsBar(w, Step(w, call).0.redis, user, t, limit);
  }

  lemma NewTokensKeepBar(w: World, user: UserId, t: nat, limit: Id, call: Call)
    requires Sane(w) && Barred(w, user, t, limit)
    requires call.DoRegister? || call.DoForgotPassword? || call.DoInvite?
    ensures Barred(Step(w, call).0, user, t, limit)
  {
    RedisKeepsBar(w, Step(w, call).0.redis, user, t, limit);
  }

  lemma StepKeepsBar(w: World, user: UserId, t: nat, limit: Id, call: Call)
    requires Sane(w) && Barred(w, user, t, limit)
    ensures Barred(Step(w, call).0, user, t, limit)
  {
    var w1 := Step(w, call).0;
    match call
    case DoLogin(email, password, surface) => LoginKeepsBar(w, user, t, limit, email, password, surface);
    case DoCompleteTotp(token, codeOk) => CompleteTotpKeepsBar(w, user, t, limit, token, codeOk);
    case DoRefresh(jwt) => RefreshKeepsBar(w, user, t, limit, jwt);
    case DoCreateKey(presented, raw, scopes, expires, perms) =>
      CreateKeyKeepsBar(w, user, t, limit, presented, raw, scopes, expires, perms);
    case DoResetPassword(token, password) => ResetKeepsBar(w, user, t, limit, token, password);
    case DoRevokeKey(_, _) => KeysKeepBar(w, w1.keys, user, t, limit);
    case DoEditUser(_, _) =>
    case Tick(_) =>
    case DoLogout(_, _) => RecordsKeepBar(w, user, t, limit, call);
    case DoCleanUp => RecordsKeepBar(w, user, t, limit, call);
    case _ => NewTokensKeepBar(w, user, t, limit, call);
  }

  lemma {:induction false} RunKeepsBar(w: World, user: UserId, t: nat, limit: Id, calls: seq<Call>)
    requires Sane(w) && Barred(w, user, t, limit)
    ensures Sane(Run(w, calls)) && Barred(Run(w, calls), user, t, limit)
    decreases |calls|
  {
    if calls != [] {
      StepSane(w, calls[0]);
      StepKeepsBar(w, user, t, limit, calls[0]);
      RunKeepsBar(Step(w, calls[0]).0, user, t, limit, calls[1..]);
    }
  }

  lemma ResetRaisesBar(w: World, token: Id, password: string, user: UserId)
    requires Sane(w) && ResetPassword(w, token, password).1.Done?
    requires GetKey(w.redis, PasswordReset(token), w.now) == Some(UserRef(user))
    ensures Barred(ResetPassword(w, token, password).0, user, w.now, w.nextId)
  {
  }

  lemma {:induction false} DescendantsAreOld(w: World, user: UserId, t: nat, limit: Id, id: Id, ancestor: Id)
    requires Sane(w) && Barred(w, user, t, limit)
    requires Derives(w, id, ancestor) && ancestor < limit && ancestor in w.issued && w.issued[ancestor].owner == user
    ensures id < limit && w.issued[id].owner == user
    decreases id
  {
    if id != ancestor { DescendantsAreOld(w, user, t, limit, w.issued[id].parent.value, ancestor); }
  }

  /** Password reset is a barrier for the HTTP API: whatever calls follow, no access, refresh or
      partial-login token and no API key issued to the user up to then is accepted again, and neither is any credential
      that derives from one of them; in fact no such credential is ever issued any more. */
  lemma ResetIsABarrier(w: World, token: Id, password: string, user: UserId, calls: seq<Call>, earlier: Id, id: Id)
    requires Sane(w) && ResetPassword(w, token, password).1.Done?
    requires GetKey(w.redis, PasswordReset(token), w.now) == Some(UserRef(user))
    requires earlier in w.issued && w.issued[earlier].owner == user
    ensures var later := Run(ResetPassword(w, token, password).0, calls);
            && earlier in later.issued && !Accepted(later, earlier)
            && (Derives(later, id, earlier) ==> id in w.issued && !Accepted(later, id))
  {
    var w1 := ResetPassword(w, token, password).0;
    var later := Run(w1, calls);
    ResetSane(w, token, password);
    ResetRaisesBar(w, token, password, user);
    RunKeepsBar(w1, user, w.now, w.nextId, calls);
    RunKeepsIssued(w1, calls, earlier);
    DeadIsRejected(later, user, w.now, w.nextId, earlier);
    if Derives(later, id, earlier) {
      DescendantsAreOld(later, user, w.now, w.nextId, id, earlier);
      DeadIsRejected(later, user, w.now, w.nextId, id);
      RunAddsOnlyFresh(w1, calls, id);
    }
  }

  // ---- Issued credentials are never forgotten or changed ----

  lemma StepKeepsIssued(w: World, call: Call, id: Id)
    requires Sane(w)
    ensures Step(w, call).0.nextId >= w.nextId && Step(w, call).0.now >= w.now && Step(w, call).0.settings == w.settings
    ensures id in w.issued ==> id in Step(w, call).0.issued && Step(w, call).0.issued[id] == w.issued[id]
    ensures id in Step(w, call).0.issued && id < w.nextId ==> id in w.issued
  {
  }

  lemma {:induction false} RunKeepsIssued(w: World, calls: seq<Call>, id: Id)
    requires Sane(w) && id in w.issued
    ensures Run(w, calls).now >= w.now && Run(w, calls).settings == w.settings
    ensures id in Run(w, calls).issued && Run(w, calls).issued[id] == w.issued[id]
    decreases |calls|
  {
    if calls != [] {
      StepSane(w, calls[0]);
      StepKeepsIssued(w, calls[0], id);
      RunKeepsIssued(Step(w, calls[0]).0, calls[1..], id);
    }
  }

  lemma {:induction false} RunAddsOnlyFresh(w: World, calls: seq<Call>, id: Id)
    requires Sane(w) && id < w.nextId && id in Run(w, calls).issued
    ensures id in w.issued
    decreases |calls|
  {
    if calls != [] {
      StepSane(w, calls[0]);
      StepKeepsIssued(w, calls[0], id);
      RunAddsOnlyFresh(Step(w, calls[0]).0, calls[1..], id);
    }
  }
}
