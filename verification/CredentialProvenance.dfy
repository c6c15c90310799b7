/** Where credentials come from, and what ends them for good. */
module CredentialProvenance {
  import opened CredentialInvariants
  import opened CredentialOutcomes
  import opened CredentialTheorems
  import opened Credentials
  import Keys
  import opened Prelude

  // ---- When a JWT is accepted ----

  /** An issued JWT is accepted by the HTTP API iff it has not expired, is not blacklisted, belongs to a live, active
      user and was issued in a second after the user's cutoff. */
  lemma JwtAcceptedIff(w: World, id: Id)
    requires Sane(w) && id in w.issued && w.issued[id].kind.JwtCredential?
    ensures var jwt := w.issued[id].kind.jwt;
            Accepted(w, id) <==>
              && w.now < jwt.exp + w.settings.leeway
              && !Present(w.redis, Blacklist(id), w.now)
              && OwnerIsActive(w, w.issued[id].owner)
              && !IsTokenRevokedAfter(jwt.iat, w.users[w.issued[id].owner].revokedAfter)
  {
  }

  /** The handshake accepts an issued JWT until it expires, whatever has happened to it meanwhile. */
  lemma HandshakeAcceptsUntilExpiry(w: World, calls: seq<Call>, jwt: Jwt)
    requires Sane(w) && Genuine(w, jwt)
    ensures var later := Run(w, calls);
            Handshake(later, jwt) == if later.now < jwt.exp + w.settings.leeway then Ok(jwt.sub) else Err(TokenExpired)
  {
    RunKeepsIssued(w, calls, jwt.jti);
  }

  /** So a reset, a barrier everywhere else, does not reach the handshake: a JWT issued before it
      still joins rooms, up to its expiry and not beyond. */
  lemma ResetSparesTheHandshake(w: World, token: Id, password: string, user: UserId, calls: seq<Call>, jwt: Jwt)
    requires Sane(w) && ResetPassword(w, token, password).1.Done?
    requires GetKey(w.redis, PasswordReset(token), w.now) == Some(UserRef(user))
    requires Genuine(w, jwt) && jwt.sub == user
    ensures var later := Run(ResetPassword(w, token, password).0, calls);
            && jwt.jti in later.issued && !Accepted(later, jwt.jti)
            && (Handshake(later, jwt).Ok? <==> later.now < jwt.exp + w.settings.leeway)
  {
    ResetIsABarrier(w, token, password, user, calls, jwt.jti, jwt.jti);
    ResetSane(w, token, password);
    StepKeepsIssued(w, DoResetPassword(token, password), jwt.jti);
    HandshakeAcceptsUntilExpiry(ResetPassword(w, token, password).0, calls, jwt);
  }

  // ---- Every credential is earned ----

  /** A login with the password of an active user of that address, in any letter case, and surface. */
  ghost predicate PasswordLogin(w: World, call: Call, user: UserId) {
    && call.DoLogin? && OwnerIsActive(w, user)
    && w.users[user].email == Keys.Lower(call.email) && w.users[user].surface == call.surface
    && w.users[user].password == Some(HashPassword(call.password))
  }

  /** What it takes for the call to issue this credential. */
  ghost predicate Earned(w: World, call: Call, cred: Issued) {
    match cred.parent
    case None =>
      && PasswordLogin(w, call, cred.owner)
      && (if w.users[cred.owner].totpEnabled then cred.kind.PartialCredential? else cred.kind.JwtCredential?)
    case Some(p) =>
      && p in w.issued && w.issued[p].owner == cred.owner && Accepted(w, p)
      && (match w.issued[p].kind
          case PartialCredential => call == DoCompleteTotp(p, true) && cred.kind.JwtCredential?
          case JwtCredential(jwt) =>
            if jwt.kind.Refresh? then call == DoRefresh(jwt) && cred.kind.JwtCredential?
            else call.DoCreateKey? && call.presented == Bearer(jwt) && cred.kind.KeyCredential?
          case KeyCredential => call.DoCreateKey? && call.presented.ApiKeyHeader? && cred.kind.KeyCredential?)
  }

  lemma LoginIsEarned(w: World, call: Call, id: Id)
    requires Sane(w) && call.DoLogin? && id in Step(w, call).0.issued && id !in w.issued
    ensures Earned(w, call, Step(w, call).0.issued[id])
  {
    FoundHasSurface(w.users, Keys.Lower(call.email), call.surface, 0);
  }

  lemma {:induction false} FoundHasSurface(users: seq<User>, email: string, surface: Surface, from: nat)
    requires from <= |users|
    ensures var r := FindActiveByEmail(users, email, Some(surface), from);
            r.Some? ==> users[r.value].surface == surface
    decreases |users| - from
  {
    if from < |users| { FoundHasSurface(users, email, surface, from + 1); }
  }

  lemma CompletionIsEarned(w: World, call: Call, id: Id)
    requires Sane(w) && call.DoCompleteTotp? && id in Step(w, call).0.issued && id !in w.issued
    ensures Earned(w, call, Step(w, call).0.issued[id])
  {
  }

  lemma RefreshIsEarned(w: World, call: Call, id: Id)
    requires Sane(w) && call.DoRefresh? && id in Step(w, call).0.issued && id !in w.issued
    ensures Earned(w, call, Step(w, call).0.issued[id])
  {
  }

  lemma KeyIsEarned(w: World, call: Call, id: Id)
    requires Sane(w) && call.DoCreateKey? && id in Step(w, call).0.issued && id !in w.issued
    ensures Earned(w, call, Step(w, call).0.issued[id])
  {
    AuthIsAccepted(w, call.presented);
    if call.presented.ApiKeyHeader? {
      var (prefix, secret) := SplitKey(call.presented.raw);
      var i := FindKey(w.keys, prefix, secret, w.now, 0).value;
      assert w.issued[w.keys[i].id].kind.KeyCredential?;
    }
  }

  lemma OthersIssueNothing(w: World, call: Call)
    requires !call.DoLogin? && !call.DoCompleteTotp? && !call.DoRefresh? && !call.DoCreateKey?
    ensures Step(w, call).0.issued == w.issued
  {
  }

  /** Every credential is earned: it starts with a password (and, where TOTP is on, only as a
      partial login), or it is obtained with one credential that is accepted at that moment. */
  lemma EveryCredentialIsEarned(w0: World, before: seq<Call>, w: World, call: Call, id: Id)
    requires Sane(w0) && w == Run(w0, before)
    requires id in Step(w, call).0.issued && id !in w.issued
    ensures Earned(w, call, Step(w, call).0.issued[id])
  {
    RunSane(w0, before);
    match call
    case DoLogin(_, _, _) => LoginIsEarned(w, call, id);
    case DoCompleteTotp(_, _) => CompletionIsEarned(w, call, id);
    case DoRefresh(_) => RefreshIsEarned(w, call, id);
    case DoCreateKey(_, _, _, _, _) => KeyIsEarned(w, call, id);
    case _ => OthersIssueNothing(w, call);
  }

  // ---- Opaque tokens work once ----

  predicate IsOpaque(key: Key) { key.LoginPartial? || key.PasswordReset? }

  lemma StepKeepsSpentKey(w: World, call: Call, key: Key)
    requires Sane(w) && IsOpaque(key) && key.id < w.nextId && key !in w.redis
    ensures key.id < Step(w, call).0.nextId && key !in Step(w, call).0.redis
  {
  }

  lemma {:induction false} SpentKeyStaysSpent(w: World, calls: seq<Call>, key: Key)
    requires Sane(w) && IsOpaque(key) && key.id < w.nextId && key !in w.redis
    ensures key !in Run(w, calls).redis
    decreases |calls|
  {
    if calls != [] {
      StepSane(w, calls[0]);
      StepKeepsSpentKey(w, calls[0], key);
      SpentKeyStaysSpent(Step(w, calls[0]).0, calls[1..], key);
    }
  }

  /** A partial-login token is gone after one attempt, right or wrong. */
  lemma PartialTokenWorksOnce(w: World, token: Id, codeOk: bool, calls: seq<Call>, again: bool)
    requires Sane(w) && Present(w.redis, LoginPartial(token), w.now)
    ensures CompleteTotp(Run(CompleteTotp(w, token, codeOk).0, calls), token, again).1 == Failed(NotAuthenticated)
  {
    assert EntrySane(w, LoginPartial(token), w.redis[LoginPartial(token)]);
    CompleteTotpSane(w, token, codeOk);
    SpentKeyStaysSpent(CompleteTotp(w, token, codeOk).0, calls, LoginPartial(token));
  }

  /** A reset token that reset a password never does so again. */
  lemma ResetTokenWorksOnce(w: World, token: Id, password: string, calls: seq<Call>, again: string)
    requires Sane(w) && ResetPassword(w, token, password).1.Done?
    ensures ResetPassword(Run(ResetPassword(w, token, password).0, calls), token, again).1 == Failed(InvalidToken)
  {
    assert EntrySane(w, PasswordReset(token), w.redis[PasswordReset(token)]);
    ResetSane(w, token, password);
    SpentKeyStaysSpent(ResetPassword(w, token, password).0, calls, PasswordReset(token));
  }

  /** The limit of it: a reset uses up its own token only. Another reset token of the same user still
      resets the password again, up to its own expiry. */
  lemma OtherResetTokensStayUsable(w: World, token: Id, password: string, other: Id, elapsed: nat, again: string)
    requires Sane(w) && ResetPassword(w, token, password).1.Done? && other != token
    requires Present(w.redis, PasswordReset(other), w.now)
    requires w.redis[PasswordReset(other)].value == w.redis[PasswordReset(token)].value
    ensures var later := Step(ResetPassword(w, token, password).0, Tick(elapsed)).0;
            ResetPassword(later, other, again).1.Done? <==>
            w.now + elapsed < w.redis[PasswordReset(other)].expires.value
  {
    assert EntrySane(w, PasswordReset(other), w.redis[PasswordReset(other)]);
  }

  // ---- API keys ----

  ghost predicate Inactive(w: World, id: Id) {
    id < w.nextId && forall i :: 0 <= i < |w.keys| && w.keys[i].id == id ==> !w.keys[i].active
  }

  lemma StepKeepsInactive(w: World, call: Call, id: Id)
    requires Inactive(w, id)
    ensures Inactive(Step(w, call).0, id)
  {
  }

  lemma {:induction false} RunKeepsInactive(w: World, calls: seq<Call>, id: Id)
    requires Inactive(w, id)
    ensures Inactive(Run(w, calls), id)
    decreases |calls|
  {
    if calls != [] {
      StepKeepsInactive(w, calls[0], id);
      RunKeepsInactive(Step(w, calls[0]).0, calls[1..], id);
    }
  }

  /** A revoked key never authenticates again, whatever is presented and whatever happens. */
  lemma RevokedKeyIsNeverAccepted(w: World, id: Id, user: UserId, calls: seq<Call>, raw: string)
    requires Sane(w) && RevokeKey(w, id, user).1.Done?
    ensures !KeyAuthenticates(Run(RevokeKey(w, id, user).0, calls), raw, id)
  {
    var w1 := RevokeKey(w, id, user).0;
    var i := FindRow(w.keys, id, 0).value;
    assert forall j :: 0 <= j < |w.keys| && w.keys[j].id == id ==> j == i;
    RunKeepsInactive(w1, calls, id);
    var later := Run(w1, calls);
    if KeyAuthenticates(later, raw, id) { AuthenticatingKeyIsActive(later, raw, id); }
  }

  /** The raw key handed out authenticates as the new row iff it is not born expired and no older
      usable key has the same text. (Generated keys start with the prefix.) */
  lemma MintedKeyAuthenticatesIff(w: World, presented: Presented, raw: string, scopes: seq<string>,
                                  expires: Option<nat>, perms: set<string>)
    requires Sane(w) && CreateKey(w, presented, raw, scopes, expires, perms).1.KeyCreated?
    requires API_KEY_PREFIX <= raw
    ensures var (w1, reply) := CreateKey(w, presented, raw, scopes, expires, perms);
            KeyAuthenticates(w1, raw, reply.id) <==>
              (expires.Some? ==> w.now < expires.value) && Authenticate(w, raw).Err?
  {
    var w1 := CreateKey(w, presented, raw, scopes, expires, perms).0;
    var (prefix, secret) := SplitKey(raw);
    var auth := GetCurrentAuth(w, presented).value;
    assert OwnerIsActive(w1, auth.user);
    AppendedIsFoundLast(w.keys, w1.keys[|w.keys|], prefix, secret, w.now, 0);
    if Authenticate(w, raw).Ok? { OldRowsAreOlder(w, FindKey(w.keys, prefix, secret, w.now, 0).value); }
  }

  lemma OldRowsAreOlder(w: World, i: nat)
    requires Sane(w) && i < |w.keys|
    ensures w.keys[i].id < w.nextId
  {
  }

  /** A row at the end is found iff it is a match and no row in front of it is. */
  lemma {:induction false} AppendedIsFoundLast(keys: seq<ApiKey>, key: ApiKey, prefix: string, secret: string,
                                               now: nat, from: nat)
    requires from <= |keys|
    ensures FindKey(keys + [key], prefix, secret, now, from) ==
            match FindKey(keys, prefix, secret, now, from)
            case Some(i) => Some(i)
            case None => if IsCandidate(key, prefix, now) && VerifyPassword(secret, key.secret) then Some(|keys|)
              else None
    decreases |keys| - from
  {
    if from < |keys| {
      AppendedIsFoundLast(keys, key, prefix, secret, now, from + 1);
    } else {
      assert FindKey(keys + [key], prefix, secret, now, |keys| + 1) == None;
    }
  }

  // ---- Lifetimes and reset tokens ----

  /** Minutes are configured for access tokens, days for refresh tokens. */
  function LifeOf(w: World, kind: TokenType): nat {
    if kind == Access then w.settings.accessMinutes * MINUTE else w.settings.refreshDays * DAY
  }

  /** A JWT issued by a call is rejected in every continuation once its configured lifetime is over,
      and has not expired while more than the last second of it is left. */
  lemma TokensLiveForTheirLifetime(w: World, call: Call, id: Id, calls: seq<Call>)
    requires Sane(w) && id in Step(w, call).0.issued && id !in w.issued
    requires Step(w, call).0.issued[id].kind.JwtCredential?
    ensures var later := Run(Step(w, call).0, calls);
            var jwt := Step(w, call).0.issued[id].kind.jwt;
            && id in later.issued && later.issued[id] == Step(w, call).0.issued[id]
            && (later.now >= w.now + LifeOf(w, jwt.kind) + w.settings.leeway ==> !Accepted(later, id))
            && (later.now + SECOND <= w.now + LifeOf(w, jwt.kind) ==> DecodeToken(later, jwt).Ok?)
  {
    StepSane(w, call);
    NewJwtExpiry(w, call, id);
    StepKeepsIssued(w, call, id);
    LivesUntil(Step(w, call).0, calls, id, w.now + LifeOf(w, Step(w, call).0.issued[id].kind.jwt.kind));
  }

  lemma LivesUntil(w: World, calls: seq<Call>, id: Id, end: nat)
    requires Sane(w) && id in w.issued && w.issued[id].kind.JwtCredential? &&
             w.issued[id].kind.jwt.exp == FloorSecond(end)
    ensures var (later, jwt) := (Run(w, calls), w.issued[id].kind.jwt);
            && id in later.issued && later.issued[id] == w.issued[id]
            && (later.now >= end + w.settings.leeway ==> !Accepted(later, id))
            && (later.now + SECOND <= end ==> DecodeToken(later, jwt).Ok?)
  {
    RunKeepsIssued(w, calls, id);
    RunSane(w, calls);
    AcceptedUntilExpiry(Run(w, calls), id, end);
  }

  lemma AcceptedUntilExpiry(w: World, id: Id, end: nat)
    requires Sane(w) && id in w.issued && w.issued[id].kind.JwtCredential? &&
             w.issued[id].kind.jwt.exp == FloorSecond(end)
    ensures w.now >= end + w.settings.leeway ==> !Accepted(w, id)
    ensures w.now + SECOND <= end ==> DecodeToken(w, w.issued[id].kind.jwt).Ok?
  {
    JwtAcceptedIff(w, id);
  }

  lemma NewJwtExpiry(w: World, call: Call, id: Id)
    requires Sane(w) && id in Step(w, call).0.issued && id !in w.issued
    requires Step(w, call).0.issued[id].kind.JwtCredential?
    ensures var jwt := Step(w, call).0.issued[id].kind.jwt;
            jwt.jti == id && jwt.exp == FloorSecond(w.now + LifeOf(w, jwt.kind)) && jwt.iat == FloorSecond(w.now)
  {
    match call
    case DoLogin(email, password, surface) =>
      var found := FindActiveByEmail(w.users, Keys.Lower(email), Some(surface), 0);
      if found.Some? { PairExpiry(w, found.value, None, id); }
    case DoCompleteTotp(token, codeOk) =>
      var value := GetKey(w.redis, LoginPartial(token), w.now);
      if value.Some? && value.value.PartialLogin? {
        PairExpiry(w.(redis := w.redis - {LoginPartial(token)}), value.value.user, Some(token), id);
      }
    case DoRefresh(jwt) => PairExpiry(w.(redis := BlacklistToken(w.redis, jwt, w.now)), jwt.sub, Some(jwt.jti), id);
    case DoCreateKey(_, _, _, _, _) =>
    case _ => OthersIssueNothing(w, call);
  }

  lemma PairExpiry(w: World, user: UserId, parent: Option<Id>, id: Id)
    requires id in IssuePair(w, user, parent).0.issued && id !in w.issued
    ensures var cred := IssuePair(w, user, parent).0.issued[id];
            && cred.kind.JwtCredential?
            && var jwt := cred.kind.jwt;
               jwt.jti == id && jwt.exp == FloorSecond(w.now + LifeOf(w, jwt.kind)) && jwt.iat == FloorSecond(w.now)
  {
  }

  /** A reset token comes into being only when an active user with a password is asked for by the user's own
      address, in any letter case, or when an admin without a password is invited; it is that user's token. */
  lemma ResetTokensAreRequested(w: World, call: Call, token: Id)
    requires PasswordReset(token) in Step(w, call).0.redis && PasswordReset(token) !in w.redis
    ensures token == w.nextId && Step(w, call).0.redis[PasswordReset(token)].value.UserRef?
    ensures var user := Step(w, call).0.redis[PasswordReset(token)].value.user;
            user < |w.users| && !w.users[user].deleted &&
            if w.users[user].password.Some? then call.DoForgotPassword? &&
              Keys.Lower(call.email) == w.users[user].email && w.users[user].active
            else call == DoInvite(user) && w.users[user].surface == AdminSurface
  {
  }
}
