/** What a caller of the authentication and account services can rely on: for every reply, when it is
    given and what has changed then. The transitions of `Credentials` are exactly these outcomes. */
module CredentialOutcomes {
  import opened C = Credentials
  import Keys
  import opened Prelude
  import Scopes

  ghost predicate OwnerIsActive(w: World, user: UserId) {
    user < |w.users| && !w.users[user].deleted && w.users[user].active
  }

  ghost predicate Holds(w: World, key: Key) {
    key in w.redis && (w.redis[key].expires == None || w.now < w.redis[key].expires.value)
  }

  /** The signature is genuine: this very token was issued. */
  ghost predicate OnRecord(w: World, jwt: Jwt) {
    jwt.jti in w.issued && w.issued[jwt.jti].kind == JwtCredential(jwt)
  }

  /** What began at the cutoff or before it is cut off. */
  ghost predicate IsCutOff(began: nat, cutoff: Option<nat>) { cutoff.Some? && began <= cutoff.value }

  /** The token is new, of this user and kind, issued now and good for its configured lifetime, in
      whole seconds. */
  ghost predicate FreshJwt(w: World, jwt: Jwt, user: UserId, kind: TokenType, jti: Id) {
    && jwt.sub == user && jwt.kind == kind && jwt.jti == jti
    && jwt.iat == FloorSecond(w.now)
    && var life := if kind == Access then w.settings.accessMinutes * MINUTE else w.settings.refreshDays * DAY;
       jwt.exp == FloorSecond(w.now + life)
  }

  ghost predicate OnlyRedisAndIssued(w: World, w1: World) {
    w1.now == w.now && w1.users == w.users && w1.keys == w.keys && w1.settings == w.settings
  }

  /** Two new tokens of the user, on record as obtained with `parent`, and no other credential. */
  ghost predicate PairIssued(w: World, w1: World, user: UserId, parent: Option<Id>, access: Jwt, refresh: Jwt) {
    && FreshJwt(w, access, user, Access, w.nextId) && FreshJwt(w, refresh, user, Refresh, w.nextId + 1)
    && w1.nextId == w.nextId + 2
    && w1.issued == w.issued + map[w.nextId := Issued(user, parent, JwtCredential(access)),
                                   w.nextId + 1 := Issued(user, parent, JwtCredential(refresh))]
    && OnlyRedisAndIssued(w, w1)
  }

  // ---- Login ----

  /** The user is one that a lookup by this address, and surface if one is asked for, may return. */
  ghost predicate Answers(user: User, email: string, surface: Option<Surface>) {
    user.active && !user.deleted && user.email == email && (surface == None || surface == Some(user.surface))
  }

  /** Row u answers, and no row before it does. */
  ghost predicate FirstAnswering(users: seq<User>, email: string, surface: Option<Surface>, u: UserId) {
    u < |users| && Answers(users[u], email, surface) && forall v :: 0 <= v < u ==> !Answers(users[v], email, surface)
  }

  lemma LookupIff(users: seq<User>, email: string, surface: Option<Surface>, u: UserId)
    ensures FindActiveByEmail(users, email, surface, 0) == Some(u) <==> FirstAnswering(users, email, surface, u)
  {
    var found := FindActiveByEmail(users, email, surface, 0);
    if found.Some? && FirstAnswering(users, email, surface, u) {
      assert found.value < u ==> Answers(users[found.value], email, surface);
      assert u < found.value ==> Answers(users[u], email, surface);
    }
  }

  /** The address in any letter case, the surface and the password are those of row u. */
  ghost predicate MayEnter(w: World, email: string, password: string, surface: Surface, u: UserId) {
    FirstAnswering(w.users, Keys.Lower(email), Some(surface), u) && w.users[u].password == Some(Digest(password))
  }

  ghost predicate LoginOutcome(w: World, email: string, password: string, surface: Surface, w1: World, reply: Reply) {
    match reply
    case Tokens(access, refresh) =>
      && MayEnter(w, email, password, surface, access.sub) && !w.users[access.sub].totpEnabled
      && PairIssued(w, w1, access.sub, None, access, refresh) && w1.redis == w.redis
    case PartialAuth(token) =>
      && token in w1.issued
      && var u := w1.issued[token].owner;
         && MayEnter(w, email, password, surface, u) && w.users[u].totpEnabled
         && token == w.nextId && w1.nextId == w.nextId + 1
         && w1.issued == w.issued + map[token := Issued(u, None, PartialCredential)]
         && w1.redis == w.redis + map[LoginPartial(token) :=
              Entry(PartialLogin(u, Some(w.now)), Some(w.now + w.settings.loginPartialTtl * SECOND))]
         && OnlyRedisAndIssued(w, w1)
    case Failed(e) => (forall u :: !MayEnter(w, email, password, surface, u)) && e == NotAuthenticated && w1 == w
    case _ => false
  }

  lemma LoginIsOutcome(w: World, email: string, password: string, surface: Surface, w1: World, reply: Reply)
    ensures (w1, reply) == Login(w, email, password, surface) <==> LoginOutcome(w, email, password, surface, w1, reply)
  {
    LoginMeetsOutcome(w, email, password, surface);
    if LoginOutcome(w, email, password, surface, w1, reply) {
      LoginOutcomeIsUnique(w, email, password, surface, w1, reply);
    }
  }

  lemma LoginMeetsOutcome(w: World, email: string, password: string, surface: Surface)
    ensures var (w1, reply) := Login(w, email, password, surface); LoginOutcome(w, email, password, surface, w1, reply)
  {
    var found := FindActiveByEmail(w.users, Keys.Lower(email), Some(surface), 0);
    forall u: nat ensures found == Some(u) <==> FirstAnswering(w.users, Keys.Lower(email), Some(surface), u) {
      LookupIff(w.users, Keys.Lower(email), Some(surface), u);
    }
    if found.Some? {
      PairIsIssued(w, found.value, None, IssuePair(w, found.value, None).0, IssuePair(w, found.value, None).1);
      PartialIsIssued(w, found.value);
    }
  }

  lemma PartialIsIssued(w: World, u: UserId)
    ensures var value := PartialLogin(u, Some(w.now));
            var until := Some(w.now + w.settings.loginPartialTtl * SECOND);
            && w.issued[w.nextId := Issued(u, None, PartialCredential)] ==
               w.issued + map[w.nextId := Issued(u, None, PartialCredential)]
            && SetEx(w.redis, LoginPartial(w.nextId), w.settings.loginPartialTtl, value, w.now) ==
               w.redis + map[LoginPartial(w.nextId) := Entry(value, until)]
  {
  }

  lemma LoginOutcomeIsUnique(w: World, email: string, password: string, surface: Surface, w1: World, reply: Reply)
    requires LoginOutcome(w, email, password, surface, w1, reply)
    ensures (w1, reply) == Login(w, email, password, surface)
  {
    match reply
    case Tokens(access, refresh) =>
      LookupIff(w.users, Keys.Lower(email), Some(surface), access.sub);
      PairIsIssued(w, access.sub, None, w1, reply);
    case PartialAuth(token) =>
      LookupIff(w.users, Keys.Lower(email), Some(surface), w1.issued[token].owner);
      PartialIsIssued(w, w1.issued[token].owner);
    case _ => LoginMeetsOutcome(w, email, password, surface);
  }

  /** Whoever is the only user of an address on a surface gets in with the right password: with tokens,
      or as a partial login when TOTP is on. */
  lemma RightPasswordLogsIn(w: World, u: UserId, email: string, password: string, surface: Surface)
    requires u < |w.users|
    requires w.users[u].active && !w.users[u].deleted
    requires w.users[u].email == Keys.Lower(email) && w.users[u].surface == surface
    requires w.users[u].password == Some(Digest(password))
    requires forall v :: 0 <= v < |w.users| && v != u ==>
               !(w.users[v].active && !w.users[v].deleted && w.users[v].email == Keys.Lower(email) &&
                 w.users[v].surface == surface)
    ensures var (w1, reply) := Login(w, email, password, surface);
            if w.users[u].totpEnabled then
              reply == PartialAuth(w.nextId) && w1.issued == w.issued[w.nextId := Issued(u, None, PartialCredential)]
            else
              reply.Tokens? && reply.access.sub == u && reply.refresh.sub == u && OnRecord(w1, reply.access) &&
                OnRecord(w1, reply.refresh)
  {
    assert FirstAnswering(w.users, Keys.Lower(email), Some(surface), u);
    LookupIff(w.users, Keys.Lower(email), Some(surface), u);
  }

  /** Nobody else gets in: a login is refused iff no row that the lookup may return has the password. */
  lemma LoginRefusedIff(w: World, email: string, password: string, surface: Surface)
    ensures Login(w, email, password, surface).1.Failed? <==> forall u :: !MayEnter(w, email, password, surface, u)
  {
    LoginMeetsOutcome(w, email, password, surface);
  }

  lemma AddedIsUpdated<K, V>(m: map<K, V>, k: K, v: V)
    ensures m + map[k := v] == m[k := v]
  {
  }

  lemma TwoAdded<K, V>(m: map<K, V>, k: K, v: V, k1: K, v1: V)
    requires k != k1
    ensures m + map[k := v, k1 := v1] == m[k := v][k1 := v1]
  {
  }

  lemma FreshIsNew(w: World, jwt: Jwt, user: UserId, kind: TokenType, jti: Id)
    ensures FreshJwt(w, jwt, user, kind, jti) <==> jwt == NewJwt(w, user, kind, jti)
  {
    assert Lifetime(w, kind) ==
           if kind == Access then w.settings.accessMinutes * MINUTE else w.settings.refreshDays * DAY;
  }

  lemma PairIsIssued(w: World, user: UserId, parent: Option<Id>, w1: World, reply: Reply)
    ensures (w1, reply) == IssuePair(w, user, parent) <==>
            reply.Tokens? && w1.redis == w.redis && PairIssued(w, w1, user, parent, reply.access, reply.refresh)
  {
    var (access, refresh) := (NewJwt(w, user, Access, w.nextId), NewJwt(w, user, Refresh, w.nextId + 1));
    if reply.Tokens? {
      FreshIsNew(w, reply.access, user, Access, w.nextId);
      FreshIsNew(w, reply.refresh, user, Refresh, w.nextId + 1);
    }
    TwoAdded(w.issued, w.nextId, Issued(user, parent, JwtCredential(access)),
             w.nextId + 1, Issued(user, parent, JwtCredential(refresh)));
  }

  /** The partial login stands: its user is active and it began after the cutoff. */
  ghost predicate PartialStands(w: World, value: Value) {
    && value.PartialLogin? && OwnerIsActive(w, value.user)
    && !(value.issuedAt.Some? && IsCutOff(value.issuedAt.value, w.users[value.user].revokedAfter))
  }

  /** Whatever the reply, a live partial token is gone. */
  ghost predicate TotpLoginOutcome(w: World, token: Id, codeOk: bool, w1: World, reply: Reply) {
    if !Holds(w, LoginPartial(token)) then reply == Failed(NotAuthenticated) && w1 == w
    else
      var value := w.redis[LoginPartial(token)].value;
      && w1.redis == w.redis - {LoginPartial(token)}
      && match reply
         case Tokens(access, refresh) =>
           PartialStands(w, value) && codeOk && PairIssued(w, w1, value.user, Some(token), access, refresh)
         case Failed(e) =>
           && !(PartialStands(w, value) && codeOk)
           && e == (if value.PartialLogin? then NotAuthenticated else Invalid)
           && w1 == w.(redis := w1.redis)
         case _ => false
  }

  lemma TotpLoginIsOutcome(w: World, token: Id, codeOk: bool, w1: World, reply: Reply)
    ensures (w1, reply) == CompleteTotp(w, token, codeOk) <==> TotpLoginOutcome(w, token, codeOk, w1, reply)
  {
    if Holds(w, LoginPartial(token)) {
      var value := w.redis[LoginPartial(token)].value;
      if value.PartialLogin? {
        PairIsIssued(w.(redis := w.redis - {LoginPartial(token)}), value.user, Some(token), w1, reply);
      }
    }
  }

  // ---- Rotation and logout ----

  ghost predicate Unexpired(w: World, jwt: Jwt) { OnRecord(w, jwt) && w.now < jwt.exp + w.settings.leeway }

  /** The token's blacklist record after it was written now: it stays for the whole seconds the
      token has left, and is not touched when there is none. */
  ghost predicate Recorded(w: World, redis: Redis, jwt: Jwt) {
    var (key, left) := (Blacklist(jwt.jti), (jwt.exp - w.now) / SECOND);
    if left > 0 then key in redis && redis[key] == Entry(Flag, Some(w.now + left * SECOND))
    else (key in redis <==> key in w.redis) && (key in redis ==> redis[key] == w.redis[key])
  }

  ghost predicate SameElsewhere(a: Redis, b: Redis, keys: set<Key>) { a - keys == b - keys }

  ghost predicate RefreshOutcome(w: World, jwt: Jwt, w1: World, reply: Reply) {
    var listed := Holds(w, Blacklist(jwt.jti));
    match reply
    case Tokens(access, refresh) =>
      && Unexpired(w, jwt) && jwt.kind == Refresh && !listed && OwnerIsActive(w, jwt.sub)
      && !IsCutOff(jwt.iat, w.users[jwt.sub].revokedAfter)
      && Recorded(w, w1.redis, jwt) && SameElsewhere(w1.redis, w.redis, {Blacklist(jwt.jti)})
      && PairIssued(w, w1, jwt.sub, Some(jwt.jti), access, refresh)
    case Failed(e) =>
      && w1 == w
      && (match e
         case TokenExpired => OnRecord(w, jwt) && !Unexpired(w, jwt)
         case NotAuthenticated => Unexpired(w, jwt) && jwt.kind == Refresh && !listed && !OwnerIsActive(w, jwt.sub)
         case InvalidToken =>
           || !OnRecord(w, jwt)
           || (Unexpired(w, jwt) && (jwt.kind != Refresh || listed))
           || (Unexpired(w, jwt) && OwnerIsActive(w, jwt.sub) &&
              IsCutOff(jwt.iat, w.users[jwt.sub].revokedAfter))
         case _ => false)
    case _ => false
  }

  lemma RecordIsBlacklist(w: World, redis: Redis, jwt: Jwt)
    ensures redis == BlacklistToken(w.redis, jwt, w.now) <==>
            Recorded(w, redis, jwt) && SameElsewhere(redis, w.redis, {Blacklist(jwt.jti)})
  {
    var key := Blacklist(jwt.jti);
    if Recorded(w, redis, jwt) && SameElsewhere(redis, w.redis, {key}) {
      forall k ensures k in redis <==> k in BlacklistToken(w.redis, jwt, w.now) {
        assert k in redis - {key} <==> k in w.redis - {key};
      }
      forall k | k in redis ensures redis[k] == BlacklistToken(w.redis, jwt, w.now)[k] {
        assert k != key ==> (redis - {key})[k] == (w.redis - {key})[k];
      }
    }
  }

  lemma RefreshIsOutcome(w: World, jwt: Jwt, w1: World, reply: Reply)
    ensures (w1, reply) == RefreshTokens(w, jwt) <==> RefreshOutcome(w, jwt, w1, reply)
  {
    if Unexpired(w, jwt) {
      var redis := BlacklistToken(w.redis, jwt, w.now);
      PairIsIssued(w.(redis := redis), jwt.sub, Some(jwt.jti), w1, reply);
      RecordIsBlacklist(w, w1.redis, jwt);
    }
  }

  /** A refresh token that decodes as one is taken out with the access token; any other is ignored. */
  ghost predicate LogoutOutcome(w: World, access: Jwt, refresh: Option<Jwt>, w1: World, reply: Reply) {
    var both := refresh.Some? && Unexpired(w, refresh.value) && refresh.value.kind == Refresh;
    match reply
    case Done =>
      && Unexpired(w, access) && w1 == w.(redis := w1.redis)
      && Recorded(w, w1.redis, access) && (both ==> Recorded(w, w1.redis, refresh.value))
      && SameElsewhere(w1.redis, w.redis, {Blacklist(access.jti)} + if both then {Blacklist(refresh.value.jti)} else {})
    case Failed(e) =>
      w1 == w && !Unexpired(w, access) && e == (if OnRecord(w, access) then TokenExpired else InvalidToken)
    case _ => false
  }

  lemma LogoutIsOutcome(w: World, access: Jwt, refresh: Option<Jwt>)
    ensures var (w1, reply) := Logout(w, access, refresh); LogoutOutcome(w, access, refresh, w1, reply)
  {
  }

  lemma LogoutOutcomeIsUnique(w: World, access: Jwt, refresh: Option<Jwt>, w1: World, reply: Reply)
    requires LogoutOutcome(w, access, refresh, w1, reply)
    ensures (w1, reply) == Logout(w, access, refresh)
  {
    var w2 := Logout(w, access, refresh).0;
    LogoutIsOutcome(w, access, refresh);
    if reply.Done? {
      var both := refresh.Some? && Unexpired(w, refresh.value) && refresh.value.kind == Refresh;
      var keys := {Blacklist(access.jti)} + if both then {Blacklist(refresh.value.jti)} else {};
      SameRecords(w1.redis, w2.redis, w.redis, keys);
    }
  }

  lemma SameRecords(a: Redis, b: Redis, base: Redis, keys: set<Key>)
    requires SameElsewhere(a, base, keys) && SameElsewhere(b, base, keys)
    requires forall k :: k in keys ==> (k in a <==> k in b) && (k in a ==> a[k] == b[k])
    ensures a == b
  {
    forall k ensures (k in a <==> k in b) && (k in a && k in b ==> a[k] == b[k]) {
      assert k in a - keys <==> k in b - keys;
      assert k in a - keys ==> (a - keys)[k] == (b - keys)[k];
    }
  }

  // ---- Password reset ----

  /** A reset token for the user, good for its TTL, and nothing else. */
  ghost predicate ResetTokenIssued(w: World, w1: World, user: UserId) {
    w1 == w.(nextId := w.nextId + 1,
             redis := w.redis +
               map[PasswordReset(w.nextId) := Entry(UserRef(user), Some(w.now + w.settings.passwordResetTtl * SECOND))])
  }

  /** The address, in any letter case, is that of row u, which has a password to reset. */
  ghost predicate MayReset(w: World, email: string, u: UserId) {
    FirstAnswering(w.users, Keys.Lower(email), None, u) && w.users[u].password.Some?
  }

  /** The caller cannot tell a known address from an unknown one. */
  ghost predicate ForgotOutcome(w: World, email: string, w1: World, reply: Reply) {
    && reply == Done
    && (|| (w1 == w && forall u :: !MayReset(w, email, u))
        || (exists u :: MayReset(w, email, u) && ResetTokenIssued(w, w1, u)))
  }

  lemma ForgotIsOutcome(w: World, email: string, w1: World, reply: Reply)
    ensures (w1, reply) == ForgotPassword(w, email) <==> ForgotOutcome(w, email, w1, reply)
  {
    var found := FindActiveByEmail(w.users, Keys.Lower(email), None, 0);
    forall u: nat ensures found == Some(u) <==> FirstAnswering(w.users, Keys.Lower(email), None, u) {
      LookupIff(w.users, Keys.Lower(email), None, u);
    }
    if found.Some? {
      AddedIsUpdated(w.redis, PasswordReset(w.nextId),
        Entry(UserRef(found.value), Some(w.now + w.settings.passwordResetTtl * SECOND)));
      assert MayReset(w, email, found.value) <==> w.users[found.value].password.Some?;
    }
  }

  /** The only active user of an address, with a password to reset, gets a reset token. */
  lemma OwnAddressGetsResetToken(w: World, u: UserId, email: string)
    requires u < |w.users| && w.users[u].active && !w.users[u].deleted && w.users[u].email == Keys.Lower(email)
    requires w.users[u].password.Some?
    requires forall v :: 0 <= v < |w.users| && v != u ==>
               !(w.users[v].active && !w.users[v].deleted && w.users[v].email == Keys.Lower(email))
    ensures var (w1, reply) := ForgotPassword(w, email);
            reply == Done && GetKey(w1.redis, PasswordReset(w.nextId), w1.now) ==
                             (if w.settings.passwordResetTtl > 0 then Some(UserRef(u)) else None)
  {
    LookupIff(w.users, Keys.Lower(email), None, u);
    assert FirstAnswering(w.users, Keys.Lower(email), None, u);
  }

  /** Only a live admin without a password is invited. */
  ghost predicate InviteOutcome(w: World, user: UserId, w1: World, reply: Reply) {
    var found := user < |w.users| && !w.users[user].deleted;
    var fit := found && w.users[user].surface == AdminSurface && w.users[user].password == None;
    match reply
    case Done => fit && ResetTokenIssued(w, w1, user)
    case Failed(e) => !fit && w1 == w && e == (if found then NotAllowed else NotFound)
    case _ => false
  }

  lemma InviteIsOutcome(w: World, user: UserId, w1: World, reply: Reply)
    ensures (w1, reply) == Invite(w, user) <==> InviteOutcome(w, user, w1, reply)
  {
    AddedIsUpdated(w.redis, PasswordReset(w.nextId),
      Entry(UserRef(user), Some(w.now + w.settings.passwordResetTtl * SECOND)));
  }

  /** The reset token goes, the password and the cutoff are set, an admin is verified, the user's
      keys are off. Nothing else changes, and a refused call changes nothing. */
  ghost predicate ResetOutcome(w: World, token: Id, password: string, w1: World, reply: Reply) {
    var value := if Holds(w, PasswordReset(token)) then Some(w.redis[PasswordReset(token)].value) else None;
    var valid := value.Some? && value.value.UserRef? && OwnerIsActive(w, value.value.user);
    match reply
    case Done =>
      && valid
      && var u := value.value.user;
         && w1.users == w.users[u := w.users[u].(password := Some(HashPassword(password)), revokedAfter := Some(w.now),
                                                 verified := w.users[u].verified || w.users[u].surface == AdminSurface)]
         && |w1.keys| == |w.keys|
         && (forall i :: 0 <= i < |w.keys| ==>
            w1.keys[i] == w.keys[i].(active := w.keys[i].active && w.keys[i].user != u))
         && w1.redis == w.redis - {PasswordReset(token)}
         && w1 == w.(users := w1.users, keys := w1.keys, redis := w1.redis)
    case Failed(e) => !valid && w1 == w && e == (if value.Some? && !value.value.UserRef? then Invalid else InvalidToken)
    case _ => false
  }

  lemma ResetIsOutcome(w: World, token: Id, password: string, w1: World, reply: Reply)
    ensures (w1, reply) == ResetPassword(w, token, password) <==> ResetOutcome(w, token, password, w1, reply)
  {
    var (w2, _) := ResetPassword(w, token, password);
    if ResetOutcome(w, token, password, w1, reply) && reply.Done? {
      assert w1.keys == w2.keys;
    }
  }

  // ---- Who is calling ----

  /** The presented text: at most twelve characters of prefix, and the secret behind them. */
  function Cut(raw: string): nat { if |raw| < 12 then |raw| else 12 }

  /** The row was made for this text, is active and has not reached its expiry. */
  ghost predicate Opens(key: ApiKey, raw: string, now: nat) {
    && key.active && (key.expires == None || now < key.expires.value)
    && key.prefix == raw[..Cut(raw)] && key.secret == Digest(raw[Cut(raw)..])
  }

  /** Row i is the one that the text opens: the first of those it could. */
  ghost predicate FirstOpened(w: World, raw: string, i: nat) {
    && "sk_live_" <= raw && i < |w.keys| && Opens(w.keys[i], raw, w.now)
    && forall j :: 0 <= j < i ==> !Opens(w.keys[j], raw, w.now)
  }

  lemma KeyLookupIff(w: World, raw: string, i: nat)
    requires "sk_live_" <= raw
    ensures FindKey(w.keys, SplitKey(raw).0, SplitKey(raw).1, w.now, 0) == Some(i) <==> FirstOpened(w, raw, i)
  {
    var (prefix, secret) := SplitKey(raw);
    assert prefix + secret == raw && |prefix| == Cut(raw);
    assert prefix == raw[..Cut(raw)] && secret == raw[Cut(raw)..];
    forall k | 0 <= k < |w.keys|
      ensures IsCandidate(w.keys[k], prefix, w.now) && VerifyPassword(secret, w.keys[k].secret) <==>
              Opens(w.keys[k], raw, w.now)
    {
    }
    var found := FindKey(w.keys, prefix, secret, w.now, 0);
    assert found.Some? ==> FirstOpened(w, raw, found.value);
    if found.Some? && FirstOpened(w, raw, i) { OnlyOneIsFirst(w, raw, found.value, i); }
  }

  lemma OnlyOneIsFirst(w: World, raw: string, i: nat, j: nat)
    requires FirstOpened(w, raw, i) && FirstOpened(w, raw, j)
    ensures i == j
  {
  }

  ghost predicate KeyOutcome(w: World, raw: string, r: Result<ApiKey, Error>) {
    match r
    case Ok(key) => exists i: nat :: FirstOpened(w, raw, i) && key == w.keys[i]
    case Err(e) => (forall i: nat :: !FirstOpened(w, raw, i)) && e == NotAuthenticated
  }

  lemma KeyIsOutcome(w: World, raw: string, r: Result<ApiKey, Error>)
    ensures r == Authenticate(w, raw) <==> KeyOutcome(w, raw, r)
  {
    if "sk_live_" <= raw {
      forall i: nat
        ensures FindKey(w.keys, SplitKey(raw).0, SplitKey(raw).1, w.now, 0) == Some(i) <==> FirstOpened(w, raw, i)
      {
        KeyLookupIff(w, raw, i);
      }
    }
  }

  ghost predicate Listed(w: World, jwt: Jwt) { Holds(w, Blacklist(jwt.jti)) }

  ghost predicate CutOff(w: World, jwt: Jwt) {
    jwt.sub < |w.users| && IsCutOff(jwt.iat, w.users[jwt.sub].revokedAfter)
  }

  /** A key opens the door to its live, active owner, with the stored scopes; an access token to its
      subject, without scopes, while it is unexpired, not blacklisted and after the cutoff. */
  ghost predicate AuthOutcome(w: World, presented: Presented, r: Result<Auth, Error>) {
    match presented
    case ApiKeyHeader(raw) => (
      match r
      case Ok(auth) =>
        exists i: nat :: FirstOpened(w, raw, i) && OwnerIsActive(w, w.keys[i].user) &&
                    auth == Auth(w.keys[i].user, w.keys[i].id, Some(Scopes.ScopeSet(w.keys[i].scopes)))
      case Err(e) =>
        e == NotAuthenticated && forall i: nat :: FirstOpened(w, raw, i) ==> !OwnerIsActive(w, w.keys[i].user)
    )
    case Bearer(jwt) =>
      var good := Unexpired(w, jwt) && jwt.kind == Access && !Listed(w, jwt);
      match r
      case Ok(auth) => good && OwnerIsActive(w, jwt.sub) && !CutOff(w, jwt) && auth == Auth(jwt.sub, jwt.jti, None)
      case Err(e) =>
        match e
        case TokenExpired => OnRecord(w, jwt) && !Unexpired(w, jwt)
        case NotAuthenticated => good && !OwnerIsActive(w, jwt.sub)
        case InvalidToken =>
          !OnRecord(w, jwt) || (Unexpired(w, jwt) && !good) || (good && OwnerIsActive(w, jwt.sub) && CutOff(w, jwt))
        case _ => false
  }

  lemma AuthIsOutcome(w: World, presented: Presented, r: Result<Auth, Error>)
    ensures r == GetCurrentAuth(w, presented) <==> AuthOutcome(w, presented, r)
  {
    if presented.ApiKeyHeader? {
      KeyIsOutcome(w, presented.raw, Authenticate(w, presented.raw));
      forall i: nat, j: nat | FirstOpened(w, presented.raw, i) && FirstOpened(w, presented.raw, j) ensures i == j {
        OnlyOneIsFirst(w, presented.raw, i, j);
      }
    }
  }

  /** Once a user is deactivated, nothing of theirs is accepted: no key and no token, whatever it is. */
  lemma DeactivationClosesTheDoor(w: World, u: UserId, row: User, presented: Presented)
    requires u < |w.users| && !row.active
    ensures var (w1, reply) := EditUser(w, u, row);
            reply == Done && (GetCurrentAuth(w1, presented).Ok? ==> GetCurrentAuth(w1, presented).value.user != u)
  {
    var w1 := EditUser(w, u, row).0;
    AuthIsOutcome(w1, presented, GetCurrentAuth(w1, presented));
  }

  /** What other calls write to a row never moves the cutoff, and a new user has none. */
  lemma EditsKeepTheCutoff(w: World, u: UserId, row: User)
    ensures u < |w.users| ==>
            EditUser(w, u, row).0 == w.(users := w.users[u := row.(revokedAfter := w.users[u].revokedAfter)])
    ensures u >= |w.users| ==> EditUser(w, u, row) == (w, Failed(NotFound))
    ensures var (w1, reply) := Register(w, row);
            && reply == Done && w1 == w.(users := w1.users, redis := w1.redis, nextId := w.nextId + 1)
            && w1.users == w.users + [row.(revokedAfter := None)]
            && w1.redis == w.redis + map[EmailVerify(w.nextId) :=
                 Entry(UserRef(|w.users|), Some(w.now + w.settings.emailVerifyTtl * SECOND))]
  {
    AddedIsUpdated(w.redis, EmailVerify(w.nextId),
      Entry(UserRef(|w.users|), Some(w.now + w.settings.emailVerifyTtl * SECOND)));
  }

  // ---- API keys ----

  /** The caller's own permissions, cut down to the key's scopes when a key was presented. */
  ghost predicate Granted(auth: Auth, perms: set<string>, permission: string) {
    permission in perms && (auth.scopes.Some? ==> permission in auth.scopes.value)
  }

  lemma EffectiveIff(auth: Auth, perms: set<string>, permission: string)
    ensures permission in EffectivePermissions(auth, perms) <==> Granted(auth, perms, permission)
  {
  }

  ghost predicate PrefixTaken(w: World, user: UserId, prefix: string) {
    exists i :: 0 <= i < |w.keys| && w.keys[i].user == user && w.keys[i].prefix == prefix
  }

  ghost predicate WordsOnly(scopes: seq<string>) {
    forall s :: s in scopes ==> s != "" && forall i :: 0 <= i < |s| ==> !Scopes.IsSpace(s[i])
  }

  ghost predicate MayCreate(auth: Auth, scopes: seq<string>, perms: set<string>) {
    Granted(auth, perms, "api_keys.create") && forall s :: s in scopes ==> Granted(auth, perms, s)
  }

  /** The first refusal that applies, for an authenticated caller. */
  ghost predicate CreateRefused(w: World, auth: Auth, raw: string, scopes: seq<string>, perms: set<string>, e: Error) {
    match e
    case Invalid => !WordsOnly(scopes)
    case NotAllowed => WordsOnly(scopes) && !MayCreate(auth, scopes, perms)
    case Conflict =>
      WordsOnly(scopes) && MayCreate(auth, scopes, perms) && PrefixTaken(w, auth.user, raw[..Cut(raw)])
    case _ => false
  }

  /** One new, active row of the caller, with the requested scopes, each of which the caller has; on
      record as obtained with the presented credential. A refusal changes nothing. */
  ghost predicate CreateOutcome(w: World, presented: Presented, raw: string, scopes: seq<string>, expires: Option<nat>,
                                perms: set<string>, w1: World, reply: Reply)
  {
    match GetCurrentAuth(w, presented)
    case Err(e) => reply == Failed(e) && w1 == w
    case Ok(auth) =>
      match reply
      case KeyCreated(id) =>
        && (forall e :: !CreateRefused(w, auth, raw, scopes, perms, e))
        && id == w.nextId && w1.nextId == id + 1 && OnlyKeysAndIssued(w, w1)
        && w1.issued == w.issued + map[id := Issued(auth.user, Some(auth.credential), KeyCredential)]
        && w1.keys == w.keys +
           [ApiKey(id, auth.user, raw[..Cut(raw)], Digest(raw[Cut(raw)..]), Scopes.Stored(scopes), expires, true)]
      case Failed(e) => w1 == w && CreateRefused(w, auth, raw, scopes, perms, e)
      case _ => false
  }

  ghost predicate OnlyKeysAndIssued(w: World, w1: World) {
    w1.now == w.now && w1.users == w.users && w1.redis == w.redis && w1.settings == w.settings
  }

  lemma ChecksAreGuards(auth: Auth, scopes: seq<string>, perms: set<string>)
    ensures WordsOnly(scopes) <==> !exists i :: 0 <= i < |scopes| && !Scopes.IsWord(scopes[i])
    ensures var effective := EffectivePermissions(auth, perms);
            MayCreate(auth, scopes, perms) <==>
            API_KEYS_CREATE in effective && !exists i :: 0 <= i < |scopes| && scopes[i] !in effective
  {
    forall p ensures p in EffectivePermissions(auth, perms) <==> Granted(auth, perms, p) {
      EffectiveIff(auth, perms, p);
    }
  }

  lemma CreateIsOutcome(w: World, presented: Presented, raw: string, scopes: seq<string>, expires: Option<nat>,
                        perms: set<string>)
    ensures var (w1, reply) := CreateKey(w, presented, raw, scopes, expires, perms);
            CreateOutcome(w, presented, raw, scopes, expires, perms, w1, reply)
  {
    var (prefix, secret) := SplitKey(raw);
    assert prefix == raw[..Cut(raw)] && secret == raw[Cut(raw)..];
    var auth := GetCurrentAuth(w, presented);
    if auth.Ok? {
      ChecksAreGuards(auth.value, scopes, perms);
      AddedIsUpdated(w.issued, w.nextId, Issued(auth.value.user, Some(auth.value.credential), KeyCredential));
    }
  }

  /** Only the owner's own row is switched off. */
  ghost predicate RevokeOutcome(w: World, id: Id, user: UserId, w1: World, reply: Reply) {
    match reply
    case Done =>
      exists i :: 0 <= i < |w.keys| && w.keys[i].id == id && w.keys[i].user == user &&
        (forall j :: 0 <= j < i ==> w.keys[j].id != id) &&
                  w1 == w.(keys := w.keys[i := w.keys[i].(active := false)])
    case Failed(e) =>
      && e == NotFound && w1 == w
      && forall i :: 0 <= i < |w.keys| && w.keys[i].id == id && (forall j :: 0 <= j < i ==> w.keys[j].id != id) ==>
         w.keys[i].user != user
    case _ => false
  }

  lemma RevokeIsOutcome(w: World, id: Id, user: UserId)
    ensures var (w1, reply) := RevokeKey(w, id, user); RevokeOutcome(w, id, user, w1, reply)
  {
  }

  // ---- The clean-up job ----

  /** Blacklist records, verification tokens and reset tokens without a TTL go, and nothing else. */
  lemma CleanUpOutcome(w: World, k: Key)
    ensures var (w1, reply) := CleanUp(w);
            && reply == Done && w1 == w.(redis := w1.redis)
            && (k in w1.redis <==> k in w.redis && !(w.redis[k].expires == None && !k.LoginPartial?))
            && (k in w1.redis ==> w1.redis[k] == w.redis[k])
            && (Orphan(w.redis, k) <==> k in w.redis && k !in w1.redis)
  {
  }
}
