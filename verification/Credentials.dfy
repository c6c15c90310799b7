/** The credential protocol: what each call of AuthService, AccountService, APIKeyService,
    `get_current_auth` and the clean-up job does to the clock, the Redis store and the tables.
    Times are microseconds; every call is one atomic step at the instant `now`. */
module Credentials {
  import Keys
  import opened Prelude
  import opened Scopes

  type Id = nat
  type UserId = nat

  /** `timegm(utctimetuple())`: a JWT carries whole seconds. */
  function FloorSecond(t: nat): (s: nat)
    ensures s <= t < s + SECOND
    ensures s % SECOND == 0
  {
    t / SECOND * SECOND
  }

  datatype Surface = ClientSurface | AdminSurface

  datatype User = User(email: string, password: Option<Digest>, surface: Surface, active: bool,
                       deleted: bool, verified: bool, totpEnabled: bool, revokedAfter: Option<nat>)

  datatype TokenType = Access | Refresh

  datatype Jwt = Jwt(sub: UserId, kind: TokenType, jti: Id, iat: nat, exp: nat)

  datatype ApiKey = ApiKey(id: Id, user: UserId, prefix: string, secret: Digest, scopes: string,
                           expires: Option<nat>, active: bool)

  // ---- Redis ----

  datatype Key = Blacklist(id: Id) | EmailVerify(id: Id) | PasswordReset(id: Id) | LoginPartial(id: Id)

  datatype Value = Flag | UserRef(user: UserId) | PartialLogin(user: UserId, issuedAt: Option<nat>)

  /** A stored value and the instant at which Redis drops it, if it has a TTL. */
  datatype Entry = Entry(value: Value, expires: Option<nat>)

  type Redis = map<Key, Entry>

  predicate Present(redis: Redis, key: Key, now: nat) {
    key in redis && (redis[key].expires.Some? ==> now < redis[key].expires.value)
  }

  function GetKey(redis: Redis, key: Key, now: nat): Option<Value> {
    if Present(redis, key, now) then Some(redis[key].value) else None
  }

  function SetEx(redis: Redis, key: Key, ttl: nat, value: Value, now: nat): Redis {
    redis[key := Entry(value, Some(now + ttl * SECOND))]
  }

  // ---- The state ----

  /** The configured lifetimes; and how long after `exp` a JWT is still taken for unexpired. */
  datatype Settings = Settings(accessMinutes: nat, refreshDays: nat, emailVerifyTtl: nat, passwordResetTtl: nat,
                               loginPartialTtl: nat, leeway: nat)

  /** What a credential is: a signed JWT, a partial-login token or an API key. */
  datatype Kind = JwtCredential(jwt: Jwt) | PartialCredential | KeyCredential

  /** The record of an issued credential: its owner, and the credential it was obtained with. */
  datatype Issued = Issued(owner: UserId, parent: Option<Id>, kind: Kind)

  /** `nextId` hands out the fresh random identifiers (jti, opaque tokens, key ids). `issued`
      records every credential ever issued; a JWT signature is genuine iff the JWT is in it. */
  datatype World = World(now: nat, nextId: Id, users: seq<User>, redis: Redis, keys: seq<ApiKey>,
                         issued: map<Id, Issued>, settings: Settings)

  datatype Error = InvalidToken | TokenExpired | NotAuthenticated | NotAllowed | NotFound | Conflict | Invalid

  datatype Reply =
    | Done
    | Tokens(access: Jwt, refresh: Jwt)
    | PartialAuth(token: Id)
    | KeyCreated(id: Id)
    | Failed(error: Error)

  function GetById(w: World, user: UserId): Option<User> {
    if user < |w.users| && !w.users[user].deleted then Some(w.users[user]) else None
  }

  // ---- JWTs ----

  function Lifetime(w: World, kind: TokenType): nat {
    if kind.Access? then w.settings.accessMinutes * 60 * SECOND else w.settings.refreshDays * 86400 * SECOND
  }

  function NewJwt(w: World, user: UserId, kind: TokenType, jti: Id): Jwt {
    Jwt(user, kind, jti, FloorSecond(w.now), FloorSecond(w.now + Lifetime(w, kind)))
  }

  /** Issues an access and a refresh token obtained with `parent`. */
  function IssuePair(w: World, user: UserId, parent: Option<Id>): (World, Reply) {
    var access := NewJwt(w, user, Access, w.nextId);
    var refresh := NewJwt(w, user, Refresh, w.nextId + 1);
    (w.(nextId := w.nextId + 2,
        issued := w.issued[w.nextId := Issued(user, parent, JwtCredential(access))]
                          [w.nextId + 1 := Issued(user, parent, JwtCredential(refresh))]),
     Tokens(access, refresh))
  }

  predicate Genuine(w: World, jwt: Jwt) {
    jwt.jti in w.issued && w.issued[jwt.jti].kind == JwtCredential(jwt)
  }

  /** Signature first, then expiry. Without leeway a token is expired from `exp` on (section 4.1.4 of
      RFC 7519). A library that compares `exp` with its own clock cut to whole seconds, as python-jose
      does, has a leeway of one second. */
  function DecodeToken(w: World, jwt: Jwt): Result<Jwt, Error> {
    if !Genuine(w, jwt) then Err(InvalidToken)
    else if w.now >= jwt.exp + w.settings.leeway then Err(TokenExpired)
    else Ok(jwt)
  }

  predicate IsTokenRevokedAfter(issuedAt: nat, revokedAfter: Option<nat>) {
    revokedAfter.Some? && issuedAt <= revokedAfter.value
  }

  // ---- AuthService ----

  function FindActiveByEmail(users: seq<User>, email: string, surface: Option<Surface>, from: nat): (r: Option<UserId>)
    requires from <= |users|
    ensures r.Some? ==>
            && from <= r.value < |users|
            && users[r.value].active && !users[r.value].deleted && users[r.value].email == email
            && (surface.Some? ==> users[r.value].surface == surface.value)
    ensures forall u :: from <= u < |users| && (r.Some? ==> u < r.value) ==>
              !(users[u].active && !users[u].deleted && users[u].email == email &&
                (surface.Some? ==> users[u].surface == surface.value))
    decreases |users| - from
  {
    if from == |users| then None
    else if users[from].email == email && users[from].active && !users[from].deleted &&
            (surface.Some? ==> users[from].surface == surface.value) then Some(from)
    else FindActiveByEmail(users, email, surface, from + 1)
  }

  function Login(w: World, email: string, password: string, surface: Surface): (World, Reply) {
    match FindActiveByEmail(w.users, Keys.Lower(email), Some(surface), 0)
    case None => (w, Failed(NotAuthenticated))
    case Some(user) =>
      var row := w.users[user];
      if row.password.None? || !VerifyPassword(password, row.password.value) then (w, Failed(NotAuthenticated))
      else if row.totpEnabled then
        var value := PartialLogin(user, Some(w.now));
        (w.(nextId := w.nextId + 1,
            issued := w.issued[w.nextId := Issued(user, None, PartialCredential)],
            redis := SetEx(w.redis, LoginPartial(w.nextId), w.settings.loginPartialTtl, value, w.now)),
         PartialAuth(w.nextId))
      else IssuePair(w, user, None)
  }

  /** `codeOk` is the answer of `TOTPService.check_login`. The partial token is consumed first. */
  function CompleteTotp(w: World, token: Id, codeOk: bool): (World, Reply) {
    match GetKey(w.redis, LoginPartial(token), w.now)
    case None => (w, Failed(NotAuthenticated))
    case Some(value) =>
      var w1 := w.(redis := w.redis - {LoginPartial(token)});
      if !value.PartialLogin? then (w1, Failed(Invalid))
      else
        var row := GetById(w1, value.user);
        if row.None? || !row.value.active then (w1, Failed(NotAuthenticated))
        else if value.issuedAt.Some? && IsTokenRevokedAfter(value.issuedAt.value, row.value.revokedAfter) then
          (w1, Failed(NotAuthenticated))
        else if !codeOk then (w1, Failed(NotAuthenticated))
        else IssuePair(w1, value.user, Some(token))
  }

  /** Blacklists a jti for the whole seconds its token has left. */
  function BlacklistToken(redis: Redis, jwt: Jwt, now: nat): Redis {
    if jwt.exp > now && (jwt.exp - now) / SECOND > 0 then
      SetEx(redis, Blacklist(jwt.jti), (jwt.exp - now) / SECOND, Flag, now)
    else redis
  }

  function RefreshTokens(w: World, jwt: Jwt): (World, Reply) {
    match DecodeToken(w, jwt)
    case Err(e) => (w, Failed(e))
    case Ok(payload) =>
      if payload.kind != Refresh then (w, Failed(InvalidToken))
      else if Present(w.redis, Blacklist(payload.jti), w.now) then (w, Failed(InvalidToken))
      else
        var row := GetById(w, payload.sub);
        if row.None? || !row.value.active then (w, Failed(NotAuthenticated))
        else if IsTokenRevokedAfter(payload.iat, row.value.revokedAfter) then (w, Failed(InvalidToken))
        else IssuePair(w.(redis := BlacklistToken(w.redis, payload, w.now)), payload.sub, Some(payload.jti))
  }

  /** A refresh token that does not decode does not prevent the logout. */
  function Logout(w: World, access: Jwt, refresh: Option<Jwt>): (World, Reply) {
    match DecodeToken(w, access)
    case Err(e) => (w, Failed(e))
    case Ok(payload) =>
      var redis := BlacklistToken(w.redis, payload, w.now);
      if refresh.Some? && DecodeToken(w, refresh.value).Ok? && refresh.value.kind == Refresh then
        (w.(redis := BlacklistToken(redis, refresh.value, w.now)), Done)
      else (w.(redis := redis), Done)
  }

  // ---- AccountService ----

  function ForgotPassword(w: World, email: string): (World, Reply) {
    match FindActiveByEmail(w.users, Keys.Lower(email), None, 0)
    case None => (w, Done)
    case Some(user) =>
      if w.users[user].password.None? then (w, Done)
      else
        (w.(nextId := w.nextId + 1,
            redis := SetEx(w.redis, PasswordReset(w.nextId), w.settings.passwordResetTtl, UserRef(user), w.now)), Done)
  }

  /** An invitation is a reset token for an admin user who has no password yet. */
  function Invite(w: World, user: UserId): (World, Reply) {
    match GetById(w, user)
    case None => (w, Failed(NotFound))
    case Some(row) =>
      if row.surface.ClientSurface? || row.password.Some? then (w, Failed(NotAllowed))
      else
        (w.(nextId := w.nextId + 1,
            redis := SetEx(w.redis, PasswordReset(w.nextId), w.settings.passwordResetTtl, UserRef(user), w.now)), Done)
  }

  function RevokeAll(keys: seq<ApiKey>, user: UserId): (r: seq<ApiKey>)
    ensures |r| == |keys|
    ensures forall i :: 0 <= i < |keys| ==> r[i] == if keys[i].user == user then keys[i].(active := false) else keys[i]
  {
    seq(|keys|, i requires 0 <= i < |keys| => if keys[i].user == user then keys[i].(active := false) else keys[i])
  }

  function ResetPassword(w: World, token: Id, password: string): (World, Reply) {
    match GetKey(w.redis, PasswordReset(token), w.now)
    case None => (w, Failed(InvalidToken))
    case Some(value) =>
      if !value.UserRef? then (w, Failed(Invalid))
      else
        var row := GetById(w, value.user);
        if row.None? || !row.value.active then (w, Failed(InvalidToken))
        else
          var user := row.value.(password := Some(HashPassword(password)), revokedAfter := Some(w.now),
                                 verified := row.value.verified || row.value.surface.AdminSurface?);
          (w.(redis := w.redis - {PasswordReset(token)},
              users := w.users[value.user := user],
              keys := RevokeAll(w.keys, value.user)), Done)
  }

  // ---- API keys ----

  const API_KEY_PREFIX := "sk_live_"

  /** The first twelve characters, and the rest. */
  function SplitKey(raw: string): (parts: (string, string))
    ensures parts.0 + parts.1 == raw && |parts.0| == if |raw| < 12 then |raw| else 12
  {
    if |raw| <= 12 then (raw, "") else (raw[..12], raw[12..])
  }

  predicate IsCandidate(key: ApiKey, prefix: string, now: nat) {
    key.prefix == prefix && key.active && (key.expires.Some? ==> key.expires.value > now)
  }

  /** The first active, unexpired key with this prefix whose hash verifies. */
  function FindKey(keys: seq<ApiKey>, prefix: string, secret: string, now: nat, from: nat): (r: Option<nat>)
    requires from <= |keys|
    ensures r.Some? ==>
            from <= r.value < |keys| && IsCandidate(keys[r.value], prefix, now) &&
            VerifyPassword(secret, keys[r.value].secret)
    ensures forall i :: from <= i < |keys| && (r.Some? ==> i < r.value) ==>
            !(IsCandidate(keys[i], prefix, now) && VerifyPassword(secret, keys[i].secret))
    decreases |keys| - from
  {
    if from == |keys| then None
    else if IsCandidate(keys[from], prefix, now) && VerifyPassword(secret, keys[from].secret) then Some(from)
    else FindKey(keys, prefix, secret, now, from + 1)
  }

  function Authenticate(w: World, raw: string): Result<ApiKey, Error> {
    if !(API_KEY_PREFIX <= raw) then Err(NotAuthenticated)
    else
      var (prefix, secret) := SplitKey(raw);
      match FindKey(w.keys, prefix, secret, w.now, 0)
      case None => Err(NotAuthenticated)
      case Some(i) => Ok(w.keys[i])
  }

  datatype Presented = Bearer(jwt: Jwt) | ApiKeyHeader(raw: string)

  /** Who is calling, with which credential, and the key's scopes when it was a key. */
  datatype Auth = Auth(user: UserId, credential: Id, scopes: Option<set<string>>)

  function GetCurrentAuth(w: World, presented: Presented): Result<Auth, Error> {
    match presented
    case ApiKeyHeader(raw) => (
      match Authenticate(w, raw)
      case Err(e) => Err(e)
      case Ok(key) =>
        var row := GetById(w, key.user);
        if row.None? || !row.value.active then Err(NotAuthenticated)
        else Ok(Auth(key.user, key.id, Some(ScopeSet(key.scopes))))
    )
    case Bearer(jwt) =>
      match DecodeToken(w, jwt)
      case Err(e) => Err(e)
      case Ok(payload) =>
        if payload.kind != Access then Err(InvalidToken)
        else if Present(w.redis, Blacklist(payload.jti), w.now) then Err(InvalidToken)
        else
          var row := GetById(w, payload.sub);
          if row.None? || !row.value.active then Err(NotAuthenticated)
          else if IsTokenRevokedAfter(payload.iat, row.value.revokedAfter) then Err(InvalidToken)
          else Ok(Auth(payload.sub, payload.jti, None))
  }

  /** The WebSocket endpoint's handshake: the token of the first message is decoded, and its subject
      joins the room. Type, blacklist, cutoff and user are not looked at. */
  function Handshake(w: World, jwt: Jwt): Result<UserId, Error> {
    match DecodeToken(w, jwt)
    case Err(e) => Err(e)
    case Ok(payload) => Ok(payload.sub)
  }

  /** `perms` is the owner's resolved permission set at this instant. */
  function EffectivePermissions(auth: Auth, perms: set<string>): set<string> {
    if auth.scopes.None? then perms
    else if auth.scopes.value == {} then {}
    else perms * auth.scopes.value
  }

  const API_KEYS_CREATE := "api_keys.create"

  predicate KeyTaken(keys: seq<ApiKey>, user: UserId, prefix: string) {
    exists i :: 0 <= i < |keys| && keys[i].user == user && keys[i].prefix == prefix
  }

  /** The endpoint's scope check and `APIKeyService.create`; `raw` is the generated key. The table
      does not accept the same prefix twice for one user. */
  function CreateKey(w: World, presented: Presented, raw: string, scopes: seq<string>, expires: Option<nat>,
                     perms: set<string>): (World, Reply)
  {
    match GetCurrentAuth(w, presented)
    case Err(e) => (w, Failed(e))
    case Ok(auth) =>
      var effective := EffectivePermissions(auth, perms);
      var (prefix, secret) := SplitKey(raw);
      if exists i :: 0 <= i < |scopes| && !IsWord(scopes[i]) then (w, Failed(Invalid))
      else if API_KEYS_CREATE !in effective then (w, Failed(NotAllowed))
      else if exists i :: 0 <= i < |scopes| && scopes[i] !in effective then (w, Failed(NotAllowed))
      else if KeyTaken(w.keys, auth.user, prefix) then (w, Failed(Conflict))
      else
        var row := ApiKey(w.nextId, auth.user, prefix, HashPassword(secret), Stored(scopes), expires, true);
        (w.(nextId := w.nextId + 1,
            issued := w.issued[w.nextId := Issued(auth.user, Some(auth.credential), KeyCredential)],
            keys := w.keys + [row]),
         KeyCreated(w.nextId))
  }

  function FindRow(keys: seq<ApiKey>, id: Id, from: nat): (r: Option<nat>)
    requires from <= |keys|
    ensures r.Some? ==> from <= r.value < |keys| && keys[r.value].id == id
    ensures forall i :: from <= i < |keys| && (r.Some? ==> i < r.value) ==> keys[i].id != id
    decreases |keys| - from
  {
    if from == |keys| then None
    else if keys[from].id == id then Some(from)
    else FindRow(keys, id, from + 1)
  }

  function RevokeKey(w: World, id: Id, user: UserId): (World, Reply) {
    match FindRow(w.keys, id, 0)
    case None => (w, Failed(NotFound))
    case Some(i) =>
      if w.keys[i].user != user then (w, Failed(NotFound))
      else (w.(keys := w.keys[i := w.keys[i].(active := false)]), Done)
  }

  // ---- Registration, the clean-up job and everything else ----

  function Register(w: World, row: User): (World, Reply) {
    (w.(nextId := w.nextId + 1,
        users := w.users + [row.(revokedAfter := None)],
        redis := SetEx(w.redis, EmailVerify(w.nextId), w.settings.emailVerifyTtl, UserRef(|w.users|), w.now)), Done)
  }

  /** The three patterns the clean-up job scans. */
  predicate Scanned(key: Key) {
    key.Blacklist? || key.EmailVerify? || key.PasswordReset?
  }

  /** What the job is for: keys under its patterns that have no TTL. */
  predicate Orphan(redis: Redis, key: Key) {
    key in redis && Scanned(key) && redis[key].expires.None?
  }

  function CleanUp(w: World): (World, Reply) {
    (w.(redis := map k | k in w.redis && !Orphan(w.redis, k) :: w.redis[k]), Done)
  }

  /** Any change other calls make to a user's row: none of them writes `session_revoked_after`. */
  function EditUser(w: World, user: UserId, row: User): (World, Reply) {
    if user < |w.users| then (w.(users := w.users[user := row.(revokedAfter := w.users[user].revokedAfter)]), Done)
    else (w, Failed(NotFound))
  }

  // ---- Runs ----

  datatype Call =
    | Tick(elapsed: nat)
    | DoRegister(row: User)
    | DoLogin(email: string, password: string, surface: Surface)
    | DoCompleteTotp(token: Id, codeOk: bool)
    | DoRefresh(jwt: Jwt)
    | DoLogout(access: Jwt, refresh: Option<Jwt>)
    | DoForgotPassword(email: string)
    | DoInvite(user: UserId)
    | DoResetPassword(token: Id, password: string)
    | DoCreateKey(presented: Presented, raw: string, scopes: seq<string>, expires: Option<nat>, perms: set<string>)
    | DoRevokeKey(id: Id, user: UserId)
    | DoCleanUp
    | DoEditUser(user: UserId, row: User)

  function Step(w: World, call: Call): (World, Reply) {
    match call
    case Tick(elapsed) => (w.(now := w.now + elapsed), Done)
    case DoRegister(row) => Register(w, row)
    case DoLogin(email, password, surface) => Login(w, email, password, surface)
    case DoCompleteTotp(token, codeOk) => CompleteTotp(w, token, codeOk)
    case DoRefresh(jwt) => RefreshTokens(w, jwt)
    case DoLogout(access, refresh) => Logout(w, access, refresh)
    case DoForgotPassword(email) => ForgotPassword(w, email)
    case DoInvite(user) => Invite(w, user)
    case DoResetPassword(token, password) => ResetPassword(w, token, password)
    case DoCreateKey(presented, raw, scopes, expires, perms) => CreateKey(w, presented, raw, scopes, expires, perms)
    case DoRevokeKey(id, user) => RevokeKey(w, id, user)
    case DoCleanUp => CleanUp(w)
    case DoEditUser(user, row) => EditUser(w, user, row)
  }

  /** The state after any sequence of calls. */
  function Run(w: World, calls: seq<Call>): World
    decreases |calls|
  {
    if calls == [] then w else Run(Step(w, calls[0]).0, calls[1..])
  }
}
