/** The services as they run: objects that read and write the shared stores step by step. Their
    methods have the outcomes of `CredentialOutcomes`, which are the transitions of `Credentials`. */
module CredentialServices {
  import Keys
  import opened Prelude
  import opened C = Credentials
  import opened CredentialOutcomes
  import Scopes

  /** The stores every service shares: the clock, Redis, the tables, and the JWT signing key
      (as the record of what was signed). */
  class Backend {
    const settings: Settings
    var now: nat
    var nextId: Id
    var users: seq<User>
    var redis: Redis
    var keys: seq<ApiKey>
    var issued: map<Id, Issued>

    constructor (settings: Settings, now: nat)
      ensures State() == World(now, 0, [], map[], [], map[], settings)
    {
      this.settings, this.now := settings, now;
      nextId, users, redis, keys, issued := 0, [], map[], [], map[];
    }

    function State(): World
      reads this
    {
      World(now, nextId, users, redis, keys, issued, settings)
    }

    method Get(key: Key) returns (value: Option<Value>)
      ensures value == GetKey(redis, key, now)
    {
      value := if key in redis && (redis[key].expires.Some? ==> now < redis[key].expires.value)
               then Some(redis[key].value) else None;
    }

    method Exists(key: Key) returns (found: bool)
      ensures found == Present(redis, key, now)
    {
      var value := Get(key);
      found := value.Some?;
    }

    method SetExpiring(key: Key, ttl: nat, value: Value)
      modifies `redis
      ensures redis == SetEx(old(redis), key, ttl, value, now)
    {
      redis := redis[key := Entry(value, Some(now + ttl * SECOND))];
    }

    method Delete(key: Key)
      modifies `redis
      ensures redis == old(redis) - {key}
    {
      redis := redis - {key};
    }

    /** Seconds to live; -1 without a TTL, -2 when there is no such key. */
    method Ttl(key: Key) returns (ttl: int)
      ensures ttl == -1 <==> key in redis && redis[key].expires.None?
      ensures ttl == -2 <==> !Present(redis, key, now)
    {
      if key !in redis { return -2; }
      match redis[key].expires
      case None => ttl := -1;
      case Some(e) => ttl := if now < e then (e - now) / SECOND else -2;
    }

    method SignJwt(user: UserId, kind: TokenType, parent: Option<Id>) returns (jwt: Jwt)
      modifies `nextId, `issued
      ensures jwt == NewJwt(old(State()), user, kind, old(nextId))
      ensures nextId == old(nextId) + 1
      ensures issued == old(issued)[old(nextId) := Issued(user, parent, JwtCredential(jwt))]
    {
      var lifetime := if kind.Access? then settings.accessMinutes * 60 else settings.refreshDays * 86400;
      jwt := Jwt(user, kind, nextId, FloorSecond(now), FloorSecond(now + lifetime * SECOND));
      issued := issued[nextId := Issued(user, parent, JwtCredential(jwt))];
      nextId := nextId + 1;
    }

    method CreateTokenPair(user: UserId, parent: Option<Id>) returns (reply: Reply)
      modifies `nextId, `issued
      ensures (State(), reply) == IssuePair(old(State()), user, parent)
    {
      var access := SignJwt(user, Access, parent);
      var refresh := SignJwt(user, Refresh, parent);
      reply := Tokens(access, refresh);
    }
  }

  class AuthService {
    const backend: Backend

    constructor (backend: Backend)
      ensures this.backend == backend
    {
      this.backend := backend;
    }

    method Login(email: string, password: string, surface: Surface) returns (reply: Reply)
      modifies backend
      ensures LoginOutcome(old(backend.State()), email, password, surface, backend.State(), reply)
    {
      var found := FindActiveByEmail(backend.users, Keys.Lower(email), Some(surface), 0);
      if found.None? { return Failed(NotAuthenticated); }
      var user := backend.users[found.value];
      if user.password.None? { return Failed(NotAuthenticated); }
      if !VerifyPassword(password, user.password.value) { return Failed(NotAuthenticated); }
      if user.totpEnabled {
        var token := backend.nextId;
        backend.issued := backend.issued[token := Issued(found.value, None, PartialCredential)];
        backend.nextId := token + 1;
        backend.SetExpiring(LoginPartial(token), backend.settings.loginPartialTtl,
          PartialLogin(found.value, Some(backend.now)));
        LoginIsOutcome(old(backend.State()), email, password, surface, backend.State(), PartialAuth(token));
        return PartialAuth(token);
      }
      reply := backend.CreateTokenPair(found.value, None);
      PairIsIssued(old(backend.State()), found.value, None, backend.State(), reply);
    }

    method CompleteTotpLogin(token: Id, codeOk: bool) returns (reply: Reply)
      modifies backend
      ensures TotpLoginOutcome(old(backend.State()), token, codeOk, backend.State(), reply)
    {
      var value := backend.Get(LoginPartial(token));
      if value.None? { return Failed(NotAuthenticated); }
      backend.Delete(LoginPartial(token));
      if !value.value.PartialLogin? { return Failed(Invalid); }
      var user := GetById(backend.State(), value.value.user);
      if user.None? || !user.value.active { return Failed(NotAuthenticated); }
      var issuedAt := value.value.issuedAt;
      if issuedAt.Some? && IsTokenRevokedAfter(issuedAt.value, user.value.revokedAfter) {
        return Failed(NotAuthenticated);
      }
      if !codeOk { return Failed(NotAuthenticated); }
      ghost var consumed := backend.State();
      reply := backend.CreateTokenPair(value.value.user, Some(token));
      PairIsIssued(consumed, value.value.user, Some(token), backend.State(), reply);
    }

    /** Writes the blacklist record when at least one whole second is left. */
    method Blacklist(jwt: Jwt)
      modifies backend`redis
      ensures backend.redis == BlacklistToken(old(backend.redis), jwt, backend.now)
    {
      var remaining := if jwt.exp > backend.now then (jwt.exp - backend.now) / SECOND else 0;
      if remaining > 0 {
        backend.SetExpiring(C.Blacklist(jwt.jti), remaining, Flag);
      }
    }

    method Refresh(jwt: Jwt) returns (reply: Reply)
      modifies backend
      ensures RefreshOutcome(old(backend.State()), jwt, backend.State(), reply)
    {
      var payload := DecodeToken(backend.State(), jwt);
      if payload.Err? { return Failed(payload.error); }
      if payload.value.kind != C.Refresh { return Failed(InvalidToken); }
      var blacklisted := backend.Exists(C.Blacklist(payload.value.jti));
      if blacklisted { return Failed(InvalidToken); }
      var user := GetById(backend.State(), payload.value.sub);
      if user.None? || !user.value.active { return Failed(NotAuthenticated); }
      if IsTokenRevokedAfter(payload.value.iat, user.value.revokedAfter) { return Failed(InvalidToken); }
      Blacklist(payload.value);
      ghost var rotated := backend.State();
      RecordIsBlacklist(old(backend.State()), backend.redis, jwt);
      reply := backend.CreateTokenPair(payload.value.sub, Some(payload.value.jti));
      PairIsIssued(rotated, payload.value.sub, Some(payload.value.jti), backend.State(), reply);
    }

    method Logout(access: Jwt, refresh: Option<Jwt>) returns (reply: Reply)
      modifies backend
      ensures LogoutOutcome(old(backend.State()), access, refresh, backend.State(), reply)
    {
      var payload := DecodeToken(backend.State(), access);
      if payload.Err? { return Failed(payload.error); }
      Blacklist(payload.value);
      if refresh.Some? {
        var refreshPayload := DecodeToken(backend.State(), refresh.value);
        if refreshPayload.Ok? && refreshPayload.value.kind == C.Refresh {
          Blacklist(refreshPayload.value);
        }
      }
      reply := Done;
      LogoutIsOutcome(old(backend.State()), access, refresh);
    }
  }

  class ApiKeyService {
    const backend: Backend

    constructor (backend: Backend)
      ensures this.backend == backend
    {
      this.backend := backend;
    }

    /** Tries the candidates one by one; the first whose hash verifies wins. */
    method Authenticate(raw: string) returns (r: Result<ApiKey, Error>)
      ensures KeyOutcome(backend.State(), raw, r) && r == C.Authenticate(backend.State(), raw)
    {
      KeyIsOutcome(backend.State(), raw, C.Authenticate(backend.State(), raw));
      if !(API_KEY_PREFIX <= raw) { return Err(NotAuthenticated); }
      var (prefix, secret) := SplitKey(raw);
      var i := 0;
      while i < |backend.keys|
        invariant i <= |backend.keys|
        invariant FindKey(backend.keys, prefix, secret, backend.now, 0) ==
                  FindKey(backend.keys, prefix, secret, backend.now, i)
      {
        var key := backend.keys[i];
        if IsCandidate(key, prefix, backend.now) && VerifyPassword(secret, key.secret) { return Ok(key); }
        i := i + 1;
      }
      r := Err(NotAuthenticated);
    }

    /** `get_current_auth`: a key if one is presented, otherwise a bearer token. */
    method CurrentAuth(presented: Presented) returns (r: Result<Auth, Error>)
      ensures AuthOutcome(backend.State(), presented, r) && r == GetCurrentAuth(backend.State(), presented)
    {
      AuthIsOutcome(backend.State(), presented, GetCurrentAuth(backend.State(), presented));
      match presented
      case ApiKeyHeader(raw) =>
        var key := Authenticate(raw);
        if key.Err? { return Err(key.error); }
        var user := GetById(backend.State(), key.value.user);
        if user.None? || !user.value.active { return Err(NotAuthenticated); }
        r := Ok(Auth(key.value.user, key.value.id, Some(Scopes.ScopeSet(key.value.scopes))));
      case Bearer(jwt) =>
        var payload := DecodeToken(backend.State(), jwt);
        if payload.Err? { return Err(payload.error); }
        if payload.value.kind != Access { return Err(InvalidToken); }
        var blacklisted := backend.Exists(C.Blacklist(payload.value.jti));
        if blacklisted { return Err(InvalidToken); }
        var user := GetById(backend.State(), payload.value.sub);
        if user.None? || !user.value.active { return Err(NotAuthenticated); }
        if IsTokenRevokedAfter(payload.value.iat, user.value.revokedAfter) { return Err(InvalidToken); }
        r := Ok(Auth(payload.value.sub, payload.value.jti, None));
    }

    method Create(presented: Presented, raw: string, scopes: seq<string>, expires: Option<nat>, perms: set<string>)
      returns (reply: Reply)
      modifies backend
      ensures CreateOutcome(old(backend.State()), presented, raw, scopes, expires, perms, backend.State(), reply)
    {
      CreateIsOutcome(backend.State(), presented, raw, scopes, expires, perms);
      var auth := CurrentAuth(presented);
      if auth.Err? { return Failed(auth.error); }
      var effective := EffectivePermissions(auth.value, perms);
      if exists i :: 0 <= i < |scopes| && !Scopes.IsWord(scopes[i]) { return Failed(Invalid); }
      if API_KEYS_CREATE !in effective { return Failed(NotAllowed); }
      for i := 0 to |scopes|
        invariant forall k :: 0 <= k < i ==> scopes[k] in effective
      {
        if scopes[i] !in effective { return Failed(NotAllowed); }
      }
      var (prefix, secret) := SplitKey(raw);
      if KeyTaken(backend.keys, auth.value.user, prefix) { return Failed(Conflict); }
      var id := backend.nextId;
      backend.nextId := id + 1;
      backend.issued := backend.issued[id := Issued(auth.value.user, Some(auth.value.credential), KeyCredential)];
      var row := ApiKey(id, auth.value.user, prefix, HashPassword(secret), Scopes.Stored(scopes), expires, true);
      backend.keys := backend.keys + [row];
      reply := KeyCreated(id);
    }

    method Revoke(id: Id, user: UserId) returns (reply: Reply)
      modifies backend
      ensures RevokeOutcome(old(backend.State()), id, user, backend.State(), reply)
    {
      RevokeIsOutcome(backend.State(), id, user);
      var row := FindRow(backend.keys, id, 0);
      if row.None? || backend.keys[row.value].user != user { return Failed(NotFound); }
      backend.keys := backend.keys[row.value := backend.keys[row.value].(active := false)];
      reply := Done;
    }

    /** Deactivates the user's active keys one after the other. */
    method RevokeAllForUser(user: UserId)
      modifies backend`keys
      ensures backend.keys == RevokeAll(old(backend.keys), user)
    {
      var i := 0;
      while i < |backend.keys|
        invariant i <= |backend.keys| == |old(backend.keys)|
        invariant forall k :: 0 <= k < i ==> backend.keys[k] == RevokeAll(old(backend.keys), user)[k]
        invariant forall k :: i <= k < |backend.keys| ==> backend.keys[k] == old(backend.keys)[k]
      {
        if backend.keys[i].user == user && backend.keys[i].active {
          backend.keys := backend.keys[i := backend.keys[i].(active := false)];
        }
        i := i + 1;
      }
    }
  }

  class AccountService {
    const backend: Backend
    const apiKeys: ApiKeyService

    constructor (backend: Backend, apiKeys: ApiKeyService)
      requires apiKeys.backend == backend
      ensures this.backend == backend && this.apiKeys == apiKeys
    {
      this.backend, this.apiKeys := backend, apiKeys;
    }

    method ForgotPassword(email: string) returns (reply: Reply)
      modifies backend
      ensures ForgotOutcome(old(backend.State()), email, backend.State(), reply)
    {
      var found := FindActiveByEmail(backend.users, Keys.Lower(email), None, 0);
      if found.None? || backend.users[found.value].password.None? { return Done; }
      var token := backend.nextId;
      backend.nextId := token + 1;
      backend.SetExpiring(PasswordReset(token), backend.settings.passwordResetTtl, UserRef(found.value));
      ForgotIsOutcome(old(backend.State()), email, backend.State(), Done);
      reply := Done;
    }

    /** `_issue_admin_invite`, behind the guards of its callers. */
    method IssueAdminInvite(user: UserId) returns (reply: Reply)
      modifies backend
      ensures InviteOutcome(old(backend.State()), user, backend.State(), reply)
    {
      var row := GetById(backend.State(), user);
      if row.None? { return Failed(NotFound); }
      if row.value.surface.ClientSurface? || row.value.password.Some? { return Failed(NotAllowed); }
      var token := backend.nextId;
      backend.nextId := token + 1;
      backend.SetExpiring(PasswordReset(token), backend.settings.passwordResetTtl, UserRef(user));
      AddedIsUpdated(old(backend.redis), PasswordReset(token), backend.redis[PasswordReset(token)]);
      reply := Done;
    }

    method ResetPassword(token: Id, password: string) returns (reply: Reply)
      requires apiKeys.backend == backend
      modifies backend
      ensures ResetOutcome(old(backend.State()), token, password, backend.State(), reply)
    {
      var value := backend.Get(PasswordReset(token));
      if value.None? { return Failed(InvalidToken); }
      if !value.value.UserRef? { return Failed(Invalid); }
      var id := value.value.user;
      var user := GetById(backend.State(), id);
      if user.None? || !user.value.active { return Failed(InvalidToken); }
      backend.Delete(PasswordReset(token));
      var row := user.value.(password := Some(HashPassword(password)), revokedAfter := Some(backend.now));
      if row.surface.AdminSurface? && !row.verified {
        row := row.(verified := true);
      }
      backend.users := backend.users[id := row];
      apiKeys.RevokeAllForUser(id);
      reply := Done;
      ResetIsOutcome(old(backend.State()), token, password, backend.State(), Done);
    }
  }

  // ---- The clean-up job ----

  predicate MatchesPattern(pattern: nat, key: Key) {
    match pattern
    case 0 => key.Blacklist?
    case 1 => key.EmailVerify?
    case 2 => key.PasswordReset?
    case _ => false
  }

  /** What SCAN promises: only matching keys come back, and every key that is there throughout
      comes back at least once; batches may be empty and may repeat keys. */
  ghost predicate CompleteScan(redis: Redis, scans: seq<seq<seq<Key>>>) {
    && |scans| == 3
    && (forall p, b, i :: 0 <= p < 3 && 0 <= b < |scans[p]| && 0 <= i < |scans[p][b]| ==>
       MatchesPattern(p, scans[p][b][i]))
    && (forall p, key :: 0 <= p < 3 && key in redis && MatchesPattern(p, key) ==>
       exists b :: 0 <= b < |scans[p]| && key in scans[p][b])
  }

  ghost predicate NoOrphan(redis: Redis, batch: seq<Key>) {
    forall key :: key in batch ==> !Orphan(redis, key)
  }

  ghost function Orphans(redis: Redis): set<Key> {
    set key | key in redis && Orphan(redis, key)
  }

  /** What the sweep has done so far: it deleted `gone`, all orphans, and counted each once. */
  ghost predicate Swept(before: Redis, redis: Redis, gone: set<Key>, cleaned: nat) {
    redis == before - gone && gone <= Orphans(before) && cleaned == |gone|
  }

  class CleanUpJob {
    const backend: Backend

    constructor (backend: Backend)
      ensures this.backend == backend
    {
      this.backend := backend;
    }

    method SweepBatch(batch: seq<Key>, ghost before: Redis, ghost gone: set<Key>, counted: nat)
      returns (cleaned: nat, ghost gone': set<Key>)
      requires Swept(before, backend.redis, gone, counted)
      requires forall key :: key in batch ==> Scanned(key)
      modifies backend`redis
      ensures Swept(before, backend.redis, gone', cleaned) && gone <= gone'
      ensures NoOrphan(backend.redis, batch)
    {
      cleaned, gone' := counted, gone;
      for i := 0 to |batch|
        invariant Swept(before, backend.redis, gone', cleaned) && gone <= gone'
        invariant forall k :: 0 <= k < i ==> !Orphan(backend.redis, batch[k])
      {
        var ttl := backend.Ttl(batch[i]);
        if ttl == -1 {
          backend.Delete(batch[i]);
          gone' := gone' + {batch[i]};
          cleaned := cleaned + 1;
        }
      }
    }

    /** Whatever batches SCAN returns, the job deletes exactly the keys of its three patterns that
        have no TTL, and counts each of them once. */
    method Run(scans: seq<seq<seq<Key>>>) returns (cleaned: nat)
      requires CompleteScan(backend.redis, scans)
      modifies backend`redis
      ensures backend.State() == CleanUp(old(backend.State())).0
      ensures cleaned == |Orphans(old(backend.redis))|
    {
      ghost var before, gone := backend.redis, {};
      cleaned := 0;
      for p := 0 to 3
        invariant Swept(before, backend.redis, gone, cleaned)
        invariant forall q, b :: 0 <= q < p && 0 <= b < |scans[q]| ==> NoOrphan(backend.redis, scans[q][b])
      {
        for b := 0 to |scans[p]|
          invariant Swept(before, backend.redis, gone, cleaned)
          invariant forall q, c :: 0 <= q < p && 0 <= c < |scans[q]| ==> NoOrphan(backend.redis, scans[q][c])
          invariant forall c :: 0 <= c < b ==> NoOrphan(backend.redis, scans[p][c])
        {
          cleaned, gone := SweepBatch(scans[p][b], before, gone, cleaned);
        }
      }
      SweepIsComplete(before, backend.redis, gone, cleaned, scans);
    }
  }

  lemma SweepIsComplete(before: Redis, redis: Redis, gone: set<Key>, cleaned: nat, scans: seq<seq<seq<Key>>>)
    requires CompleteScan(before, scans) && Swept(before, redis, gone, cleaned)
    requires forall q, b :: 0 <= q < 3 && 0 <= b < |scans[q]| ==> NoOrphan(redis, scans[q][b])
    ensures gone == Orphans(before)
    ensures redis == map k | k in before && !Orphan(before, k) :: before[k]
  {
    forall key | key in Orphans(before) ensures key in gone {
      var p := if key.Blacklist? then 0 else if key.EmailVerify? then 1 else 2;
      assert MatchesPattern(p, key);
      var b :| 0 <= b < |scans[p]| && key in scans[p][b];
      assert NoOrphan(redis, scans[p][b]);
    }
  }
}
