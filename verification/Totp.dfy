/** TOTP backup codes kept twice: hashed rows in the database, and a Redis set that may vanish. */
module Totp {
  import opened Prelude

  type UserId = nat

  datatype CodeRow = CodeRow(id: nat, user: UserId, hash: Digest, used: bool)

  /** The two TOTP columns of a user. */
  datatype Totp = Totp(secret: Option<nat>, enabled: bool)

  datatype Db = Db(users: map<UserId, Totp>, codes: seq<CodeRow>, nextId: nat)

  datatype CodeSet = CodeSet(members: set<string>, expires: nat)

  /** The database, the Redis sets (one per user) and the clock. */
  datatype World = World(db: Db, redis: map<UserId, CodeSet>, now: nat, ttlDays: nat)

  datatype Error = NotConfigured | AlreadyDisabled | InvalidCode | NotFound

  datatype Reply = Done | Started | Codes(codes: seq<string>) | Count(n: nat) | Failed(error: Error)

  function UpperChar(c: char): char {
    if 'a' <= c <= 'z' then c - 'a' + 'A' else c
  }

  function Upper(s: string): string { seq(|s|, i requires 0 <= i < |s| => UpperChar(s[i])) }

  /** In ASCII, small letters are 97 to 122 and their capitals 32 before them; nothing else changes. */
  lemma UpperIff(s: string, i: nat)
    requires i < |s|
    ensures |Upper(s)| == |s|
    ensures Upper(s)[i] as int == s[i] as int - if 97 <= s[i] as int <= 122 then 32 else 0
  {
  }

  // ---- Rows ----

  predicate IsActive(row: CodeRow, user: UserId) { row.user == user && !row.used }

  /** Position of the first active row of the user whose hash verifies the code. */
  function FindCode(rows: seq<CodeRow>, user: UserId, code: string, from: nat): (r: Option<nat>)
    requires from <= |rows|
    ensures r.Some? ==>
            from <= r.value < |rows| && IsActive(rows[r.value], user) && VerifyPassword(code, rows[r.value].hash)
    ensures forall i :: from <= i < |rows| && (r.Some? ==> i < r.value) ==>
            !(IsActive(rows[i], user) && VerifyPassword(code, rows[i].hash))
    decreases |rows| - from
  {
    if from == |rows| then None
    else if IsActive(rows[from], user) && VerifyPassword(code, rows[from].hash) then Some(from)
    else FindCode(rows, user, code, from + 1)
  }

  /** The user's unused rows, in table order. */
  function ActiveRows(rows: seq<CodeRow>, user: UserId): (r: seq<CodeRow>)
    ensures forall row :: row in r <==> row in rows && IsActive(row, user)
  {
    if rows == [] then []
    else (if IsActive(rows[0], user) then [rows[0]] else []) + ActiveRows(rows[1..], user)
  }

  function MarkUsed(rows: seq<CodeRow>, id: nat): (r: seq<CodeRow>)
    ensures |r| == |rows|
    ensures forall i :: 0 <= i < |rows| ==> r[i] == if rows[i].id == id then rows[i].(used := true) else rows[i]
  {
    seq(|rows|, i requires 0 <= i < |rows| => if rows[i].id == id then rows[i].(used := true) else rows[i])
  }

  function DeleteAll(rows: seq<CodeRow>, user: UserId): (r: seq<CodeRow>)
    ensures forall row :: row in r <==> row in rows && row.user != user
  {
    if rows == [] then []
    else if rows[0].user == user then DeleteAll(rows[1..], user)
    else [rows[0]] + DeleteAll(rows[1..], user)
  }

  function NewRows(user: UserId, codes: seq<string>, nextId: nat): (r: seq<CodeRow>)
    ensures |r| == |codes|
    ensures forall i :: 0 <= i < |codes| ==> r[i] == CodeRow(nextId + i, user, Digest(codes[i]), false)
  {
    seq(|codes|, i requires 0 <= i < |codes| => CodeRow(nextId + i, user, Digest(codes[i]), false))
  }

  function CountActive(rows: seq<CodeRow>, user: UserId): nat {
    if rows == [] then 0 else (if IsActive(rows[0], user) then 1 else 0) + CountActive(rows[1..], user)
  }

  // ---- The database-only meaning of every call ----

  datatype Call =
    | Setup(user: UserId, secret: nat)
    | VerifyAndEnable(user: UserId, totpOk: bool, minted: seq<string>)
    | CheckLogin(user: UserId, totpOk: bool, code: string)
    | Disable(user: UserId, totpOk: bool, code: string)
    | Regenerate(user: UserId, totpOk: bool, code: string, minted: seq<string>)
    | GetCount(user: UserId)
    | Tick(elapsed: nat)
    | Evict(user: UserId)

  /** Consumes a backup code straight from the rows. */
  function TryFromDb(db: Db, user: UserId, code: string): (Db, bool) {
    match FindCode(db.codes, user, code, 0)
    case None => (db, false)
    case Some(i) => (db.(codes := MarkUsed(db.codes, db.codes[i].id)), true)
  }

  function SecretOf(db: Db, user: UserId): Option<nat> {
    if user in db.users then db.users[user].secret else None
  }

  predicate Enabled(db: Db, user: UserId) { user in db.users && db.users[user].enabled }

  /** `totpOk` says whether the submitted code is the authenticator's current one. */
  function DbCheckCode(db: Db, user: UserId, totpOk: bool, code: string): (Db, bool) {
    if SecretOf(db, user).None? then (db, false)
    else if totpOk then (db, true)
    else TryFromDb(db, user, Upper(code))
  }

  function ReplaceCodes(db: Db, user: UserId, codes: seq<string>): Db {
    db.(codes := DeleteAll(db.codes, user) + NewRows(user, codes, db.nextId), nextId := db.nextId + |codes|)
  }

  function DbStep(db: Db, call: Call): (Db, Reply) {
    match call
    case Setup(user, secret) =>
      if user !in db.users then (db, Failed(NotFound))
      else (db.(users := db.users[user := Totp(Some(secret), false)]), Started)
    case VerifyAndEnable(user, totpOk, minted) =>
      if SecretOf(db, user).None? then (db, Failed(NotConfigured))
      else if !totpOk then (db, Failed(InvalidCode))
      else (ReplaceCodes(db.(users := db.users[user := db.users[user].(enabled := true)]), user, minted), Codes(minted))
    case CheckLogin(user, totpOk, code) =>
      var (db1, ok) := DbCheckCode(db, user, totpOk, code);
      (db1, if ok then Done else Failed(InvalidCode))
    case Disable(user, totpOk, code) =>
      if !Enabled(db, user) || SecretOf(db, user).None? then (db, Failed(AlreadyDisabled))
      else
        var (db1, ok) := DbCheckCode(db, user, totpOk, code);
        if !ok then (db1, Failed(InvalidCode))
        else (db1.(users := db1.users[user := Totp(None, false)], codes := DeleteAll(db1.codes, user)), Done)
    case Regenerate(user, totpOk, code, minted) =>
      if !Enabled(db, user) || SecretOf(db, user).None? then (db, Failed(NotConfigured))
      else
        var (db1, ok) := DbCheckCode(db, user, totpOk, code);
        if !ok then (db1, Failed(InvalidCode)) else (ReplaceCodes(db1, user, minted), Codes(minted))
    case GetCount(user) =>
      if !Enabled(db, user) then (db, Failed(NotConfigured)) else (db, Count(CountActive(db.codes, user)))
    case Tick(_) => (db, Done)
    case Evict(_) => (db, Done)
  }

  // ---- The implementation: Redis first, the rows behind it ----

  predicate IsMember(w: World, user: UserId, code: string) {
    user in w.redis && w.now < w.redis[user].expires && code in w.redis[user].members
  }

  /** SREM; an emptied set disappears. */
  function RemoveMember(redis: map<UserId, CodeSet>, user: UserId, code: string): map<UserId, CodeSet> {
    if user !in redis then redis
    else if redis[user].members - {code} == {} then redis - {user}
    else redis[user := redis[user].(members := redis[user].members - {code})]
  }

  function MarkDbCode(db: Db, user: UserId, code: string): Db { TryFromDb(db, user, code).0 }

  function TryBackupCode(w: World, user: UserId, code: string): (World, bool) {
    if IsMember(w, user, code) then
      (w.(redis := RemoveMember(w.redis, user, code), db := MarkDbCode(w.db, user, code)), true)
    else
      var (db1, ok) := TryFromDb(w.db, user, code);
      (w.(db := db1), ok)
  }

  function CheckCode(w: World, user: UserId, totpOk: bool, code: string): (World, bool) {
    if SecretOf(w.db, user).None? then (w, false)
    else if totpOk then (w, true)
    else TryBackupCode(w, user, Upper(code))
  }

  /** Both stores are replaced; adding no member to a set creates no set. */
  function PersistBackupCodes(w: World, user: UserId, codes: seq<string>): World {
    var members := set c | c in codes;
    var entry := CodeSet(members, w.now + w.ttlDays * 86400 * SECOND);
    w.(redis := if codes == [] then w.redis - {user} else w.redis[user := entry],
       db := ReplaceCodes(w.db, user, codes))
  }

  function Step(w: World, call: Call): (World, Reply) {
    match call
    case VerifyAndEnable(user, totpOk, minted) =>
      if SecretOf(w.db, user).None? then (w, Failed(NotConfigured))
      else if !totpOk then (w, Failed(InvalidCode))
      else
        var enabled := w.(db := w.db.(users := w.db.users[user := w.db.users[user].(enabled := true)]));
        (PersistBackupCodes(enabled, user, minted), Codes(minted))
    case CheckLogin(user, totpOk, code) =>
      var (w1, ok) := CheckCode(w, user, totpOk, code);
      (w1, if ok then Done else Failed(InvalidCode))
    case Disable(user, totpOk, code) =>
      if !Enabled(w.db, user) || SecretOf(w.db, user).None? then (w, Failed(AlreadyDisabled))
      else
        var (w1, ok) := CheckCode(w, user, totpOk, code);
        if !ok then (w1, Failed(InvalidCode))
        else (w1.(db := w1.db.(users := w1.db.users[user := Totp(None, false)], codes := DeleteAll(w1.db.codes, user)),
                  redis := w1.redis - {user}), Done)
    case Regenerate(user, totpOk, code, minted) =>
      if !Enabled(w.db, user) || SecretOf(w.db, user).None? then (w, Failed(NotConfigured))
      else
        var (w1, ok) := CheckCode(w, user, totpOk, code);
        if !ok then (w1, Failed(InvalidCode)) else (PersistBackupCodes(w1, user, minted), Codes(minted))
    case Tick(elapsed) => (w.(now := w.now + elapsed), Done)
    case Evict(user) => (w.(redis := w.redis - {user}), Done)
    case Setup(_, _) => var (db1, reply) := DbStep(w.db, call); (w.(db := db1), reply)
    case GetCount(_) => (w, DbStep(w.db, call).1)
  }

  function Run(w: World, calls: seq<Call>): (World, seq<Reply>)
    decreases |calls|
  {
    if calls == [] then (w, [])
    else
      var (w1, reply) := Step(w, calls[0]);
      var (w2, replies) := Run(w1, calls[1..]);
      (w2, [reply] + replies)
  }

  function DbRun(db: Db, calls: seq<Call>): (Db, seq<Reply>)
    decreases |calls|
  {
    if calls == [] then (db, [])
    else
      var (db1, reply) := DbStep(db, calls[0]);
      var (db2, replies) := DbRun(db1, calls[1..]);
      (db2, [reply] + replies)
  }
}
