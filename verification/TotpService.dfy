/** TOTPService as it runs, step by step over the two stores. */
module TotpService {
  import opened Prelude
  import opened T = Totp
  import L = TotpTheorems

  class TOTPService {
    const ttlDays: nat
    var users: map<UserId, Totp>
    var codes: seq<CodeRow>
    var nextId: nat
    var redis: map<UserId, CodeSet>
    var now: nat

    constructor (ttlDays: nat, users: map<UserId, Totp>, now: nat)
      ensures State() == World(Db(users, [], 0), map[], now, ttlDays)
    {
      this.ttlDays, this.users, this.now := ttlDays, users, now;
      codes, nextId, redis := [], 0, map[];
    }

    function Rows(): Db
      reads this
    {
      Db(users, codes, nextId)
    }

    function State(): World
      reads this
    {
      World(Rows(), redis, now, ttlDays)
    }

    // ---- The rows ----

    /** `get_active_codes`. */
    method GetActiveCodes(user: UserId) returns (active: seq<CodeRow>)
      ensures active == ActiveRows(codes, user)
    {
      active := [];
      var i := |codes|;
      while i > 0
        invariant 0 <= i <= |codes|
        invariant active == ActiveRows(codes[i..], user)
      {
        i := i - 1;
        assert codes[i..][1..] == codes[i + 1..];
        if codes[i].user == user && !codes[i].used { active := [codes[i]] + active; }
      }
      assert codes[0..] == codes;
    }

    method MarkUsed(id: nat)
      modifies `codes
      ensures codes == T.MarkUsed(old(codes), id)
    {
      var i := 0;
      while i < |codes|
        invariant i <= |codes| == |old(codes)|
        invariant forall k :: 0 <= k < i ==> codes[k] == T.MarkUsed(old(codes), id)[k]
        invariant forall k :: i <= k < |codes| ==> codes[k] == old(codes)[k]
      {
        if codes[i].id == id { codes := codes[i := codes[i].(used := true)]; }
        i := i + 1;
      }
    }

    method DeleteAllForUser(user: UserId)
      modifies `codes
      ensures codes == DeleteAll(old(codes), user)
    {
      var kept: seq<CodeRow> := [];
      var i := |codes|;
      while i > 0
        invariant 0 <= i <= |codes|
        invariant codes == old(codes)
        invariant kept == DeleteAll(codes[i..], user)
      {
        i := i - 1;
        assert codes[i..][1..] == codes[i + 1..];
        if codes[i].user != user { kept := [codes[i]] + kept; }
      }
      assert codes[0..] == codes;
      codes := kept;
    }

    // ---- Backup codes ----

    /** Walks the active codes and consumes the first one that verifies. */
    method TryBackupCodeFromDb(user: UserId, code: string) returns (ok: bool)
      modifies `codes
      ensures (Rows(), ok) == TryFromDb(old(Rows()), user, code)
    {
      var active := GetActiveCodes(user);
      var i := 0;
      while i < |active|
        invariant i <= |active|
        invariant codes == old(codes)
        invariant forall k :: 0 <= k < i ==> !VerifyPassword(code, active[k].hash)
      {
        if VerifyPassword(code, active[i].hash) {
          assert codes[0..] == codes;
          FirstActiveMatch(codes, user, code, 0, active, i);
          MarkUsed(active[i].id);
          return true;
        }
        i := i + 1;
      }
      assert forall row :: row in active ==> !VerifyPassword(code, row.hash);
      ok := false;
    }

    method MarkDbBackupCodeUsed(user: UserId, code: string)
      modifies `codes
      ensures Rows() == MarkDbCode(old(Rows()), user, code)
    {
      var found := TryBackupCodeFromDb(user, code);
    }

    /** Redis first; the rows when the set does not hold the code (or is gone). */
    method TryBackupCode(user: UserId, code: string) returns (ok: bool)
      modifies `codes, `redis
      ensures (State(), ok) == T.TryBackupCode(old(State()), user, code)
    {
      if user in redis && now < redis[user].expires && code in redis[user].members {
        var left := redis[user].members - {code};
        redis := if left == {} then redis - {user} else redis[user := redis[user].(members := left)];
        MarkDbBackupCodeUsed(user, code);
        return true;
      }
      ok := TryBackupCodeFromDb(user, code);
    }

    method CheckCode(user: UserId, totpOk: bool, code: string) returns (ok: bool)
      modifies `codes, `redis
      ensures (State(), ok) == T.CheckCode(old(State()), user, totpOk, code)
    {
      if SecretOf(Rows(), user).None? { return false; }
      if totpOk { return true; }
      ok := TryBackupCode(user, Upper(code));
    }

    method PersistBackupCodes(user: UserId, minted: seq<string>)
      modifies `codes, `redis, `nextId
      ensures State() == T.PersistBackupCodes(old(State()), user, minted)
    {
      redis := redis - {user};
      if minted != [] {
        redis := redis[user := CodeSet((set c | c in minted), now + ttlDays * 86400 * SECOND)];
      }
      DeleteAllForUser(user);
      codes := codes + NewRows(user, minted, nextId);
      nextId := nextId + |minted|;
    }

    // ---- The public operations ----

    method Setup(user: UserId, secret: nat) returns (reply: Reply)
      modifies this
      ensures (State(), reply) == Step(old(State()), T.Setup(user, secret))
      ensures L.Coherent(old(State())) ==>
                L.Coherent(State()) && L.DbOutcome(old(Rows()), T.Setup(user, secret), Rows(), reply)
    {
      if L.Coherent(State()) { L.StepIsOutcome(State(), T.Setup(user, secret)); }
      if user !in users { return Failed(NotFound); }
      users := users[user := Totp(Some(secret), false)];
      reply := Started;
    }

    method VerifyAndEnable(user: UserId, totpOk: bool, minted: seq<string>) returns (reply: Reply)
      modifies this
      ensures (State(), reply) == Step(old(State()), T.VerifyAndEnable(user, totpOk, minted))
      ensures L.Coherent(old(State())) ==>
                L.Coherent(State()) && L.DbOutcome(old(Rows()), T.VerifyAndEnable(user, totpOk, minted), Rows(), reply)
    {
      if L.Coherent(State()) { L.StepIsOutcome(State(), T.VerifyAndEnable(user, totpOk, minted)); }
      if SecretOf(Rows(), user).None? { return Failed(NotConfigured); }
      if !totpOk { return Failed(InvalidCode); }
      users := users[user := users[user].(enabled := true)];
      PersistBackupCodes(user, minted);
      reply := Codes(minted);
    }

    method CheckLogin(user: UserId, totpOk: bool, code: string) returns (reply: Reply)
      modifies this
      ensures (State(), reply) == Step(old(State()), T.CheckLogin(user, totpOk, code))
      ensures L.Coherent(old(State())) ==>
                L.Coherent(State()) && L.DbOutcome(old(Rows()), T.CheckLogin(user, totpOk, code), Rows(), reply)
    {
      if L.Coherent(State()) { L.StepIsOutcome(State(), T.CheckLogin(user, totpOk, code)); }
      var ok := CheckCode(user, totpOk, code);
      reply := if ok then Done else Failed(InvalidCode);
    }

    method Disable(user: UserId, totpOk: bool, code: string) returns (reply: Reply)
      modifies this
      ensures (State(), reply) == Step(old(State()), T.Disable(user, totpOk, code))
      ensures L.Coherent(old(State())) ==>
                L.Coherent(State()) && L.DbOutcome(old(Rows()), T.Disable(user, totpOk, code), Rows(), reply)
    {
      if L.Coherent(State()) { L.StepIsOutcome(State(), T.Disable(user, totpOk, code)); }
      if !Enabled(Rows(), user) || SecretOf(Rows(), user).None? { return Failed(AlreadyDisabled); }
      var ok := CheckCode(user, totpOk, code);
      if !ok { return Failed(InvalidCode); }
      users := users[user := Totp(None, false)];
      redis := redis - {user};
      DeleteAllForUser(user);
      reply := Done;
    }

    method RegenerateBackupCodes(user: UserId, totpOk: bool, code: string, minted: seq<string>) returns (reply: Reply)
      modifies this
      ensures (State(), reply) == Step(old(State()), Regenerate(user, totpOk, code, minted))
      ensures L.Coherent(old(State())) ==>
                L.Coherent(State()) && L.DbOutcome(old(Rows()), Regenerate(user, totpOk, code, minted), Rows(), reply)
    {
      if L.Coherent(State()) { L.StepIsOutcome(State(), Regenerate(user, totpOk, code, minted)); }
      if !Enabled(Rows(), user) || SecretOf(Rows(), user).None? { return Failed(NotConfigured); }
      var ok := CheckCode(user, totpOk, code);
      if !ok { return Failed(InvalidCode); }
      PersistBackupCodes(user, minted);
      reply := Codes(minted);
    }

    method GetBackupCodeCount(user: UserId) returns (reply: Reply)
      ensures L.DbOutcome(Rows(), GetCount(user), Rows(), reply)
    {
      if !Enabled(Rows(), user) { return Failed(NotConfigured); }
      L.CountIsCardinality(codes, user, 0);
      assert codes[0..] == codes;
      reply := Count(CountActive(codes, user));
    }
  }

  /** The first active row that verifies is the one `FindCode` finds. */
  lemma {:induction false} FirstActiveMatch(rows: seq<CodeRow>, user: UserId, code: string, from: nat,
                                            active: seq<CodeRow>, k: nat)
    requires from <= |rows| && active == ActiveRows(rows[from..], user) && k < |active|
    requires VerifyPassword(code, active[k].hash) && forall j :: 0 <= j < k ==> !VerifyPassword(code, active[j].hash)
    ensures FindCode(rows, user, code, from).Some? && rows[FindCode(rows, user, code, from).value] == active[k]
    decreases |rows| - from
  {
    assert from < |rows| && rows[from..][1..] == rows[from + 1..];
    if !IsActive(rows[from], user) {
      assert active == ActiveRows(rows[from + 1..], user);
      FirstActiveMatch(rows, user, code, from + 1, active, k);
    } else {
      assert active[0] == rows[from] && active[1..] == ActiveRows(rows[from + 1..], user);
      if k > 0 { FirstActiveMatch(rows, user, code, from + 1, active[1..], k - 1); }
    }
  }
}
