/** Logins and their second factors together: the credential protocol and the TOTP service over one
    user table, and the promise that no session of a protected user starts without a factor. */
module SecondFactor {
  import C = Credentials
  import I = CredentialInvariants
  import O = CredentialOutcomes
  import P = CredentialProvenance
  import R = CredentialTheorems
  import Keys
  import T = Totp
  import opened Prelude
  import opened TotpTheorems

  type Id = C.Id
  type UserId = nat

  /** The codes a user got at one moment; disabling TOTP starts a batch without codes. */
  datatype Batch = Batch(user: UserId, number: nat)

  /** What let a partial login through. */
  datatype Factor = Authenticator | BackupCode(batch: Batch, code: string)

  /** Both cores, and the history: the batches, the factor each completed partial login was given, and
      the password-only logins made while the user had TOTP switched off. */
  datatype World = World(creds: C.World, totp: T.World, batches: map<UserId, nat>, minted: map<Batch, seq<string>>,
                         factors: map<Id, Factor>, unprotected: set<Id>)

  function Newest(batches: map<UserId, nat>, user: UserId): Batch {
    Batch(user, if user in batches then batches[user] else 0)
  }

  // ---- One step of both ----

  /** `totp_enabled` is one column, which only the TOTP service writes. */
  function Synced(creds: C.World, db: T.Db): C.World {
    creds.(users := seq(|creds.users|, i requires 0 <= i < |creds.users| =>
      creds.users[i].(totpEnabled := T.Enabled(db, i))))
  }

  /** A token obtained with a password alone. */
  ghost predicate IsDirect(creds: C.World, id: Id) {
    id in creds.issued && creds.issued[id].kind.JwtCredential? && creds.issued[id].parent == None
  }

  ghost function DirectWhileOff(w: World, creds: C.World): set<Id> {
    set id | id in creds.issued && id !in w.creds.issued && IsDirect(creds, id) &&
      !T.Enabled(w.totp.db, creds.issued[id].owner)
  }

  /** A registration adds the user's TOTP columns. */
  function Columns(w: World, call: C.Call): T.Db {
    if call.DoRegister? then w.totp.db.(users := w.totp.db.users[|w.creds.users| := T.Totp(None, false)]) else w.totp.db
  }

  ghost function CredentialStep(w: World, call: C.Call): World {
    var (creds, db) := (C.Step(w.creds, call).0, Columns(w, call));
    w.(creds := Synced(creds, db), totp := w.totp.(db := db), unprotected := w.unprotected + DirectWhileOff(w, creds))
  }

  /** `complete_totp_login`: the TOTP service is asked once every other check has passed. */
  ghost function Complete(w: World, token: Id, totpOk: bool, code: string): World {
    var value := C.GetKey(w.creds.redis, C.LoginPartial(token), w.creds.now);
    if value.None? || !O.PartialStands(w.creds, value.value) then w.(creds := C.CompleteTotp(w.creds, token, false).0)
    else
      var (totp, reply) := T.Step(w.totp, T.CheckLogin(value.value.user, totpOk, code));
      var factor := if totpOk then Authenticator else BackupCode(Newest(w.batches, value.value.user), T.Upper(code));
      w.(creds := C.CompleteTotp(w.creds, token, reply.Done?).0, totp := totp,
         factors := if reply.Done? then w.factors[token := factor] else w.factors)
  }

  /** The TOTP service answered `reply` and left `totp`; a new batch is put on record. */
  ghost function AfterTotp(w: World, call: T.Call, totp: T.World, reply: T.Reply): World
    requires !call.Tick?
  {
    var w1 := w.(creds := Synced(w.creds, totp.db), totp := totp);
    if !EndsGeneration(call, reply, call.user) then w1
    else
      var batch := Batch(call.user, Newest(w.batches, call.user).number + 1);
      w1.(batches := w.batches[call.user := batch.number],
          minted := w.minted[batch := if reply.Codes? then reply.codes else []])
  }

  ghost function TotpStep(w: World, call: T.Call): World
    requires !call.Tick?
  {
    var (totp, reply) := T.Step(w.totp, call);
    AfterTotp(w, call, totp, reply)
  }

  datatype Call =
    | Credential(call: C.Call)
    | CompleteLogin(token: Id, totpOk: bool, code: string)
    | TotpService(totp: T.Call)
    | Tick(elapsed: nat)

  /** Time passes for both at once, and logins are completed only by `CompleteLogin`. */
  predicate Joint(call: Call) {
    match call
    case Credential(c) => !c.Tick? && !c.DoCompleteTotp?
    case TotpService(c) => !c.Tick? && !c.CheckLogin? && (c.VerifyAndEnable? || c.Regenerate? ==> Distinct(c.minted))
    case _ => true
  }

  ghost function Step(w: World, call: Call): World
    requires Joint(call)
  {
    match call
    case Credential(c) => CredentialStep(w, c)
    case CompleteLogin(token, totpOk, code) => Complete(w, token, totpOk, code)
    case TotpService(c) => TotpStep(w, c)
    case Tick(elapsed) => w.(creds := C.Step(w.creds, C.Tick(elapsed)).0, totp := T.Step(w.totp, T.Tick(elapsed)).0)
  }

  ghost predicate AllJoint(calls: seq<Call>) { forall i :: 0 <= i < |calls| ==> Joint(calls[i]) }

  ghost function Run(w: World, calls: seq<Call>): World
    requires AllJoint(calls)
    decreases |calls|
  {
    if calls == [] then w else Run(Step(w, calls[0]), calls[1..])
  }

  // ---- Codes: what is active was minted in the newest batch, and has not let anyone in ----

  /** Two active rows of one user never hold the same code. */
  ghost predicate OneRowPerCode(rows: seq<T.CodeRow>) {
    forall x, y :: x in rows && y in rows && x.user == y.user && !x.used && !y.used && x.hash == y.hash ==> x.id == y.id
  }

  ghost predicate ActiveAreMinted(db: T.Db, batches: map<UserId, nat>, minted: map<Batch, seq<string>>) {
    forall u, c :: ActiveCode(db, u, c) ==> Newest(batches, u) in minted && c in minted[Newest(batches, u)]
  }

  ghost predicate FactorsAreMinted(factors: map<Id, Factor>, batches: map<UserId, nat>,
                                   minted: map<Batch, seq<string>>)
  {
    forall p :: p in factors && factors[p].BackupCode? ==>
      var b := factors[p].batch;
      b.number <= Newest(batches, b.user).number && b in minted && factors[p].code in minted[b]
  }

  ghost predicate UsedAreInactive(db: T.Db, factors: map<Id, Factor>, batches: map<UserId, nat>) {
    forall p :: p in factors && factors[p].BackupCode? && factors[p].batch == Newest(batches, factors[p].batch.user) ==>
      !ActiveCode(db, factors[p].batch.user, factors[p].code)
  }

  /** No code lets two logins through. */
  ghost predicate FactorsAreDistinct(factors: map<Id, Factor>) {
    forall p, q :: p in factors && q in factors && p != q && factors[p].BackupCode? ==> factors[p] != factors[q]
  }

  ghost predicate CodesSane(db: T.Db, factors: map<Id, Factor>, batches: map<UserId, nat>,
                            minted: map<Batch, seq<string>>)
  {
    && OneRowPerCode(db.codes) && ActiveAreMinted(db, batches, minted) && FactorsAreMinted(factors, batches, minted)
    && UsedAreInactive(db, factors, batches) && FactorsAreDistinct(factors)
  }

  /** Using a code marks its one row. */
  lemma UsedCodeIsInactive(db: T.Db, user: UserId, code: string)
    requires UniqueIds(db) && OneRowPerCode(db.codes) && T.TryFromDb(db, user, code).1
    ensures var db1 := T.TryFromDb(db, user, code).0;
            && ActiveCode(db, user, code) && !ActiveCode(db1, user, code) && OneRowPerCode(db1.codes)
            && forall u, c :: ActiveCode(db1, u, c) ==> ActiveCode(db, u, c)
  {
  }

  lemma UseKeepsCodes(db: T.Db, user: UserId, code: string, token: Id, factors: map<Id, Factor>,
                      batches: map<UserId, nat>, minted: map<Batch, seq<string>>)
    requires UniqueIds(db) && CodesSane(db, factors, batches, minted) && T.TryFromDb(db, user, code).1 &&
             token !in factors
    ensures CodesSane(T.TryFromDb(db, user, code).0, factors[token := BackupCode(Newest(batches, user), code)],
            batches, minted)
  {
    UsedCodeIsInactive(db, user, code);
  }

  /** A new batch: the user's rows are the minted codes, everyone else's are as before. */
  ghost predicate Rebatched(db: T.Db, db1: T.Db, user: UserId, codes: seq<string>, from: nat) {
    forall row :: row in db1.codes ==>
      if row.user == user then exists k :: 0 <= k < |codes| && row == T.CodeRow(from + k, user, Digest(codes[k]), false)
      else row in db.codes
  }

  lemma RebatchedActive(db: T.Db, db1: T.Db, user: UserId, codes: seq<string>, from: nat, u: UserId, c: string)
    requires Rebatched(db, db1, user, codes, from) && ActiveCode(db1, u, c)
    ensures if u == user then c in codes else ActiveCode(db, u, c)
  {
  }

  lemma RebatchedOneRow(db: T.Db, db1: T.Db, user: UserId, codes: seq<string>, from: nat)
    requires Rebatched(db, db1, user, codes, from) && OneRowPerCode(db.codes) && Distinct(codes)
    ensures OneRowPerCode(db1.codes)
  {
  }

  lemma NewBatchKeepsCodes(db: T.Db, db1: T.Db, user: UserId, codes: seq<string>, from: nat, factors: map<Id, Factor>,
                           batches: map<UserId, nat>, minted: map<Batch, seq<string>>)
    requires CodesSane(db, factors, batches, minted) && Rebatched(db, db1, user, codes, from) && Distinct(codes)
    ensures var n := Newest(batches, user).number + 1;
            CodesSane(db1, factors, batches[user := n], minted[Batch(user, n) := codes])
  {
    RebatchedOneRow(db, db1, user, codes, from);
    forall u, c | ActiveCode(db1, u, c) ensures if u == user then c in codes else ActiveCode(db, u, c) {
      RebatchedActive(db, db1, user, codes, from, u, c);
    }
  }

  lemma BatchOrSame(db: T.Db, db1: T.Db, user: UserId, codes: seq<string>, ends: bool, factors: map<Id, Factor>,
                    batches: map<UserId, nat>, minted: map<Batch, seq<string>>)
    requires CodesSane(db, factors, batches, minted)
    requires if ends then Rebatched(db, db1, user, codes, db.nextId) && Distinct(codes) else db1.codes == db.codes
    ensures var n := Newest(batches, user).number + 1;
            if ends then CodesSane(db1, factors, batches[user := n], minted[Batch(user, n) := codes])
            else CodesSane(db1, factors, batches, minted)
  {
    if ends {
      NewBatchKeepsCodes(db, db1, user, codes, db.nextId, factors, batches, minted);
    } else {
      forall u, c ensures ActiveCode(db1, u, c) <==> ActiveCode(db, u, c) {}
    }
  }

  lemma ReplacedIsRebatched(db: T.Db, dbX: T.Db, user: UserId, codes: seq<string>)
    requires forall row :: row in dbX.codes && row.user != user ==> row in db.codes
    ensures Rebatched(db, T.ReplaceCodes(dbX, user, codes), user, codes, dbX.nextId)
  {
  }

  lemma CheckSparesOthers(db: T.Db, user: UserId, totpOk: bool, code: string)
    requires UniqueIds(db)
    ensures forall row :: row in T.DbCheckCode(db, user, totpOk, code).0.codes && row.user != user ==> row in db.codes
    ensures T.DbCheckCode(db, user, totpOk, code).0.nextId == db.nextId
    ensures !T.DbCheckCode(db, user, totpOk, code).1 ==> T.DbCheckCode(db, user, totpOk, code).0 == db
  {
  }

  /** Every TOTP call either leaves the code rows alone or starts a new batch. */
  lemma TotpCallOnCodes(db: T.Db, call: T.Call, user: UserId)
    requires UniqueIds(db) && !call.CheckLogin? && !call.Tick? && call.user == user
    ensures var (db1, reply) := T.DbStep(db, call);
            if EndsGeneration(call, reply, user) then
              Rebatched(db, db1, user, if reply.Codes? then reply.codes else [], db.nextId)
            else db1.codes == db.codes
  {
    match call
    case VerifyAndEnable(_, totpOk, minted) =>
      if T.SecretOf(db, user).Some? {
        ReplacedIsRebatched(db, db.(users := db.users[user := db.users[user].(enabled := true)]), user, minted);
      }
    case Disable(_, totpOk, code) => CheckSparesOthers(db, user, totpOk, code);
    case Regenerate(_, totpOk, code, minted) =>
      CheckSparesOthers(db, user, totpOk, code);
      ReplacedIsRebatched(db, T.DbCheckCode(db, user, totpOk, code).0, user, minted);
    case _ =>
  }

  // ---- Credentials: every token comes from a factor, or from a login while TOTP was off ----

  /** A partial login starts a session. A token continues one, or follows a partial login that a
      factor let through, or was handed out while TOTP was off. A key is minted with a token or a key. */
  ghost predicate RootedAt(creds: C.World, id: Id, factors: map<Id, Factor>, unprotected: set<Id>)
    requires id in creds.issued
  {
    match creds.issued[id].parent
    case None => creds.issued[id].kind.PartialCredential? || (IsDirect(creds, id) && id in unprotected)
    case Some(p) =>
      && !creds.issued[id].kind.PartialCredential? && p in creds.issued
      && match creds.issued[p].kind
         case PartialCredential => creds.issued[id].kind.JwtCredential? && p in factors
         case JwtCredential(_) => true
         case KeyCredential => creds.issued[id].kind.KeyCredential?
  }

  ghost predicate Rooted(creds: C.World, factors: map<Id, Factor>, unprotected: set<Id>) {
    forall id :: id in creds.issued ==> RootedAt(creds, id, factors, unprotected)
  }

  /** Factors belong to partial logins that are over, and backup codes to the login's own user. */
  ghost predicate FactorsBelong(creds: C.World, factors: map<Id, Factor>) {
    forall p :: p in factors ==>
      && p in creds.issued && p < creds.nextId && C.LoginPartial(p) !in creds.redis
      && (factors[p].BackupCode? ==> factors[p].batch.user == creds.issued[p].owner)
  }

  ghost predicate FlagsAgree(creds: C.World, db: T.Db) {
    forall u :: 0 <= u < |creds.users| ==> (creds.users[u].totpEnabled <==> T.Enabled(db, u))
  }

  ghost predicate Sane(w: World) {
    && I.Sane(w.creds) && Coherent(w.totp) && FlagsAgree(w.creds, w.totp.db)
    && CodesSane(w.totp.db, w.factors, w.batches, w.minted)
    && Rooted(w.creds, w.factors, w.unprotected) && FactorsBelong(w.creds, w.factors)
  }

  lemma SyncKeepsSane(creds: C.World, db: T.Db)
    requires I.Sane(creds)
    ensures I.Sane(Synced(creds, db)) && FlagsAgree(Synced(creds, db), db)
  {
  }

  /** Ids on record before a call are kept as they are; those added are earned. */
  lemma IssuedGrows(creds: C.World, call: C.Call, id: Id)
    requires I.Sane(creds)
    ensures var creds1 := C.Step(creds, call).0;
            && creds1.nextId >= creds.nextId
            && (id in creds.issued ==> id in creds1.issued && creds1.issued[id] == creds.issued[id])
            && (id in creds1.issued && id !in creds.issued ==> P.Earned(creds, call, creds1.issued[id]))
  {
    R.StepKeepsIssued(creds, call, id);
    if id in C.Step(creds, call).0.issued && id !in creds.issued {
      P.EveryCredentialIsEarned(creds, [], creds, call, id);
    }
  }

  /** A used partial token never comes back. */
  lemma FactorsStayWithOwners(creds: C.World, call: C.Call, factors: map<Id, Factor>)
    requires I.Sane(creds) && FactorsBelong(creds, factors)
    ensures FactorsBelong(C.Step(creds, call).0, factors)
  {
    forall p | p in factors
      ensures p in C.Step(creds, call).0.issued && C.Step(creds, call).0.issued[p] == creds.issued[p]
      ensures p < C.Step(creds, call).0.nextId && C.LoginPartial(p) !in C.Step(creds, call).0.redis
    {
      IssuedGrows(creds, call, p);
      P.StepKeepsSpentKey(creds, call, C.LoginPartial(p));
    }
  }

  lemma OldStaysRooted(creds: C.World, call: C.Call, id: Id, factors: map<Id, Factor>, unprotected: set<Id>,
                       factors1: map<Id, Factor>, unprotected1: set<Id>)
    requires I.Sane(creds) && id in creds.issued && RootedAt(creds, id, factors, unprotected)
    requires factors.Keys <= factors1.Keys && unprotected <= unprotected1
    ensures id in C.Step(creds, call).0.issued && RootedAt(C.Step(creds, call).0, id, factors1, unprotected1)
  {
    IssuedGrows(creds, call, id);
    if creds.issued[id].parent.Some? { IssuedGrows(creds, call, creds.issued[id].parent.value); }
  }

  lemma NewIsRooted(creds: C.World, call: C.Call, id: Id, factors: map<Id, Factor>, unprotected: set<Id>)
    requires I.Sane(creds) && id in C.Step(creds, call).0.issued && id !in creds.issued
    requires call.DoCompleteTotp? ==> call.token in factors
    requires IsDirect(C.Step(creds, call).0, id) ==> id in unprotected
    ensures RootedAt(C.Step(creds, call).0, id, factors, unprotected)
  {
    IssuedGrows(creds, call, id);
    var parent := C.Step(creds, call).0.issued[id].parent;
    if parent.Some? { IssuedGrows(creds, call, parent.value); }
  }

  lemma CredentialKeepsRooted(w: World, call: C.Call)
    requires Sane(w) && !call.DoCompleteTotp?
    ensures Rooted(C.Step(w.creds, call).0, w.factors, w.unprotected + DirectWhileOff(w, C.Step(w.creds, call).0))
  {
    var creds1 := C.Step(w.creds, call).0;
    var unprotected1 := w.unprotected + DirectWhileOff(w, creds1);
    forall id | id in creds1.issued ensures RootedAt(creds1, id, w.factors, unprotected1) {
      if id in w.creds.issued {
        OldStaysRooted(w.creds, call, id, w.factors, w.unprotected, w.factors, unprotected1);
      } else {
        DirectIsWhileOff(w, call, id);
        NewIsRooted(w.creds, call, id, w.factors, unprotected1);
      }
    }
  }

  /** Only a user who has TOTP off gets tokens for a password alone. */
  lemma DirectIsWhileOff(w: World, call: C.Call, id: Id)
    requires Sane(w) && id in C.Step(w.creds, call).0.issued && id !in w.creds.issued
    ensures IsDirect(C.Step(w.creds, call).0, id) ==> id in DirectWhileOff(w, C.Step(w.creds, call).0)
  {
    IssuedGrows(w.creds, call, id);
  }

  lemma CredentialStepSane(w: World, call: C.Call)
    requires Sane(w) && !call.DoCompleteTotp? && !call.Tick?
    ensures Sane(CredentialStep(w, call))
  {
    var (creds, db) := (C.Step(w.creds, call).0, Columns(w, call));
    I.StepSane(w.creds, call);
    SyncKeepsSane(creds, db);
    UsersDoNotMatter(w.totp, db.users);
    assert db == w.totp.db.(users := db.users);
    forall u, c ensures ActiveCode(db, u, c) <==> ActiveCode(w.totp.db, u, c) {}
    CredentialKeepsRooted(w, call);
    FactorsStayWithOwners(w.creds, call, w.factors);
  }

  lemma TickSane(w: World, elapsed: nat)
    requires Sane(w)
    ensures Sane(Step(w, Tick(elapsed)))
  {
    I.StepSane(w.creds, C.Tick(elapsed));
    StepRefines(w.totp, T.Tick(elapsed));
  }

  lemma AfterTotpSane(w: World, call: T.Call, totp: T.World, reply: T.Reply)
    requires Sane(w) && !call.Tick? && Coherent(totp)
    requires var codes := if reply.Codes? then reply.codes else [];
             if EndsGeneration(call, reply, call.user) then
               Rebatched(w.totp.db, totp.db, call.user, codes, w.totp.db.nextId) && Distinct(codes)
             else totp.db.codes == w.totp.db.codes
    ensures Sane(AfterTotp(w, call, totp, reply))
  {
    var (user, codes) := (call.user, if reply.Codes? then reply.codes else []);
    SyncKeepsSane(w.creds, totp.db);
    BatchOrSame(w.totp.db, totp.db, user, codes, EndsGeneration(call, reply, user), w.factors, w.batches, w.minted);
  }

  lemma TotpStepSane(w: World, call: T.Call)
    requires Sane(w) && !call.Tick? && !call.CheckLogin? &&
             (call.VerifyAndEnable? || call.Regenerate? ==> Distinct(call.minted))
    ensures Sane(TotpStep(w, call))
  {
    var (totp, reply) := T.Step(w.totp, call);
    StepRefines(w.totp, call);
    TotpCallOnCodes(w.totp.db, call, call.user);
    AfterTotpSane(w, call, totp, reply);
  }

  /** Completing a login: the credential side, whatever the answer of the TOTP service. */
  lemma CompletionKeepsRooted(w: World, token: Id, ok: bool, factors: map<Id, Factor>)
    requires Sane(w) && w.factors.Keys <= factors.Keys
    requires C.CompleteTotp(w.creds, token, ok).1.Tokens? ==> token in factors
    ensures Rooted(C.CompleteTotp(w.creds, token, ok).0, factors, w.unprotected)
  {
    var call := C.DoCompleteTotp(token, ok);
    var creds1 := C.Step(w.creds, call).0;
    forall id | id in creds1.issued ensures RootedAt(creds1, id, factors, w.unprotected) {
      if id in w.creds.issued {
        OldStaysRooted(w.creds, call, id, w.factors, w.unprotected, factors, w.unprotected);
      } else {
        IssuedGrows(w.creds, call, id);
        NewIsRooted(w.creds, call, id, factors, w.unprotected);
      }
    }
  }

  lemma RefusedCompletionSane(w: World, token: Id)
    requires Sane(w)
    ensures Sane(w.(creds := C.CompleteTotp(w.creds, token, false).0))
  {
  }

  /** The partial login that is completed: not yet completed before, over afterwards, its user's. */
  lemma CompletedPartial(creds: C.World, token: Id, ok: bool, factors: map<Id, Factor>)
    requires I.Sane(creds) && FactorsBelong(creds, factors)
    requires C.Present(creds.redis, C.LoginPartial(token), creds.now)
    ensures var creds1 := C.CompleteTotp(creds, token, ok).0;
            && token !in factors && token in creds.issued && token in creds1.issued &&
               creds1.issued[token] == creds.issued[token]
            && token < creds1.nextId && C.LoginPartial(token) !in creds1.redis
            && var value := creds.redis[C.LoginPartial(token)].value;
               value.PartialLogin? && creds.issued[token].owner == value.user
  {
  }

  /** The TOTP side of a completion: a used backup code is out, and on record. */
  lemma CheckKeepsCodes(w: World, user: UserId, totpOk: bool, code: string, token: Id)
    requires Sane(w) && token !in w.factors
    ensures var (totp, reply) := T.Step(w.totp, T.CheckLogin(user, totpOk, code));
            var factor := if totpOk then Authenticator else BackupCode(Newest(w.batches, user), T.Upper(code));
            && Coherent(totp) && totp.db.users == w.totp.db.users
            && CodesSane(totp.db, if reply.Done? then w.factors[token := factor] else w.factors, w.batches, w.minted)
  {
    StepRefines(w.totp, T.CheckLogin(user, totpOk, code));
    var reply := T.Step(w.totp, T.CheckLogin(user, totpOk, code)).1;
    if reply.Done? && !totpOk { UseKeepsCodes(w.totp.db, user, T.Upper(code), token, w.factors, w.batches, w.minted); }
  }

  /** The credential side of a completion that reached the TOTP service. */
  lemma CompletionKeepsFactors(w: World, token: Id, ok: bool, factor: Factor)
    requires Sane(w) && C.Present(w.creds.redis, C.LoginPartial(token), w.creds.now)
    requires factor.BackupCode? ==> factor.batch.user == w.creds.redis[C.LoginPartial(token)].value.user
    ensures token !in w.factors
    ensures var creds := C.CompleteTotp(w.creds, token, ok).0;
            FactorsBelong(creds, w.factors) && FactorsBelong(creds, w.factors[token := factor])
  {
    CompletedPartial(w.creds, token, ok, w.factors);
    FactorsStayWithOwners(w.creds, C.DoCompleteTotp(token, ok), w.factors);
    NewFactorBelongs(C.CompleteTotp(w.creds, token, ok).0, w.factors, token, factor);
  }

  lemma CompletionKeepsUsers(creds: C.World, token: Id, ok: bool)
    requires I.Sane(creds)
    ensures var (creds1, reply) := C.CompleteTotp(creds, token, ok);
            I.Sane(creds1) && creds1.users == creds.users && (reply.Tokens? ==> ok)
  {
    I.CompleteTotpSane(creds, token, ok);
  }

  lemma NewFactorBelongs(creds: C.World, factors: map<Id, Factor>, token: Id, factor: Factor)
    requires FactorsBelong(creds, factors)
    requires token in creds.issued && token < creds.nextId && C.LoginPartial(token) !in creds.redis
    requires factor.BackupCode? ==> factor.batch.user == creds.issued[token].owner
    ensures FactorsBelong(creds, factors[token := factor])
  {
  }

  lemma CompleteSane(w: World, token: Id, totpOk: bool, code: string)
    requires Sane(w)
    ensures Sane(Complete(w, token, totpOk, code))
  {
    var value := C.GetKey(w.creds.redis, C.LoginPartial(token), w.creds.now);
    if value.None? || !O.PartialStands(w.creds, value.value) {
      RefusedCompletionSane(w, token);
    } else {
      var w1 := Complete(w, token, totpOk, code);
      var user := value.value.user;
      var ok := T.Step(w.totp, T.CheckLogin(user, totpOk, code)).1.Done?;
      var factor := if totpOk then Authenticator else BackupCode(Newest(w.batches, user), T.Upper(code));
      CompletionKeepsUsers(w.creds, token, ok);
      CompletionKeepsFactors(w, token, ok, factor);
      CompletionKeepsRooted(w, token, ok, w1.factors);
      CheckKeepsCodes(w, user, totpOk, code, token);
    }
  }

  lemma StepSane(w: World, call: Call)
    requires Sane(w) && Joint(call)
    ensures Sane(Step(w, call))
  {
    match call
    case Credential(c) => CredentialStepSane(w, c);
    case CompleteLogin(token, totpOk, code) => CompleteSane(w, token, totpOk, code);
    case TotpService(c) => TotpStepSane(w, c);
    case Tick(elapsed) => TickSane(w, elapsed);
  }

  lemma {:induction false} RunSane(w: World, calls: seq<Call>)
    requires Sane(w) && AllJoint(calls)
    ensures Sane(Run(w, calls))
    decreases |calls|
  {
    if calls != [] {
      StepSane(w, calls[0]);
      RunSane(Step(w, calls[0]), calls[1..]);
    }
  }

  ghost function EmptyWorld(now: nat, settings: C.Settings, ttlDays: nat): World {
    World(I.EmptyWorld(now, settings), T.World(T.Db(map[], [], 0), map[], now, ttlDays), map[], map[], map[], {})
  }

  // ---- The theorem ----

  /** The credential at the start of a session. */
  ghost function Root(creds: C.World, id: Id): (r: Id)
    requires I.Sane(creds) && id in creds.issued
    ensures r in creds.issued && creds.issued[r].owner == creds.issued[id].owner
    decreases id
  {
    if creds.issued[id].parent.None? then id else Root(creds, creds.issued[id].parent.value)
  }

  lemma {:induction false} RootOfSession(w: World, id: Id)
    requires Sane(w) && id in w.creds.issued && !w.creds.issued[id].kind.PartialCredential?
    ensures var r := Root(w.creds, id);
            R.Derives(w.creds, id, r) && (r in w.unprotected || r in w.factors)
    decreases id
  {
    if w.creds.issued[id].parent.None? {
      assert IsDirect(w.creds, id);
    } else {
      var p := w.creds.issued[id].parent.value;
      if w.creds.issued[p].kind.PartialCredential? {
        PartialIsRoot(w, p);
      } else {
        RootOfSession(w, p);
      }
    }
  }

  lemma PartialIsRoot(w: World, p: Id)
    requires Sane(w) && p in w.creds.issued && w.creds.issued[p].kind.PartialCredential?
    ensures Root(w.creds, p) == p
  {
  }

  /** In every run: the session that a token or an API key belongs to began with a password login made while
      its user had TOTP switched off, or with a partial login that a factor let through. The factor is the
      authenticator, or a backup code of one of the user's own batches; and a code lets one login through,
      ever. */
  lemma EverySessionHasItsFactor(now: nat, settings: C.Settings, ttlDays: nat, calls: seq<Call>, id: Id)
    requires AllJoint(calls)
    requires var w := Run(EmptyWorld(now, settings, ttlDays), calls);
             id in w.creds.issued && !w.creds.issued[id].kind.PartialCredential?
    ensures var w := Run(EmptyWorld(now, settings, ttlDays), calls);
            && I.Sane(w.creds)
            && var r := Root(w.creds, id);
               && R.Derives(w.creds, id, r) && (r in w.unprotected || r in w.factors)
               && (r in w.factors && w.factors[r].BackupCode? ==>
                     var (batch, code) := (w.factors[r].batch, w.factors[r].code);
                     && batch.user == w.creds.issued[id].owner && batch in w.minted && code in w.minted[batch]
                     && forall q :: q in w.factors && q != r ==> w.factors[q] != w.factors[r])
  {
    var w := Run(EmptyWorld(now, settings, ttlDays), calls);
    RunSane(EmptyWorld(now, settings, ttlDays), calls);
    RootOfSession(w, id);
  }

  /** The history says what it should: a token is recorded as unprotected only if it comes from a
      password login at a moment when its user has TOTP off, and a factor only if the TOTP service
      accepted it for the partial login's user, a backup code being active in the newest batch. */
  lemma HistoryIsTrue(w: World, call: Call, id: Id)
    requires Sane(w) && Joint(call)
    ensures id in Step(w, call).unprotected && id !in w.unprotected ==>
              && call.Credential? && id in Step(w, call).creds.issued
              && var user := Step(w, call).creds.issued[id].owner;
                 P.PasswordLogin(w.creds, call.call, user) && !T.Enabled(w.totp.db, user)
    ensures id in Step(w, call).factors && id !in w.factors ==>
              && call.CompleteLogin? && call.token == id && id in w.creds.issued
              && var user := w.creds.issued[id].owner;
                 && T.SecretOf(w.totp.db, user).Some?
                 && (call.totpOk || (ActiveCode(w.totp.db, user, T.Upper(call.code)) &&
                                     Step(w, call).factors[id] ==
                                       BackupCode(Newest(w.batches, user), T.Upper(call.code))))
  {
    match call
    case Credential(c) =>
      if id in Step(w, call).unprotected && id !in w.unprotected { IssuedGrows(w.creds, c, id); }
    case CompleteLogin(token, totpOk, code) => FactorIsTrue(w, token, totpOk, code, id);
    case _ =>
  }

  lemma FactorIsTrue(w: World, token: Id, totpOk: bool, code: string, id: Id)
    requires Sane(w)
    ensures var w1 := Complete(w, token, totpOk, code);
            id in w1.factors && id !in w.factors ==>
              && token == id && id in w.creds.issued
              && var user := w.creds.issued[id].owner;
                 && T.SecretOf(w.totp.db, user).Some?
                 && (totpOk || (ActiveCode(w.totp.db, user, T.Upper(code)) &&
                                w1.factors[id] == BackupCode(Newest(w.batches, user), T.Upper(code))))
  {
  }

  // ---- Protection takes effect ----

  /** The only live, active user of an address on a surface, and the user's password. */
  ghost predicate Knows(creds: C.World, u: UserId, email: string, password: string, surface: C.Surface) {
    && u < |creds.users| && O.Answers(creds.users[u], Keys.Lower(email), Some(surface))
    && creds.users[u].password == Some(Digest(password))
    && forall v :: 0 <= v < |creds.users| && v != u ==> !O.Answers(creds.users[v], Keys.Lower(email), Some(surface))
  }

  /** A right password asks for the second factor iff TOTP is on, and opens a session otherwise. */
  lemma LoginAsksForFactorIff(w: World, u: UserId, email: string, password: string, surface: C.Surface)
    requires Sane(w) && Knows(w.creds, u, email, password, surface)
    ensures var reply := C.Login(w.creds, email, password, surface).1;
            if On(w.totp.db, u) then reply == C.PartialAuth(w.creds.nextId) else reply.Tokens? && reply.access.sub == u
  {
    O.RightPasswordLogsIn(w.creds, u, email, password, surface);
  }

  /** A call of the TOTP service reaches the credentials through one column only. */
  lemma TotpCallKeepsCredentials(w: World, call: T.Call)
    requires Joint(TotpService(call))
    ensures var w1 := Step(w, TotpService(call));
            && w1.creds == w.creds.(users := w1.creds.users) && |w1.creds.users| == |w.creds.users|
            && w1.factors == w.factors && w1.unprotected == w.unprotected
            && forall v :: 0 <= v < |w.creds.users| ==>
                 w1.creds.users[v] == w.creds.users[v].(totpEnabled := On(w1.totp.db, v))
  {
  }

  lemma TotpCallKeepsKnowledge(w: World, call: T.Call, w1: World, u: UserId, email: string, password: string,
                               surface: C.Surface)
    requires Sane(w) && Joint(TotpService(call)) && w1 == Step(w, TotpService(call))
    requires Knows(w.creds, u, email, password, surface)
    ensures Sane(w1) && Knows(w1.creds, u, email, password, surface) && w1.creds.nextId == w.creds.nextId
    ensures exists reply :: DbOutcome(w.totp.db, call, w1.totp.db, reply)
  {
    StepSane(w, TotpService(call));
    StepIsOutcome(w.totp, call);
    TotpCallKeepsCredentials(w, call);
    assert DbOutcome(w.totp.db, call, w1.totp.db, T.Step(w.totp, call).1);
  }

  /** From the moment a user enables TOTP, the user's password alone opens no session: the next login
      only gives a partial token. After the user has disabled it, the password is enough again. */
  lemma EnablingProtectsTheNextLogin(w: World, u: UserId, minted: seq<string>, email: string, password: string,
                                     surface: C.Surface)
    requires Sane(w) && Knows(w.creds, u, email, password, surface) && HasSecret(w.totp.db, u) && Distinct(minted)
    ensures var w1 := Step(w, TotpService(T.VerifyAndEnable(u, true, minted)));
            && Sane(w1) && Knows(w1.creds, u, email, password, surface) && On(w1.totp.db, u) && HasSecret(w1.totp.db, u)
            && C.Login(w1.creds, email, password, surface).1 == C.PartialAuth(w.creds.nextId)
  {
    var call := T.VerifyAndEnable(u, true, minted);
    var w1 := Step(w, TotpService(call));
    TotpCallKeepsKnowledge(w, call, w1, u, email, password, surface);
    LoginAsksForFactorIff(w1, u, email, password, surface);
  }

  lemma DisablingOpensTheNextLogin(w: World, u: UserId, totpOk: bool, code: string, email: string, password: string,
                                   surface: C.Surface)
    requires Sane(w) && Knows(w.creds, u, email, password, surface)
    requires On(w.totp.db, u) && IsRight(w.totp.db, u, totpOk, code)
    ensures var w1 := Step(w, TotpService(T.Disable(u, totpOk, code)));
            C.Login(w1.creds, email, password, surface).1.Tokens?
  {
    var call := T.Disable(u, totpOk, code);
    var w1 := Step(w, TotpService(call));
    TotpCallKeepsKnowledge(w, call, w1, u, email, password, surface);
    LoginAsksForFactorIff(w1, u, email, password, surface);
  }

  /** Registering adds a user with TOTP off; no other call of the credential services touches TOTP. */
  lemma CredentialCallKeepsTotp(w: World, call: C.Call)
    requires Joint(Credential(call))
    ensures var w1 := Step(w, Credential(call));
            && w1.totp == w.totp.(db := w.totp.db.(users := w1.totp.db.users))
            && w1.totp.db.users ==
               w.totp.db.users + (if call.DoRegister? then map[|w.creds.users| := T.Totp(None, false)] else map[])
            && w1.factors == w.factors && w1.batches == w.batches && w1.minted == w.minted
  {
  }

  /** The partial login stands, and its user's second factor is right. */
  ghost predicate IsCompleted(w: World, token: Id, totpOk: bool, code: string) {
    var value := C.GetKey(w.creds.redis, C.LoginPartial(token), w.creds.now);
    value.Some? && O.PartialStands(w.creds, value.value) && IsRight(w.totp.db, value.value.user, totpOk, code)
  }

  /** Tokens for a partial login are issued iff it is completed; then its factor is on record. */
  lemma CompletionIff(w: World, token: Id, totpOk: bool, code: string)
    requires Sane(w)
    ensures var w1 := Complete(w, token, totpOk, code);
            && w1.creds == C.CompleteTotp(w.creds, token, IsCompleted(w, token, totpOk, code)).0
            && w1.factors.Keys == w.factors.Keys + (if IsCompleted(w, token, totpOk, code) then {token} else {})
            && w1.unprotected == w.unprotected
  {
    var value := C.GetKey(w.creds.redis, C.LoginPartial(token), w.creds.now);
    if value.Some? && O.PartialStands(w.creds, value.value) {
      LoginNeedsACode(w.totp, value.value.user, totpOk, code);
    }
  }

  lemma CompletedGetsTokens(w: World, token: Id, totpOk: bool, code: string)
    ensures var right := IsCompleted(w, token, totpOk, code);
            C.CompleteTotp(w.creds, token, right).1.Tokens? <==> right
  {
    var right := IsCompleted(w, token, totpOk, code);
    var (creds, reply) := C.CompleteTotp(w.creds, token, right);
    O.TotpLoginIsOutcome(w.creds, token, right, creds, reply);
  }
}
