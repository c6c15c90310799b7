/** The Redis set of backup codes is unobservable, and codes are conserved. */
module TotpTheorems {
  import opened Prelude
  import opened Totp

  // ---- The cache only holds codes that the database still accepts ----

  ghost predicate ActiveCode(db: Db, user: UserId, code: string) {
    exists i :: 0 <= i < |db.codes| && IsActive(db.codes[i], user) && VerifyPassword(code, db.codes[i].hash)
  }

  ghost predicate UniqueIds(db: Db) {
    && (forall i :: 0 <= i < |db.codes| ==> db.codes[i].id < db.nextId)
    && (forall i, j :: 0 <= i < j < |db.codes| ==> db.codes[i].id != db.codes[j].id)
  }

  ghost predicate CacheIsSubset(w: World) {
    forall user, code :: IsMember(w, user, code) ==> ActiveCode(w.db, user, code)
  }

  ghost predicate Coherent(w: World) {
    UniqueIds(w.db) && CacheIsSubset(w)
  }

  /** Trying a code through the cache answers, and leaves the rows, as trying it on the rows alone. */
  lemma TryRefines(w: World, user: UserId, code: string)
    requires Coherent(w)
    ensures var (w1, ok) := TryBackupCode(w, user, code);
            (w1.db, ok) == TryFromDb(w.db, user, code)
  {
  }

  /** Using a code touches one row, and that row holds the code. */
  lemma OtherCodesStayActive(db: Db, user: UserId, code: string, other: UserId, c: string)
    requires UniqueIds(db) && ActiveCode(db, other, c)
    requires other != user || c != code
    ensures ActiveCode(TryFromDb(db, user, code).0, other, c)
  {
  }

  lemma TryKeepsCoherent(w: World, user: UserId, code: string)
    requires Coherent(w)
    ensures Coherent(TryBackupCode(w, user, code).0)
  {
    var w1 := TryBackupCode(w, user, code).0;
    forall u, c | IsMember(w1, u, c) ensures ActiveCode(w1.db, u, c) {
      assert IsMember(w, u, c);
      OtherCodesStayActive(w.db, user, code, u, c);
    }
  }

  lemma CheckRefines(w: World, user: UserId, totpOk: bool, code: string)
    requires Coherent(w)
    ensures var (w1, ok) := CheckCode(w, user, totpOk, code);
            (w1.db, ok) == DbCheckCode(w.db, user, totpOk, code) && Coherent(w1)
  {
    TryRefines(w, user, Upper(code));
    TryKeepsCoherent(w, user, Upper(code));
  }

  ghost predicate DistinctIds(rows: seq<CodeRow>) {
    forall i, j :: 0 <= i < j < |rows| ==> rows[i].id != rows[j].id
  }

  lemma {:induction false} DeleteAllKeepsIds(rows: seq<CodeRow>, user: UserId)
    requires DistinctIds(rows)
    ensures DistinctIds(DeleteAll(rows, user))
  {
    if rows != [] {
      var rest := DeleteAll(rows[1..], user);
      DeleteAllKeepsIds(rows[1..], user);
      forall row | row in rest ensures row.id != rows[0].id {
        assert row in rows[1..];
      }
      if rows[0].user != user {
        var r := [rows[0]] + rest;
        forall i, j | 0 <= i < j < |r| ensures r[i].id != r[j].id {
          assert r[j] == rest[j - 1] && rest[j - 1] in rest;
          assert i > 0 ==> r[i] == rest[i - 1];
        }
      }
    }
  }

  lemma DeletionKeepsIds(db: Db, user: UserId, users: map<UserId, Totp>)
    requires UniqueIds(db)
    ensures UniqueIds(db.(users := users, codes := DeleteAll(db.codes, user)))
  {
    var kept := DeleteAll(db.codes, user);
    DeleteAllKeepsIds(db.codes, user);
    forall i | 0 <= i < |kept| ensures kept[i].id < db.nextId {
      assert kept[i] in kept && kept[i] in db.codes;
    }
  }

  lemma ReplaceKeepsIds(db: Db, user: UserId, codes: seq<string>)
    requires UniqueIds(db)
    ensures UniqueIds(ReplaceCodes(db, user, codes))
  {
    DeletionKeepsIds(db, user, db.users);
    var (kept, r) := (DeleteAll(db.codes, user), ReplaceCodes(db, user, codes));
    forall i, j | 0 <= i < j < |r.codes| ensures r.codes[i].id != r.codes[j].id {
      assert j < |kept| ==> r.codes[i] == kept[i] && r.codes[j] == kept[j];
      assert i < |kept| ==> r.codes[i] == kept[i] && kept[i].id < db.nextId;
      assert i >= |kept| ==> r.codes[i].id == db.nextId + (i - |kept|);
      assert j >= |kept| ==> r.codes[j].id == db.nextId + (j - |kept|);
    }
  }

  lemma DeletionSparesOthers(db: Db, db1: Db, user: UserId, other: UserId, c: string)
    requires forall row :: row in DeleteAll(db.codes, user) ==> row in db1.codes
    requires other != user && ActiveCode(db, other, c)
    ensures ActiveCode(db1, other, c)
  {
    var i :| 0 <= i < |db.codes| && IsActive(db.codes[i], other) && VerifyPassword(c, db.codes[i].hash);
    assert db.codes[i] in DeleteAll(db.codes, user);
    assert db.codes[i] in db1.codes;
  }

  lemma NewCodesAreActive(db: Db, user: UserId, codes: seq<string>, c: string)
    requires c in codes
    ensures ActiveCode(ReplaceCodes(db, user, codes), user, c)
  {
    var i :| 0 <= i < |codes| && codes[i] == c;
    var kept := DeleteAll(db.codes, user);
    assert ReplaceCodes(db, user, codes).codes[|kept| + i] == CodeRow(db.nextId + i, user, Digest(c), false);
  }

  lemma PersistKeepsCoherent(w: World, user: UserId, codes: seq<string>)
    requires Coherent(w)
    ensures Coherent(PersistBackupCodes(w, user, codes))
  {
    var w1 := PersistBackupCodes(w, user, codes);
    ReplaceKeepsIds(w.db, user, codes);
    forall u, c | IsMember(w1, u, c) ensures ActiveCode(w1.db, u, c) {
      if u == user {
        NewCodesAreActive(w.db, user, codes, c);
      } else {
        assert IsMember(w, u, c);
        DeletionSparesOthers(w.db, w1.db, user, u, c);
      }
    }
  }

  lemma DropKeepsCoherent(w: World, user: UserId, users: map<UserId, Totp>)
    requires Coherent(w)
    ensures Coherent(w.(redis := w.redis - {user}, db := w.db.(users := users, codes := DeleteAll(w.db.codes, user))))
  {
    var w1 := w.(redis := w.redis - {user}, db := w.db.(users := users, codes := DeleteAll(w.db.codes, user)));
    DeletionKeepsIds(w.db, user, users);
    forall u, c | IsMember(w1, u, c) ensures ActiveCode(w1.db, u, c) {
      assert IsMember(w, u, c);
      DeletionSparesOthers(w.db, w1.db, user, u, c);
    }
  }

  /** Same codes, same rows: coherence does not depend on the other columns. */
  lemma UsersDoNotMatter(w: World, users: map<UserId, Totp>)
    requires Coherent(w)
    ensures Coherent(w.(db := w.db.(users := users)))
  {
    var w1 := w.(db := w.db.(users := users));
    forall u, c | IsMember(w1, u, c) ensures ActiveCode(w1.db, u, c) {
      assert IsMember(w, u, c);
      assert ActiveCode(w.db, u, c);
    }
  }

  lemma ShrinkingKeepsCoherent(w: World, w1: World)
    requires Coherent(w) && w1.db == w.db
    requires forall u, c :: IsMember(w1, u, c) ==> IsMember(w, u, c)
    ensures Coherent(w1)
  {
  }

  /** Each call answers and changes the database as its database-only meaning says. */
  lemma StepRefines(w: World, call: Call)
    requires Coherent(w)
    ensures var (w1, reply) := Step(w, call);
            (w1.db, reply) == DbStep(w.db, call) && Coherent(w1)
  {
    match call
    case VerifyAndEnable(user, totpOk, minted) =>
      if user in w.db.users {
        var users := w.db.users[user := w.db.users[user].(enabled := true)];
        UsersDoNotMatter(w, users);
        PersistKeepsCoherent(w.(db := w.db.(users := users)), user, minted);
      }
    case CheckLogin(user, totpOk, code) => CheckRefines(w, user, totpOk, code);
    case Disable(user, totpOk, code) =>
      CheckRefines(w, user, totpOk, code);
      var w1 := CheckCode(w, user, totpOk, code).0;
      DropKeepsCoherent(w1, user, w1.db.users[user := Totp(None, false)]);
    case Regenerate(user, totpOk, code, minted) =>
      CheckRefines(w, user, totpOk, code);
      PersistKeepsCoherent(CheckCode(w, user, totpOk, code).0, user, minted);
    case Setup(user, secret) =>
      UsersDoNotMatter(w, w.db.users[user := Totp(Some(secret), false)]);
    case Tick(_) => ShrinkingKeepsCoherent(w, Step(w, call).0);
    case Evict(_) => ShrinkingKeepsCoherent(w, Step(w, call).0);
    case GetCount(_) =>
  }

  /** Over every run, with Redis losing any user's set at any moment: the replies and the database
      are those of the run that only ever looks at the rows. */
  lemma {:induction false} CacheIsUnobservable(w: World, calls: seq<Call>)
    requires Coherent(w)
    ensures var (w1, replies) := Run(w, calls);
            (w1.db, replies) == DbRun(w.db, calls) && Coherent(w1)
    decreases |calls|
  {
    if calls != [] {
      StepRefines(w, calls[0]);
      CacheIsUnobservable(Step(w, calls[0]).0, calls[1..]);
    }
  }

  // ---- Conservation of codes within a generation ----

  /** Rows and uses are counted for one code, or (with None) for all codes of the user. */
  predicate Counts(which: Option<string>, code: string) { which.Some? ==> which.value == code }

  function CountCodes(rows: seq<CodeRow>, user: UserId, which: Option<string>): nat {
    if rows == [] then 0
    else
      var first := if IsActive(rows[0], user) && Counts(which, rows[0].hash.of) then 1 else 0;
      first + CountCodes(rows[1..], user, which)
  }

  function CountMinted(codes: seq<string>, which: Option<string>): nat {
    if codes == [] then 0 else (if Counts(which, codes[0]) then 1 else 0) + CountMinted(codes[1..], which)
  }

  /** The call is a login that a backup code, rather than the authenticator, let through. */
  predicate IsUse(call: Call, reply: Reply, user: UserId, which: Option<string>) {
    call.CheckLogin? && call.user == user && !call.totpOk && reply.Done? && Counts(which, Upper(call.code))
  }

  /** The call replaced or deleted the user's codes. */
  predicate EndsGeneration(call: Call, reply: Reply, user: UserId) {
    match call
    case VerifyAndEnable(u, _, _) => u == user && reply.Codes?
    case Regenerate(u, _, _, _) => u == user && reply.Codes?
    case Disable(u, _, _) => u == user && reply.Done?
    case _ => false
  }

  function Uses(w: World, calls: seq<Call>, user: UserId, which: Option<string>): nat
    decreases |calls|
  {
    if calls == [] then 0
    else
      var (w1, reply) := Step(w, calls[0]);
      (if IsUse(calls[0], reply, user, which) then 1 else 0) + Uses(w1, calls[1..], user, which)
  }

  ghost predicate SameGeneration(w: World, calls: seq<Call>, user: UserId)
    decreases |calls|
  {
    calls != [] ==>
      var (w1, reply) := Step(w, calls[0]);
      !EndsGeneration(calls[0], reply, user) && SameGeneration(w1, calls[1..], user)
  }

  lemma {:induction false} CountAppend(a: seq<CodeRow>, b: seq<CodeRow>, user: UserId, which: Option<string>)
    ensures CountCodes(a + b, user, which) == CountCodes(a, user, which) + CountCodes(b, user, which)
  {
    if a == [] {
      assert a + b == b;
    } else {
      CountAppend(a[1..], b, user, which);
      assert (a + b)[1..] == a[1..] + b;
    }
  }

  lemma {:induction false} CountDeleted(rows: seq<CodeRow>, deleted: UserId, user: UserId, which: Option<string>)
    ensures CountCodes(DeleteAll(rows, deleted), user, which) ==
            if user == deleted then 0 else CountCodes(rows, user, which)
  {
    if rows != [] {
      CountDeleted(rows[1..], deleted, user, which);
      if rows[0].user != deleted {
        assert DeleteAll(rows, deleted)[1..] == DeleteAll(rows[1..], deleted);
      }
    }
  }

  lemma {:induction false} CountNew(owner: UserId, codes: seq<string>, nextId: nat, user: UserId, which: Option<string>)
    ensures CountCodes(NewRows(owner, codes, nextId), user, which) ==
            if user == owner then CountMinted(codes, which) else 0
  {
    if codes != [] {
      CountNew(owner, codes[1..], nextId + 1, user, which);
      assert NewRows(owner, codes, nextId)[1..] == NewRows(owner, codes[1..], nextId + 1);
    }
  }

  lemma CountReplaced(db: Db, owner: UserId, codes: seq<string>, user: UserId, which: Option<string>)
    ensures CountCodes(ReplaceCodes(db, owner, codes).codes, user, which) ==
            if user == owner then CountMinted(codes, which) else CountCodes(db.codes, user, which)
  {
    CountAppend(DeleteAll(db.codes, owner), NewRows(owner, codes, db.nextId), user, which);
    CountDeleted(db.codes, owner, user, which);
    CountNew(owner, codes, db.nextId, user, which);
  }

  lemma {:induction false} CountMarked(rows: seq<CodeRow>, k: nat, user: UserId, which: Option<string>)
    requires k < |rows| && !rows[k].used
    requires forall i, j :: 0 <= i < j < |rows| ==> rows[i].id != rows[j].id
    ensures CountCodes(MarkUsed(rows, rows[k].id), user, which) +
            (if rows[k].user == user && Counts(which, rows[k].hash.of) then 1 else 0) == CountCodes(rows, user, which)
  {
    var marked := MarkUsed(rows, rows[k].id);
    assert marked[1..] == MarkUsed(rows[1..], rows[k].id);
    if k == 0 {
      assert MarkUsed(rows[1..], rows[0].id) == rows[1..];
    } else {
      CountMarked(rows[1..], k - 1, user, which);
    }
  }

  /** A use takes away exactly one active row of its code. */
  lemma TryConserves(db: Db, owner: UserId, code: string, user: UserId, which: Option<string>)
    requires UniqueIds(db)
    ensures var (db1, ok) := TryFromDb(db, owner, code);
            CountCodes(db1.codes, user, which) + (if ok && owner == user && Counts(which, code) then 1 else 0) ==
              CountCodes(db.codes, user, which)
  {
    var found := FindCode(db.codes, owner, code, 0);
    if found.Some? { CountMarked(db.codes, found.value, user, which); }
  }

  lemma StepConserves(w: World, call: Call, user: UserId, which: Option<string>)
    requires Coherent(w) && !EndsGeneration(call, Step(w, call).1, user)
    ensures var (w1, reply) := Step(w, call);
            CountCodes(w1.db.codes, user, which) + (if IsUse(call, reply, user, which) then 1 else 0) ==
              CountCodes(w.db.codes, user, which)
  {
    StepRefines(w, call);
    DbStepConserves(w.db, call, user, which);
  }

  lemma DbStepConserves(db: Db, call: Call, user: UserId, which: Option<string>)
    requires UniqueIds(db) && !EndsGeneration(call, DbStep(db, call).1, user)
    ensures var (db1, reply) := DbStep(db, call);
            CountCodes(db1.codes, user, which) + (if IsUse(call, reply, user, which) then 1 else 0) ==
              CountCodes(db.codes, user, which)
  {
    match call
    case VerifyAndEnable(u, _, minted) =>
      if u in db.users {
        CountReplaced(db.(users := db.users[u := db.users[u].(enabled := true)]), u, minted, user, which);
      }
    case CheckLogin(u, _, code) => TryConserves(db, u, Upper(code), user, which);
    case Disable(_, _, _) => ReplacementConserves(db, call, user, which);
    case Regenerate(_, _, _, _) => ReplacementConserves(db, call, user, which);
    case _ =>
  }

  /** Of another user's codes, or when refused, disabling and regenerating leave as many. */
  lemma ReplacementConserves(db: Db, call: Call, user: UserId, which: Option<string>)
    requires UniqueIds(db) && (call.Disable? || call.Regenerate?) && !EndsGeneration(call, DbStep(db, call).1, user)
    ensures CountCodes(DbStep(db, call).0.codes, user, which) == CountCodes(db.codes, user, which)
  {
    var checked := DbCheckCode(db, call.user, call.totpOk, call.code).0;
    CheckConserves(db, call.user, call.totpOk, call.code, user, which);
    if call.Disable? { CountDeleted(checked.codes, call.user, user, which); }
    else { CountReplaced(checked, call.user, call.minted, user, which); }
  }

  /** A check changes nothing for other users, and nothing at all when it fails. */
  lemma CheckConserves(db: Db, owner: UserId, totpOk: bool, code: string, user: UserId, which: Option<string>)
    requires UniqueIds(db)
    ensures var (db1, ok) := DbCheckCode(db, owner, totpOk, code);
            owner != user || !ok ==> CountCodes(db1.codes, user, which) == CountCodes(db.codes, user, which)
  {
    TryConserves(db, owner, Upper(code), user, which);
  }

  lemma {:induction false} RunConserves(w: World, calls: seq<Call>, user: UserId, which: Option<string>)
    requires Coherent(w) && SameGeneration(w, calls, user)
    ensures CountCodes(Run(w, calls).0.db.codes, user, which) + Uses(w, calls, user, which) ==
            CountCodes(w.db.codes, user, which)
    decreases |calls|
  {
    if calls != [] {
      StepRefines(w, calls[0]);
      StepConserves(w, calls[0], user, which);
      RunConserves(Step(w, calls[0]).0, calls[1..], user, which);
    }
  }

  /** Within a generation, active codes plus uses are always the codes generated. With `which` a
      single code: it is used at most as often as it was generated, and a code that is not of the
      newest generation is never accepted. */
  lemma CodesAreConserved(w: World, begin: Call, calls: seq<Call>, user: UserId, which: Option<string>)
    requires Coherent(w) && EndsGeneration(begin, Step(w, begin).1, user)
    requires SameGeneration(Step(w, begin).0, calls, user)
    ensures var (w1, reply) := Step(w, begin);
            CountCodes(Run(w1, calls).0.db.codes, user, which) + Uses(w1, calls, user, which) ==
            if reply.Codes? then CountMinted(reply.codes, which) else 0
  {
    var (w1, reply) := Step(w, begin);
    StepRefines(w, begin);
    RunConserves(w1, calls, user, which);
    match begin
    case VerifyAndEnable(u, _, minted) =>
      CountReplaced(w.db.(users := w.db.users[u := w.db.users[u].(enabled := true)]), u, minted, user, which);
    case Regenerate(u, totpOk, code, minted) =>
      CountReplaced(DbCheckCode(w.db, u, totpOk, code).0, u, minted, user, which);
    case Disable(u, totpOk, code) =>
      CountDeleted(DbCheckCode(w.db, u, totpOk, code).0.codes, u, user, which);
    case _ =>
  }

  predicate Distinct(codes: seq<string>) {
    forall i, j :: 0 <= i < j < |codes| ==> codes[i] != codes[j]
  }

  lemma {:induction false} DistinctMintedOnce(codes: seq<string>, c: string)
    requires Distinct(codes)
    ensures CountMinted(codes, Some(c)) == if c in codes then 1 else 0
  {
    if codes != [] {
      DistinctMintedOnce(codes[1..], c);
      if codes[0] == c {
        assert c !in codes[1..];
      } else {
        assert c in codes <==> c in codes[1..];
      }
    }
  }

  /** With distinct codes each is accepted at most once, and only codes of the generation are. */
  lemma EachCodeWorksAtMostOnce(w: World, begin: Call, calls: seq<Call>, user: UserId, c: string)
    requires Coherent(w) && EndsGeneration(begin, Step(w, begin).1, user)
    requires SameGeneration(Step(w, begin).0, calls, user)
    requires Step(w, begin).1.Codes? ==> Distinct(Step(w, begin).1.codes)
    ensures var (w1, reply) := Step(w, begin);
            Uses(w1, calls, user, Some(c)) <= if reply.Codes? && c in reply.codes then 1 else 0
  {
    CodesAreConserved(w, begin, calls, user, Some(c));
    if Step(w, begin).1.Codes? { DistinctMintedOnce(Step(w, begin).1.codes, c); }
  }

  lemma {:induction false} CountAllMinted(codes: seq<string>)
    ensures CountMinted(codes, None) == |codes|
  {
    if codes != [] { CountAllMinted(codes[1..]); }
  }

  lemma {:induction false} CountAllIsCountActive(rows: seq<CodeRow>, user: UserId)
    ensures CountCodes(rows, user, None) == CountActive(rows, user)
  {
    if rows != [] { CountAllIsCountActive(rows[1..], user); }
  }

  /** What `get_backup_code_count` reports is the number generated minus the number used. */
  lemma ReportedCountIsWhatIsLeft(w: World, begin: Call, calls: seq<Call>, user: UserId)
    requires Coherent(w) && EndsGeneration(begin, Step(w, begin).1, user) && Step(w, begin).1.Codes?
    requires SameGeneration(Step(w, begin).0, calls, user)
    ensures var (w1, reply) := Step(w, begin);
            var asked := Step(Run(w1, calls).0, GetCount(user)).1;
            asked.Count? ==> asked.n + Uses(w1, calls, user, None) == |reply.codes|
  {
    CodesAreConserved(w, begin, calls, user, None);
    CountAllMinted(Step(w, begin).1.codes);
    CountAllIsCountActive(Run(Step(w, begin).0, calls).0.db.codes, user);
  }

  // ---- What each call answers and leaves in the database ----

  ghost predicate HasSecret(db: Db, user: UserId) { user in db.users && db.users[user].secret.Some? }

  ghost predicate On(db: Db, user: UserId) { user in db.users && db.users[user].enabled }

  /** Row i is the user's, unused, and holds the code. */
  ghost predicate Accepts(db: Db, user: UserId, code: string, i: nat) {
    i < |db.codes| && db.codes[i].user == user && !db.codes[i].used && db.codes[i].hash == Digest(code)
  }

  ghost predicate FirstAccepting(db: Db, user: UserId, code: string, i: nat) {
    Accepts(db, user, code, i) && forall j: nat :: j < i ==> !Accepts(db, user, code, j)
  }

  /** The code is the authenticator's, or some unused row holds it in capitals. */
  ghost predicate IsRight(db: Db, user: UserId, totpOk: bool, code: string) {
    HasSecret(db, user) && (totpOk || exists i: nat :: Accepts(db, user, Upper(code), i))
  }

  /** Of the user's rows none are kept, of everyone else's all. */
  ghost predicate OthersKept(rows: seq<CodeRow>, rows1: seq<CodeRow>, user: UserId) {
    forall row :: multiset(rows1)[row] == if row.user == user then 0 else multiset(rows)[row]
  }

  /** From position `kept` on: one unused row of the user for each new code, in order. */
  ghost predicate NewFrom(rows: seq<CodeRow>, kept: nat, nextId: nat, user: UserId, minted: seq<string>) {
    && |rows| == kept + |minted|
    && forall i :: 0 <= i < |minted| ==> rows[kept + i] == CodeRow(nextId + i, user, Digest(minted[i]), false)
  }

  /** The user's rows are gone, and the new ones follow the others'. */
  ghost predicate Replaced(rows: seq<CodeRow>, nextId: nat, db1: Db, user: UserId, minted: seq<string>) {
    && db1.nextId == nextId + |minted|
    && exists kept: nat :: NewFrom(db1.codes, kept, nextId, user, minted) &&
                           OthersKept(rows, db1.codes[..kept], user)
  }

  ghost predicate DbOutcome(db: Db, call: Call, db1: Db, reply: Reply) {
    match call
    case Setup(user, secret) =>
      if user in db.users then reply == Started && db1 == db.(users := db.users[user := Totp(Some(secret), false)])
      else reply == Failed(NotFound) && db1 == db
    case VerifyAndEnable(user, totpOk, minted) =>
      if HasSecret(db, user) && totpOk then
        && reply == Codes(minted) && Replaced(db.codes, db.nextId, db1, user, minted)
        && db1.users == db.users[user := Totp(db.users[user].secret, true)]
      else reply == Failed(if HasSecret(db, user) then InvalidCode else NotConfigured) && db1 == db
    case CheckLogin(user, totpOk, code) =>
      if !IsRight(db, user, totpOk, code) then reply == Failed(InvalidCode) && db1 == db
      else
        && reply == Done
        && if totpOk then db1 == db
           else exists i: nat :: FirstAccepting(db, user, Upper(code), i) &&
                                 db1 == db.(codes := db.codes[i := db.codes[i].(used := true)])
    case Disable(user, totpOk, code) =>
      if On(db, user) && IsRight(db, user, totpOk, code) then
        && reply == Done && OthersKept(db.codes, db1.codes, user) && db1.nextId == db.nextId
        && db1.users == db.users[user := Totp(None, false)]
      else
        reply == Failed(if On(db, user) && HasSecret(db, user) then InvalidCode else AlreadyDisabled) && db1 == db
    case Regenerate(user, totpOk, code, minted) =>
      if On(db, user) && IsRight(db, user, totpOk, code) then
        reply == Codes(minted) && Replaced(db.codes, db.nextId, db1, user, minted) && db1.users == db.users
      else reply == Failed(if On(db, user) && HasSecret(db, user) then InvalidCode else NotConfigured) && db1 == db
    case GetCount(user) =>
      && db1 == db
      && if On(db, user) then
           reply == Count(|UnusedRows(db.codes, user, 0)|)
         else reply == Failed(NotConfigured)
    case _ => reply == Done && db1 == db
  }

  lemma {:induction false} DeletionKeepsOthers(rows: seq<CodeRow>, user: UserId)
    ensures OthersKept(rows, DeleteAll(rows, user), user)
  {
    if rows != [] {
      DeletionKeepsOthers(rows[1..], user);
      assert rows == [rows[0]] + rows[1..];
    }
  }

  lemma ReplacementReplaces(db: Db, user: UserId, minted: seq<string>)
    ensures Replaced(db.codes, db.nextId, ReplaceCodes(db, user, minted), user, minted)
  {
    var (kept, rows) := (DeleteAll(db.codes, user), ReplaceCodes(db, user, minted).codes);
    DeletionKeepsOthers(db.codes, user);
    NewRowsFollow(rows, db.nextId, user, minted, kept);
    assert NewFrom(rows, |kept|, db.nextId, user, minted) && OthersKept(db.codes, rows[..|kept|], user);
  }

  lemma NewRowsFollow(rows: seq<CodeRow>, nextId: nat, user: UserId, minted: seq<string>, kept: seq<CodeRow>)
    requires rows == kept + NewRows(user, minted, nextId)
    ensures rows[..|kept|] == kept && NewFrom(rows, |kept|, nextId, user, minted)
  {
    forall i | 0 <= i < |minted| ensures rows[|kept| + i] == CodeRow(nextId + i, user, Digest(minted[i]), false) {
      assert rows[|kept| + i] == NewRows(user, minted, nextId)[i];
    }
  }

  /** A check marks at most one row, one of the user's own. */
  lemma CheckMarksOwnRow(db: Db, user: UserId, totpOk: bool, code: string)
    requires UniqueIds(db)
    ensures var (db1, ok) := DbCheckCode(db, user, totpOk, code);
            && (ok <==> IsRight(db, user, totpOk, code))
            && db1 == db.(codes := db1.codes) && (!ok || totpOk ==> db1 == db)
            && (ok && !totpOk ==> exists i: nat :: FirstAccepting(db, user, Upper(code), i) &&
                                    db1.codes == db.codes[i := db.codes[i].(used := true)])
  {
    var found := FindCode(db.codes, user, Upper(code), 0);
    if found.Some? {
      var i := found.value;
      assert FirstAccepting(db, user, Upper(code), i);
      assert MarkUsed(db.codes, db.codes[i].id) == db.codes[i := db.codes[i].(used := true)];
    }
  }

  /** Marking one of the user's rows does not change which rows are others'. */
  lemma OwnRowIsNotOthers(rows: seq<CodeRow>, i: nat, rows1: seq<CodeRow>)
    requires i < |rows| && OthersKept(rows[i := rows[i].(used := true)], rows1, rows[i].user)
    ensures OthersKept(rows, rows1, rows[i].user)
  {
    var marked := rows[i].(used := true);
    assert rows == rows[..i] + [rows[i]] + rows[i + 1..];
    assert rows[i := marked] == rows[..i] + [marked] + rows[i + 1..];
  }

  /** The positions, from `from` on, of the user's unused rows. */
  ghost function UnusedRows(rows: seq<CodeRow>, user: UserId, from: nat): set<int> {
    set i | from <= i < |rows| && rows[i].user == user && !rows[i].used
  }

  lemma {:induction false} CountIsCardinality(rows: seq<CodeRow>, user: UserId, from: nat)
    requires from <= |rows|
    ensures CountActive(rows[from..], user) == |UnusedRows(rows, user, from)|
    decreases |rows| - from
  {
    if from < |rows| {
      CountIsCardinality(rows, user, from + 1);
      assert rows[from..][1..] == rows[from + 1..];
      assert UnusedRows(rows, user, from) ==
             UnusedRows(rows, user, from + 1) + if IsActive(rows[from], user) then {from} else {};
    }
  }

  lemma DbIsOutcome(db: Db, call: Call)
    requires UniqueIds(db)
    ensures var (db1, reply) := DbStep(db, call); DbOutcome(db, call, db1, reply)
  {
    match call
    case VerifyAndEnable(_, _, _) => EnablingIsOutcome(db, call);
    case CheckLogin(user, totpOk, code) => CheckMarksOwnRow(db, user, totpOk, code);
    case Disable(_, _, _) => DisablingIsOutcome(db, call);
    case Regenerate(_, _, _, _) => RegenerationIsOutcome(db, call);
    case GetCount(user) =>
      CountIsCardinality(db.codes, user, 0);
      assert db.codes[0..] == db.codes;
    case _ =>
  }

  lemma EnablingIsOutcome(db: Db, call: Call)
    requires call.VerifyAndEnable?
    ensures var (db1, reply) := DbStep(db, call); DbOutcome(db, call, db1, reply)
  {
    var user := call.user;
    if HasSecret(db, user) && call.totpOk {
      var enabled := db.(users := db.users[user := db.users[user].(enabled := true)]);
      ReplacementReplaces(enabled, user, call.minted);
    }
  }

  lemma DisablingIsOutcome(db: Db, call: Call)
    requires UniqueIds(db) && call.Disable?
    ensures var (db1, reply) := DbStep(db, call); DbOutcome(db, call, db1, reply)
  {
    CheckMarksOwnRow(db, call.user, call.totpOk, call.code);
    RemovalIsOutcome(db, call.user, call.totpOk, call.code);
  }

  lemma ReplacedInOriginal(rows: seq<CodeRow>, checked: Db, user: UserId, minted: seq<string>)
    requires forall others :: OthersKept(checked.codes, others, user) ==> OthersKept(rows, others, user)
    ensures Replaced(rows, checked.nextId, ReplaceCodes(checked, user, minted), user, minted)
  {
    ReplacementReplaces(checked, user, minted);
    var rows1 := ReplaceCodes(checked, user, minted).codes;
    var kept: nat :| NewFrom(rows1, kept, checked.nextId, user, minted) &&
                     OthersKept(checked.codes, rows1[..kept], user);
    assert OthersKept(rows, rows1[..kept], user);
  }

  lemma RegenerationIsOutcome(db: Db, call: Call)
    requires UniqueIds(db) && call.Regenerate?
    ensures var (db1, reply) := DbStep(db, call); DbOutcome(db, call, db1, reply)
  {
    var (checked, ok) := DbCheckCode(db, call.user, call.totpOk, call.code);
    CheckMarksOwnRow(db, call.user, call.totpOk, call.code);
    RemovalIsOutcome(db, call.user, call.totpOk, call.code);
    ReplacedInOriginal(db.codes, checked, call.user, call.minted);
  }

  /** After a right code, what is not the user's is as before. */
  lemma RemovalIsOutcome(db: Db, user: UserId, totpOk: bool, code: string)
    requires UniqueIds(db)
    ensures var (db1, ok) := DbCheckCode(db, user, totpOk, code);
            && OthersKept(db.codes, DeleteAll(db1.codes, user), user)
            && forall rows :: OthersKept(db1.codes, rows, user) ==> OthersKept(db.codes, rows, user)
  {
    var (db1, ok) := DbCheckCode(db, user, totpOk, code);
    CheckMarksOwnRow(db, user, totpOk, code);
    DeletionKeepsOthers(db1.codes, user);
    forall rows | OthersKept(db1.codes, rows, user) ensures OthersKept(db.codes, rows, user) {
      if ok && !totpOk {
        var i: nat :| FirstAccepting(db, user, Upper(code), i) &&
                      db1.codes == db.codes[i := db.codes[i].(used := true)];
        OwnRowIsNotOthers(db.codes, i, rows);
      }
    }
  }

  /** With the Redis sets in front: every call's answer, and what it leaves in the database. */
  lemma StepIsOutcome(w: World, call: Call)
    requires Coherent(w)
    ensures var (w1, reply) := Step(w, call); Coherent(w1) && DbOutcome(w.db, call, w1.db, reply)
  {
    StepRefines(w, call);
    DbIsOutcome(w.db, call);
  }

  /** At time `t` the Redis set of the user would answer that it holds the code. */
  ghost predicate HeldAt(w: World, user: UserId, code: string, t: nat) {
    user in w.redis && code in w.redis[user].members && t < w.redis[user].expires
  }

  /** Minted codes are held for the configured days; a used one goes, alone; disabling drops the set. */
  ghost predicate HeldAfter(w: World, call: Call, reply: Reply, user: UserId, c: string, t: nat) {
    if call.Tick? || call.user != user then HeldAt(w, user, c, t)
    else if reply.Codes? then c in reply.codes && t < w.now + w.ttlDays * DAY
    else if call.Evict? || (call.Disable? && reply.Done?) then false
    else
      HeldAt(w, user, c, t) &&
      !(call.CheckLogin? && HasSecret(w.db, user) && !call.totpOk && c == Upper(call.code) && HeldAt(w, user, c, w.now))
  }

  lemma CacheOutcome(w: World, call: Call, user: UserId, c: string, t: nat)
    ensures var (w1, reply) := Step(w, call);
            HeldAt(w1, user, c, t) <==> HeldAfter(w, call, reply, user, c, t)
  {
    match call
    case VerifyAndEnable(_, _, _) => MintingOutcome(w, call, user, c, t);
    case Regenerate(_, _, _, _) => MintingOutcome(w, call, user, c, t);
    case Disable(u, totpOk, code) => CheckOnCache(w, u, totpOk, code, user, c, t);
    case CheckLogin(u, totpOk, code) => CheckOnCache(w, u, totpOk, code, user, c, t);
    case _ =>
  }

  lemma MintingOutcome(w: World, call: Call, user: UserId, c: string, t: nat)
    requires call.VerifyAndEnable? || call.Regenerate?
    ensures var (w1, reply) := Step(w, call);
            HeldAt(w1, user, c, t) <==> HeldAfter(w, call, reply, user, c, t)
  {
    if call.Regenerate? { CheckOnCache(w, call.user, call.totpOk, call.code, user, c, t); }
  }

  lemma CheckOnCache(w: World, owner: UserId, totpOk: bool, code: string, user: UserId, c: string, t: nat)
    ensures var (w1, ok) := CheckCode(w, owner, totpOk, code);
            var used := owner == user && HasSecret(w.db, owner) && !totpOk && HeldAt(w, user, Upper(code), w.now);
            && (HeldAt(w1, user, c, t) <==> HeldAt(w, user, c, t) && !(used && c == Upper(code)))
            && (used ==> ok) && w1.now == w.now && w1.ttlDays == w.ttlDays
  {
    if owner in w.redis {
      var left := w.redis[owner].members - {Upper(code)};
      assert c in left <==> c in w.redis[owner].members && c != Upper(code);
    }
  }

  // ---- What a second factor takes ----

  /** The second factor succeeds iff a secret is set up and the code is the authenticator's, or, in
      any letter case, one of the user's unused backup codes. */
  lemma LoginNeedsACode(w: World, user: UserId, totpOk: bool, code: string)
    requires Coherent(w)
    ensures Step(w, CheckLogin(user, totpOk, code)).1 == Done <==> IsRight(w.db, user, totpOk, code)
    ensures Step(w, CheckLogin(user, totpOk, Upper(code))).1 == Step(w, CheckLogin(user, totpOk, code)).1
  {
    StepIsOutcome(w, CheckLogin(user, totpOk, code));
  }

  /** TOTP goes on in one way: by proving possession of the authenticator for the stored secret. The
      reply is then the list of backup codes. */
  lemma SwitchedOnIff(w: World, call: Call, user: UserId)
    requires Coherent(w) && !On(w.db, user)
    ensures var (w1, reply) := Step(w, call);
            var proved := call.VerifyAndEnable? && call.user == user && call.totpOk && HasSecret(w.db, user);
            (On(w1.db, user) <==> proved) && (proved ==> reply == Codes(call.minted))
  {
    StepIsOutcome(w, call);
  }

  /** TOTP goes off only in two ways: by disabling it with a right code, and by starting a new setup,
      which asks for none. */
  lemma SwitchedOffIff(w: World, call: Call, user: UserId)
    requires Coherent(w) && On(w.db, user)
    ensures !On(Step(w, call).0.db, user) <==>
            || (call.Setup? && call.user == user)
            || (call.Disable? && call.user == user && IsRight(w.db, user, call.totpOk, call.code))
  {
    StepIsOutcome(w, call);
  }
}
