/** Single use of refresh tokens, the session cutoff, and what the clean-up job may delete. */
module TokenRotation {
  import opened CredentialInvariants
  import opened CredentialTheorems
  import opened Credentials
  import opened Prelude

  // ---- The blacklist record of one token ----

  /** Nothing has happened to the token's record, or it was written now, for the whole seconds left. */
  ghost predicate RecordStep(w: World, w1: World, jwt: Jwt) {
    var (key, left) := (Blacklist(jwt.jti), (jwt.exp - w.now) / SECOND);
    || ((key in w1.redis <==> key in w.redis) && (key in w.redis ==> w1.redis[key] == w.redis[key]))
    || (w1.now == w.now && left > 0 && key in w1.redis && w1.redis[key] == Entry(Flag, Some(w.now + left * SECOND)))
  }

  lemma BlacklistOnRecord(w: World, jwt: Jwt, other: Jwt)
    requires Genuine(w, jwt) && Genuine(w, other)
    ensures RecordStep(w, w.(redis := BlacklistToken(w.redis, other, w.now)), jwt)
  {
  }

  /** No call does anything else to a record, whichever token it is about. */
  lemma StepOnRecord(w: World, call: Call, jwt: Jwt)
    requires Sane(w) && Genuine(w, jwt)
    ensures RecordStep(w, Step(w, call).0, jwt) && Genuine(Step(w, call).0, jwt)
    ensures Step(w, call).0.now == w.now + if call.Tick? then call.elapsed else 0
    ensures Step(w, call).0.settings == w.settings
  {
    StepKeepsIssued(w, call, jwt.jti);
    match call
    case DoRefresh(other) => RefreshOnRecord(w, jwt, other);
    case DoLogout(access, refresh) => LogoutOnRecord(w, jwt, access, refresh);
    case DoCleanUp => CleanUpSparesRecord(w, jwt);
    case _ => OtherCallsSpareRecord(w, call, jwt);
  }

  lemma RefreshOnRecord(w: World, jwt: Jwt, other: Jwt)
    requires Genuine(w, jwt)
    ensures RecordStep(w, RefreshTokens(w, other).0, jwt) && RefreshTokens(w, other).0.now == w.now
  {
    if Genuine(w, other) { BlacklistOnRecord(w, jwt, other); }
  }

  lemma LogoutOnRecord(w: World, jwt: Jwt, access: Jwt, refresh: Option<Jwt>)
    requires Genuine(w, jwt)
    ensures RecordStep(w, Logout(w, access, refresh).0, jwt) && Logout(w, access, refresh).0.now == w.now
  {
    if Genuine(w, access) {
      BlacklistOnRecord(w, jwt, access);
      if refresh.Some? && Genuine(w, refresh.value) {
        BlacklistOnRecord(w.(redis := BlacklistToken(w.redis, access, w.now)), jwt, refresh.value);
      }
    }
  }

  lemma OtherCallsSpareRecord(w: World, call: Call, jwt: Jwt)
    requires !call.DoRefresh? && !call.DoLogout? && !call.DoCleanUp?
    ensures RecordStep(w, Step(w, call).0, jwt)
    ensures Step(w, call).0.now == w.now + if call.Tick? then call.elapsed else 0
  {
  }

  lemma CleanUpSparesRecord(w: World, jwt: Jwt)
    requires RedisSane(w)
    ensures RecordStep(w, CleanUp(w).0, jwt)
  {
    assert forall key :: key in w.redis ==> EntrySane(w, key, w.redis[key]);
  }

  /** The token's record lasts at least until `until`. */
  ghost predicate RecordedUntil(w: World, jwt: Jwt, until: int) {
    var key := Blacklist(jwt.jti);
    key in w.redis && w.redis[key].expires.Some? && w.redis[key].expires.value >= until
  }

  // ---- Rotation: a consumed token stays rejected until its last second ----

  /** The token has been blacklisted until within a second of its expiry, or has reached it. */
  ghost predicate Consumed(w: World, jwt: Jwt) {
    Genuine(w, jwt) && (w.now + SECOND > jwt.exp || RecordedUntil(w, jwt, jwt.exp - SECOND + 1))
  }

  lemma ConsumedIsRejected(w: World, jwt: Jwt)
    requires Consumed(w, jwt) && w.now + SECOND <= jwt.exp
    ensures RefreshTokens(w, jwt).1 == Failed(InvalidToken) && RefreshTokens(w, jwt).0 == w
    ensures GetCurrentAuth(w, Bearer(jwt)) == Err(InvalidToken)
  {
  }

  /** No later write of a blacklist key weakens it, whichever token the write is for. */
  lemma BlacklistKeepsConsumed(w: World, jwt: Jwt, other: Jwt)
    requires Consumed(w, jwt) && Genuine(w, other)
    ensures Consumed(w.(redis := BlacklistToken(w.redis, other, w.now)), jwt)
  {
    BlacklistOnRecord(w, jwt, other);
  }

  lemma StepKeepsConsumed(w: World, jwt: Jwt, call: Call)
    requires Sane(w) && Consumed(w, jwt)
    ensures Consumed(Step(w, call).0, jwt)
  {
    StepOnRecord(w, call, jwt);
    RecordStepKeepsConsumed(w, Step(w, call).0, jwt);
  }

  lemma RecordStepKeepsConsumed(w: World, w1: World, jwt: Jwt)
    requires Consumed(w, jwt) && RecordStep(w, w1, jwt) && Genuine(w1, jwt) && w1.now >= w.now
    ensures Consumed(w1, jwt)
  {
  }

  lemma {:induction false} RunKeepsConsumed(w: World, jwt: Jwt, calls: seq<Call>)
    requires Sane(w) && Consumed(w, jwt)
    ensures Consumed(Run(w, calls), jwt)
    decreases |calls|
  {
    if calls != [] {
      StepSane(w, calls[0]);
      StepKeepsConsumed(w, jwt, calls[0]);
      RunKeepsConsumed(Step(w, calls[0]).0, jwt, calls[1..]);
    }
  }

  /** The calls that consume a token: a successful refresh with it, or a successful logout that was
      given it (as the access token, or as a refresh token). */
  ghost predicate Consumes(w: World, call: Call, jwt: Jwt) {
    match call
    case DoRefresh(presented) => presented == jwt && Step(w, call).1.Tokens?
    case DoLogout(access, refresh) =>
      Step(w, call).1.Done? && (access == jwt || (refresh == Some(jwt) && jwt.kind == Refresh && Genuine(w, jwt)))
    case _ => false
  }

  lemma CallConsumes(w: World, call: Call, jwt: Jwt)
    requires Sane(w) && Consumes(w, call, jwt)
    ensures Consumed(Step(w, call).0, jwt)
  {
    match call
    case DoRefresh(_) => RecordConsumes(w, jwt);
    case DoLogout(access, refresh) =>
      LogoutConsumes(w, access, refresh, jwt);
    case _ =>
  }

  lemma RecordConsumes(w: World, jwt: Jwt)
    requires Genuine(w, jwt)
    ensures Consumed(w.(redis := BlacklistToken(w.redis, jwt, w.now)), jwt)
  {
  }

  lemma LogoutConsumes(w: World, access: Jwt, refresh: Option<Jwt>, jwt: Jwt)
    requires Logout(w, access, refresh).1.Done? && Genuine(w, jwt)
    requires access == jwt || (refresh == Some(jwt) && jwt.kind == Refresh)
    ensures Consumed(Logout(w, access, refresh).0, jwt)
  {
    var w1 := w.(redis := BlacklistToken(w.redis, access, w.now));
    RecordConsumes(w, access);
    if refresh.Some? && Genuine(w, refresh.value) {
      RecordConsumes(w1, refresh.value);
      if access == jwt { BlacklistKeepsConsumed(w1, jwt, refresh.value); }
    }
  }

  /** Once consumed, a token is rejected after any calls, at every instant up to one second before
      its expiry. */
  lemma ConsumedStaysRejected(w: World, call: Call, jwt: Jwt, calls: seq<Call>)
    requires Sane(w) && Consumes(w, call, jwt)
    requires Run(Step(w, call).0, calls).now + SECOND <= jwt.exp
    ensures var later := Run(Step(w, call).0, calls);
            RefreshTokens(later, jwt).1 == Failed(InvalidToken) &&
            GetCurrentAuth(later, Bearer(jwt)) == Err(InvalidToken)
  {
    StepSane(w, call);
    CallConsumes(w, call, jwt);
    RunKeepsConsumed(Step(w, call).0, jwt, calls);
    ConsumedIsRejected(Run(Step(w, call).0, calls), jwt);
  }

  // ---- What a second use takes ----

  /** The token succeeds again after the calls. */
  ghost predicate Replays(w: World, jwt: Jwt, calls: seq<Call>) {
    RefreshTokens(Run(RefreshTokens(w, jwt).0, calls), jwt).1.Tokens?
  }

  function Wait(w: World, elapsed: nat): World { Step(w, Tick(elapsed)).0 }

  lemma WaitIsRun(w: World, elapsed: nat)
    ensures Run(w, [Tick(elapsed)]) == Wait(w, elapsed)
  {
  }

  /** With nothing but time passing, a second use succeeds exactly between the end of the blacklist
      record and the end of the token. */
  lemma ReplayWindow(w: World, jwt: Jwt, elapsed: nat)
    requires Sane(w) && RefreshTokens(w, jwt).1.Tokens?
    ensures RefreshTokens(Wait(RefreshTokens(w, jwt).0, elapsed), jwt).1.Tokens? <==>
            (jwt.exp - w.now) / SECOND * SECOND <= elapsed < jwt.exp + w.settings.leeway - w.now
  {
  }

  /** The first moment of that window, if there is one: the end of the record. */
  function WindowStart(w: World, jwt: Jwt): nat {
    if jwt.exp > w.now then (jwt.exp - w.now) / SECOND * SECOND else 0
  }

  lemma WindowStartIsWhole(w: World, jwt: Jwt)
    ensures WindowStart(w, jwt) % SECOND == 0
  {
  }

  lemma WindowOpensIff(w: World, jwt: Jwt)
    requires Sane(w) && RefreshTokens(w, jwt).1.Tokens?
    ensures Replays(w, jwt, [Tick(WindowStart(w, jwt))]) <==> (w.settings.leeway > 0 || (jwt.exp - w.now) % SECOND != 0)
  {
    ReplayWindow(w, jwt, WindowStart(w, jwt));
    WaitIsRun(RefreshTokens(w, jwt).0, WindowStart(w, jwt));
  }

  /** Waiting opens a window iff there is a leeway, or the token's remaining life was not a whole number
      of seconds. */
  lemma ReplayIffPartialSecond(w: World, jwt: Jwt)
    requires Sane(w) && RefreshTokens(w, jwt).1.Tokens?
    ensures (exists elapsed: nat :: Replays(w, jwt, [Tick(elapsed)])) <==>
            w.settings.leeway > 0 || (jwt.exp - w.now) % SECOND != 0
  {
    if elapsed: nat :| Replays(w, jwt, [Tick(elapsed)]) {
      WaitIsRun(RefreshTokens(w, jwt).0, elapsed);
      ReplayWindow(w, jwt, elapsed);
    }
    WindowOpensIff(w, jwt);
  }

  // ---- On a whole-second clock: at most once ever, without leeway ----

  ghost predicate WholeSeconds(calls: seq<Call>) {
    forall i :: 0 <= i < |calls| && calls[i].Tick? ==> calls[i].elapsed % SECOND == 0
  }

  /** The blacklist record outlives the token. */
  ghost predicate Spent(w: World, jwt: Jwt) {
    && Genuine(w, jwt) && w.now % SECOND == 0 && jwt.exp % SECOND == 0
    && (w.now >= jwt.exp || RecordedUntil(w, jwt, jwt.exp))
  }

  lemma SecondsAdd(a: nat, b: nat)
    requires a % SECOND == 0 && b % SECOND == 0
    ensures (a + b) % SECOND == 0
  {
  }

  lemma RecordStepKeepsSpent(w: World, w1: World, jwt: Jwt)
    requires Spent(w, jwt) && RecordStep(w, w1, jwt) && Genuine(w1, jwt) && w1.now >= w.now && w1.now % SECOND == 0
    ensures Spent(w1, jwt)
  {
  }

  lemma SpentIsRejected(w: World, jwt: Jwt)
    requires Spent(w, jwt) && w.settings.leeway == 0
    ensures !RefreshTokens(w, jwt).1.Tokens?
  {
  }

  lemma {:induction false} RunKeepsSpent(w: World, jwt: Jwt, calls: seq<Call>)
    requires Sane(w) && Spent(w, jwt) && WholeSeconds(calls)
    ensures Spent(Run(w, calls), jwt) && Run(w, calls).settings == w.settings
    decreases |calls|
  {
    if calls != [] {
      StepSane(w, calls[0]);
      StepOnRecord(w, calls[0], jwt);
      if calls[0].Tick? { SecondsAdd(w.now, calls[0].elapsed); }
      RecordStepKeepsSpent(w, Step(w, calls[0]).0, jwt);
      RunKeepsSpent(Step(w, calls[0]).0, jwt, calls[1..]);
    }
  }

  lemma WholeSecondsLeft(exp: nat, now: nat)
    requires exp % SECOND == 0 && now % SECOND == 0 && now < exp
    ensures (exp - now) / SECOND > 0 && (exp - now) / SECOND * SECOND == exp - now
  {
  }

  /** The record that a rotation leaves, and the token's expiry, which is a whole second. */
  lemma RotationRecords(w: World, jwt: Jwt)
    requires Sane(w) && RefreshTokens(w, jwt).1.Tokens?
    ensures var (w1, left) := (RefreshTokens(w, jwt).0, (jwt.exp - w.now) / SECOND);
            && Sane(w1) && Genuine(w1, jwt) && w1.now == w.now && w1.settings == w.settings
            && (jwt.exp > w.now && left > 0 ==> RecordedUntil(w1, jwt, w.now + left * SECOND))
    ensures jwt.exp % SECOND == 0
  {
    RefreshSane(w, jwt);
    StepKeepsIssued(w, DoRefresh(jwt), jwt.jti);
  }

  /** When time passes in whole seconds and there is no leeway, a refresh token that succeeded once
      never succeeds again. */
  lemma RefreshSucceedsOnce(w: World, jwt: Jwt, calls: seq<Call>)
    requires Sane(w) && RefreshTokens(w, jwt).1.Tokens? && w.settings.leeway == 0
    requires w.now % SECOND == 0 && WholeSeconds(calls)
    ensures !Replays(w, jwt, calls)
  {
    var w1 := RefreshTokens(w, jwt).0;
    RotationRecords(w, jwt);
    if w.now < jwt.exp { WholeSecondsLeft(jwt.exp, w.now); }
    RunKeepsSpent(w1, jwt, calls);
    SpentIsRejected(Run(w1, calls), jwt);
  }

  /** With a leeway it can, even then: so on a whole-second clock single use is the absence of leeway. */
  lemma WholeSecondReplayIff(w: World, jwt: Jwt)
    requires Sane(w) && RefreshTokens(w, jwt).1.Tokens? && w.now % SECOND == 0
    ensures (exists calls :: WholeSeconds(calls) && Replays(w, jwt, calls)) <==> w.settings.leeway > 0
  {
    if w.settings.leeway == 0 {
      forall calls | WholeSeconds(calls) ensures !Replays(w, jwt, calls) { RefreshSucceedsOnce(w, jwt, calls); }
    } else {
      var calls := [Tick(WindowStart(w, jwt))];
      WindowOpensIff(w, jwt);
      WindowStartIsWhole(w, jwt);
      assert WholeSeconds(calls) && Replays(w, jwt, calls);
    }
  }

  // ---- Over every continuation: exactly when a consumed token is accepted again ----

  /** The token is in its last second, or past it, and its record lasts to the end. No later write
      of the record is shorter, because it is a whole second or none. */
  ghost predicate HeldToTheEnd(w: World, jwt: Jwt) {
    && Genuine(w, jwt)
    && (w.now >= jwt.exp || (w.now + SECOND >= jwt.exp && RecordedUntil(w, jwt, jwt.exp)))
  }

  lemma RecordStepKeepsHeld(w: World, w1: World, jwt: Jwt)
    requires HeldToTheEnd(w, jwt) && RecordStep(w, w1, jwt) && Genuine(w1, jwt) && w1.now >= w.now
    ensures HeldToTheEnd(w1, jwt)
  {
  }

  lemma HeldIsRejected(w: World, jwt: Jwt)
    requires HeldToTheEnd(w, jwt) && w.settings.leeway == 0
    ensures !RefreshTokens(w, jwt).1.Tokens?
  {
  }

  lemma {:induction false} RunKeepsHeld(w: World, jwt: Jwt, calls: seq<Call>)
    requires Sane(w) && HeldToTheEnd(w, jwt)
    ensures HeldToTheEnd(Run(w, calls), jwt) && Run(w, calls).settings == w.settings
    decreases |calls|
  {
    if calls != [] {
      StepSane(w, calls[0]);
      StepOnRecord(w, calls[0], jwt);
      RecordStepKeepsHeld(w, Step(w, calls[0]).0, jwt);
      RunKeepsHeld(Step(w, calls[0]).0, jwt, calls[1..]);
    }
  }

  /** With exactly one second left at its use, and no leeway, the token is never accepted again,
      whatever follows. */
  lemma LastSecondIsNeverReplayed(w: World, jwt: Jwt, calls: seq<Call>)
    requires Sane(w) && RefreshTokens(w, jwt).1.Tokens? && jwt.exp - w.now == SECOND && w.settings.leeway == 0
    ensures !Replays(w, jwt, calls)
  {
    var w1 := RefreshTokens(w, jwt).0;
    RotationRecords(w, jwt);
    RunKeepsHeld(w1, jwt, calls);
    HeldIsRejected(Run(w1, calls), jwt);
  }

  const HALF_SECOND: nat := 500_000

  /** The continuation that reopens a whole-second token: half a second later a logout with the new
      access token names the old refresh token, and rewrites its record with one second less. */
  function LateLogout(w: World, jwt: Jwt, access: Jwt): seq<Call>
    requires w.now + HALF_SECOND < jwt.exp
  {
    [Tick(HALF_SECOND), DoLogout(access, Some(jwt)), Tick(jwt.exp - 1 - (w.now + HALF_SECOND))]
  }

  lemma RunThree(w: World, a: Call, b: Call, c: Call)
    ensures Run(w, [a, b, c]) == Step(Step(Step(w, a).0, b).0, c).0
  {
    assert [a, b, c][1..] == [b, c] && [b, c][1..] == [c] && [c][1..] == [];
    var w1 := Step(w, a).0;
    assert Run(w, [a, b, c]) == Run(w1, [b, c]);
    assert Run(w1, [b, c]) == Run(Step(w1, b).0, [c]);
  }

  lemma LivesBeyondHalfSecond(now: nat, minutes: nat)
    requires minutes >= 1
    ensures now + HALF_SECOND < FloorSecond(now + minutes * 60 * SECOND)
  {
  }

  lemma FloorIsLatestSecond(t: nat, now: nat)
    requires t % SECOND == 0 && t <= now
    ensures t <= FloorSecond(now)
  {
  }

  /** Half a second after the rotation the new access token is accepted, and both tokens are good. */
  lemma NewPairIsGood(w: World, jwt: Jwt, w1: World, access: Jwt)
    requires Sane(w) && RefreshTokens(w, jwt).1.Tokens? && w.settings.accessMinutes >= 1
    requires w1 == Wait(RefreshTokens(w, jwt).0, HALF_SECOND) && access == RefreshTokens(w, jwt).1.access
    ensures GetCurrentAuth(w1, Bearer(access)).Ok? && access.jti != jwt.jti
    ensures Genuine(w1, jwt) && w1.users == w.users && w1.now == w.now + HALF_SECOND
  {
    LivesBeyondHalfSecond(w.now, w.settings.accessMinutes);
    FloorIsLatestSecond(jwt.iat, w.now);
    NewTokenIsUnlisted(w, jwt);
    assert access == NewJwt(w, jwt.sub, Access, w.nextId);
  }

  lemma NewTokenIsUnlisted(w: World, jwt: Jwt)
    requires Sane(w) && Genuine(w, jwt)
    ensures Blacklist(w.nextId) !in BlacklistToken(w.redis, jwt, w.now)
  {
  }

  /** The logout cuts the record short by half a second. The endpoint lets it through, because the
      new access token is accepted at that moment. */
  lemma LogoutShortensRecord(w: World, jwt: Jwt, w1: World, access: Jwt)
    requires GetCurrentAuth(w1, Bearer(access)).Ok? && access.jti != jwt.jti
    requires Genuine(w1, jwt) && w1.users == w.users && w1.now == w.now + HALF_SECOND && jwt.kind == Refresh
    requires (jwt.exp - w.now) % SECOND == 0 && jwt.exp - w.now >= 2 * SECOND
    ensures var w2 := Logout(w1, access, Some(jwt)).0;
            && w2.now == w1.now && w2.users == w.users && Genuine(w2, jwt)
            && Blacklist(jwt.jti) in w2.redis && w2.redis[Blacklist(jwt.jti)].expires == Some(jwt.exp - HALF_SECOND)
  {
  }

  lemma LateLogoutReplays(w: World, jwt: Jwt)
    requires Sane(w) && RefreshTokens(w, jwt).1.Tokens? && w.settings.accessMinutes >= 1
    requires (jwt.exp - w.now) % SECOND == 0 && jwt.exp - w.now >= 2 * SECOND
    ensures Replays(w, jwt, LateLogout(w, jwt, RefreshTokens(w, jwt).1.access))
  {
    var (w0, pair) := RefreshTokens(w, jwt);
    var calls := LateLogout(w, jwt, pair.access);
    NewPairIsGood(w, jwt, Wait(w0, HALF_SECOND), pair.access);
    LogoutShortensRecord(w, jwt, Wait(w0, HALF_SECOND), pair.access);
    RunThree(w0, calls[0], calls[1], calls[2]);
  }

  /** A refresh token can succeed a second time in some continuation unless there is no leeway and it
      had exactly one second left at its first use. (The setting is validated to be at least one
      minute.) */
  lemma ReplayableIff(w: World, jwt: Jwt)
    requires Sane(w) && RefreshTokens(w, jwt).1.Tokens? && w.settings.accessMinutes >= 1
    ensures (exists calls :: Replays(w, jwt, calls)) <==> w.settings.leeway > 0 || jwt.exp - w.now != SECOND
  {
    var left := jwt.exp - w.now;
    WindowOpensIff(w, jwt);
    if w.settings.leeway == 0 && left == SECOND {
      forall calls ensures !Replays(w, jwt, calls) { LastSecondIsNeverReplayed(w, jwt, calls); }
    } else if w.settings.leeway == 0 && left % SECOND == 0 {
      LateLogoutReplays(w, jwt);
    }
  }

  // ---- The session cutoff, from both sides ----

  /** A JWT issued at or before the cutoff is cut off; one issued a second or more later is not. */
  lemma CutoffIsTwoSided(issued: nat, cutoff: nat)
    ensures issued <= cutoff ==> IsTokenRevokedAfter(FloorSecond(issued), Some(cutoff))
    ensures issued >= cutoff + SECOND ==> !IsTokenRevokedAfter(FloorSecond(issued), Some(cutoff))
  {
  }

  lemma StepMovesCutoffForward(w: World, call: Call, user: UserId)
    requires CutoffsSane(w) && user < |w.users| && w.users[user].revokedAfter.Some?
    ensures var w1 := Step(w, call).0;
            user < |w1.users| && w1.users[user].revokedAfter.Some? &&
              w.users[user].revokedAfter.value <= w1.users[user].revokedAfter.value
  {
  }

  /** Cutoffs only move forward, so a cut-off token stays cut off in every continuation. */
  lemma {:induction false} CutoffIsPermanent(w: World, calls: seq<Call>, user: UserId)
    requires Sane(w) && user < |w.users| && w.users[user].revokedAfter.Some?
    ensures var later := Run(w, calls);
            user < |later.users| && later.users[user].revokedAfter.Some? &&
            w.users[user].revokedAfter.value <= later.users[user].revokedAfter.value
    decreases |calls|
  {
    if calls != [] {
      StepSane(w, calls[0]);
      StepMovesCutoffForward(w, calls[0], user);
      CutoffIsPermanent(Step(w, calls[0]).0, calls[1..], user);
    }
  }

  lemma CutOffTokenStaysRejected(w: World, calls: seq<Call>, jwt: Jwt)
    requires Sane(w) && Genuine(w, jwt)
    requires jwt.sub < |w.users| && IsTokenRevokedAfter(jwt.iat, w.users[jwt.sub].revokedAfter)
    ensures var later := Run(w, calls);
            !GetCurrentAuth(later, Bearer(jwt)).Ok? && !RefreshTokens(later, jwt).1.Tokens?
  {
    CutoffIsPermanent(w, calls, jwt.sub);
  }

  /** The pair handed out by a password login works iff the second it falls in starts after the
      cutoff: a login in the same second as a password reset yields tokens that are already cut off. */
  lemma FreshPairWorksIff(w: World, email: string, password: string, surface: Surface)
    requires Sane(w) && w.settings.accessMinutes >= 1 && w.settings.refreshDays >= 1
    requires Login(w, email, password, surface).1.Tokens?
    ensures var (w1, pair) := Login(w, email, password, surface);
            && pair.access.sub < |w.users|
            && (GetCurrentAuth(w1, Bearer(pair.access)).Ok? <==>
               !IsTokenRevokedAfter(FloorSecond(w.now), w.users[pair.access.sub].revokedAfter))
            && (RefreshTokens(w1, pair.refresh).1.Tokens? <==>
               !IsTokenRevokedAfter(FloorSecond(w.now), w.users[pair.access.sub].revokedAfter))
  {
  }

  /** After a reset and a wait, the tokens of the same user's login work iff a whole second has begun
      in between: right after the reset they never do. */
  lemma LoginAfterResetWorksIff(w: World, token: Id, newPassword: string, elapsed: nat, email: string, surface: Surface)
    requires Sane(w) && w.settings.accessMinutes >= 1 && w.settings.refreshDays >= 1
    requires ResetPassword(w, token, newPassword).1.Done?
    requires var w1 := Wait(ResetPassword(w, token, newPassword).0, elapsed);
             && Login(w1, email, newPassword, surface).1.Tokens?
             && GetKey(w.redis, PasswordReset(token), w.now) ==
                Some(UserRef(Login(w1, email, newPassword, surface).1.access.sub))
    ensures var w1 := Wait(ResetPassword(w, token, newPassword).0, elapsed);
            var (w2, pair) := Login(w1, email, newPassword, surface);
            && (GetCurrentAuth(w2, Bearer(pair.access)).Ok? <==> FloorSecond(w.now + elapsed) > w.now)
            && (elapsed == 0 ==> !GetCurrentAuth(w2, Bearer(pair.access)).Ok?)
            && (elapsed >= SECOND ==> GetCurrentAuth(w2, Bearer(pair.access)).Ok?)
  {
    var w0 := ResetPassword(w, token, newPassword).0;
    ResetSane(w, token, newPassword);
    StepSane(w0, Tick(elapsed));
    ResetSetsCutoff(w, token, newPassword);
    FreshPairWorksIff(Wait(w0, elapsed), email, newPassword, surface);
    CutoffIsTwoSided(w.now + elapsed, w.now);
  }

  lemma ResetSetsCutoff(w: World, token: Id, newPassword: string)
    requires ResetPassword(w, token, newPassword).1.Done?
    ensures var value := GetKey(w.redis, PasswordReset(token), w.now);
            var w1 := ResetPassword(w, token, newPassword).0;
            && value.Some? && value.value.UserRef? && value.value.user < |w1.users| && w1.now == w.now
            && w1.users[value.value.user].revokedAfter == Some(w.now)
  {
  }

  // ---- The clean-up job ----

  /** Every revocation and token record the services write has a TTL, so the job deletes nothing. */
  lemma CleanUpIsNoOp(w: World, calls: seq<Call>)
    requires Sane(w)
    ensures var later := Run(w, calls); CleanUp(later).0 == later
  {
    RunSane(w, calls);
    var later := Run(w, calls);
    assert forall key :: key in later.redis ==> EntrySane(later, key, later.redis[key]);
    assert CleanUp(later).0.redis == later.redis;
  }
}
