/** Keys minted with keys: their power only shrinks along the chain. */
module KeyAttenuation {
  import opened CredentialInvariants
  import opened CredentialTheorems
  import opened Credentials
  import opened Prelude
  import opened Scopes

  /** The scopes a credential carries: a key's stored set, nothing for a token. */
  ghost function CredentialScopes(w: World, id: Id): Option<set<string>>
    requires id in w.issued
  {
    if !w.issued[id].kind.KeyCredential? then None
    else
      match FindRow(w.keys, id, 0)
      case None => Some({})
      case Some(i) => Some(ScopeSet(w.keys[i].scopes))
  }

  /** The permissions that presenting the credential confers, given its owner's set. */
  ghost function Effective(w: World, id: Id, perms: set<string>): set<string>
    requires id in w.issued
  {
    EffectivePermissions(Auth(w.issued[id].owner, id, CredentialScopes(w, id)), perms)
  }

  lemma RowIsFound(w: World, i: nat)
    requires KeysSane(w) && i < |w.keys|
    ensures FindRow(w.keys, w.keys[i].id, 0) == Some(i)
  {
  }

  /** `Effective` is what `get_effective_permissions` computes for an authenticated request. */
  lemma EffectiveIsWhatRequestsGet(w: World, presented: Presented, perms: set<string>)
    requires Sane(w) && GetCurrentAuth(w, presented).Ok?
    ensures var auth := GetCurrentAuth(w, presented).value;
            auth.credential in w.issued && EffectivePermissions(auth, perms) == Effective(w, auth.credential, perms)
  {
  }

  /** Every key has a row and a parent, and at most the scopes of a parent that is a key. */
  ghost predicate Attenuated(w: World) {
    forall id :: id in w.issued ==>
      && (w.issued[id].kind.KeyCredential? ==>
            FindRow(w.keys, id, 0).Some? && w.issued[id].parent.Some? && NotWider(w, id, w.issued[id].parent.value))
      && (!w.issued[id].kind.KeyCredential? ==>
            w.issued[id].parent.Some? ==>
              w.issued[id].parent.value in w.issued && !w.issued[w.issued[id].parent.value].kind.KeyCredential?)
  }

  ghost predicate NotWider(w: World, id: Id, parent: Id) {
    id in w.issued && parent in w.issued &&
    (CredentialScopes(w, parent).Some? ==>
       CredentialScopes(w, id).Some? && CredentialScopes(w, id).value <= CredentialScopes(w, parent).value)
  }

  /** Rows keep their ids and scopes, and new rows come at the end. */
  ghost predicate KeysGrow(a: seq<ApiKey>, b: seq<ApiKey>) {
    |a| <= |b| && forall i :: 0 <= i < |a| ==> b[i].id == a[i].id && b[i].scopes == a[i].scopes
  }

  lemma ScopesAreStable(w: World, w1: World, id: Id)
    requires KeysSane(w) && KeysSane(w1) && KeysGrow(w.keys, w1.keys)
    requires id in w.issued && id in w1.issued && w1.issued[id] == w.issued[id]
    requires w.issued[id].kind.KeyCredential? ==> FindRow(w.keys, id, 0).Some?
    ensures CredentialScopes(w1, id) == CredentialScopes(w, id)
    ensures w.issued[id].kind.KeyCredential? ==> FindRow(w1.keys, id, 0) == FindRow(w.keys, id, 0)
  {
  }

  lemma GrowthKeepsAttenuation(w: World, w1: World, id: Id)
    requires Sane(w) && Sane(w1) && Attenuated(w) && KeysGrow(w.keys, w1.keys)
    requires forall k :: k in w.issued ==> k in w1.issued && w1.issued[k] == w.issued[k]
    requires id in w.issued && w.issued[id].kind.KeyCredential?
    ensures FindRow(w1.keys, id, 0).Some? && NotWider(w1, id, w.issued[id].parent.value)
  {
  }

  lemma StepKeepsKeys(w: World, call: Call)
    requires Sane(w)
    ensures KeysGrow(w.keys, Step(w, call).0.keys)
    ensures forall k :: k in w.issued ==> k in Step(w, call).0.issued && Step(w, call).0.issued[k] == w.issued[k]
  {
    forall k | k in w.issued ensures k in Step(w, call).0.issued && Step(w, call).0.issued[k] == w.issued[k] {
      StepKeepsIssued(w, call, k);
    }
    StepGrowsKeys(w, call);
  }

  lemma StepGrowsKeys(w: World, call: Call)
    ensures KeysGrow(w.keys, Step(w, call).0.keys)
  {
  }

  /** Calls other than key creation issue no key, and tokens never descend from keys. */
  lemma StepIssuesTokens(w: World, call: Call, id: Id)
    requires Sane(w) && !call.DoCreateKey?
    requires id in Step(w, call).0.issued && id !in w.issued
    ensures var cred := Step(w, call).0.issued[id];
            !cred.kind.KeyCredential? && (cred.parent.Some? ==>
              cred.parent.value in w.issued && !w.issued[cred.parent.value].kind.KeyCredential?)
  {
  }

  lemma CreateKeyKeepsAttenuation(w: World, presented: Presented, raw: string, scopes: seq<string>,
                                  expires: Option<nat>, perms: set<string>)
    requires Sane(w) && CreateKey(w, presented, raw, scopes, expires, perms).1.KeyCreated?
    requires forall id :: id in w.issued && w.issued[id].kind.KeyCredential? ==> FindRow(w.keys, id, 0).Some?
    ensures var w1 := CreateKey(w, presented, raw, scopes, expires, perms).0;
            FindRow(w1.keys, w.nextId, 0).Some? && w1.issued[w.nextId].parent.Some? &&
              NotWider(w1, w.nextId, w1.issued[w.nextId].parent.value)
  {
    var w1 := CreateKey(w, presented, raw, scopes, expires, perms).0;
    CreateKeySane(w, presented, raw, scopes, expires, perms);
    var auth := GetCurrentAuth(w, presented).value;
    AuthIsAccepted(w, presented);
    EffectiveIsWhatRequestsGet(w, presented, perms);
    RowIsFound(w1, |w.keys|);
    ScopesAreStable(w, w1, auth.credential);
    ScopesRoundTrip(scopes);
  }

  lemma StepKeepsAttenuated(w: World, call: Call)
    requires Sane(w) && Attenuated(w)
    ensures Attenuated(Step(w, call).0)
  {
    var w1 := Step(w, call).0;
    StepSane(w, call);
    StepKeepsKeys(w, call);
    forall id | id in w1.issued
      ensures (w1.issued[id].kind.KeyCredential? ==>
                 FindRow(w1.keys, id, 0).Some? && w1.issued[id].parent.Some? &&
                   NotWider(w1, id, w1.issued[id].parent.value))
      ensures (!w1.issued[id].kind.KeyCredential? ==>
                 w1.issued[id].parent.Some? ==>
                   w1.issued[id].parent.value in w1.issued &&
                   !w1.issued[w1.issued[id].parent.value].kind.KeyCredential?)
    {
      if id in w.issued {
        if w.issued[id].kind.KeyCredential? { GrowthKeepsAttenuation(w, w1, id); }
      } else if call.DoCreateKey? {
        CreateKeyKeepsAttenuation(w, call.presented, call.raw, call.scopes, call.expires, call.perms);
      } else {
        StepIssuesTokens(w, call, id);
      }
    }
  }

  lemma {:induction false} RunKeepsAttenuated(w: World, calls: seq<Call>)
    requires Sane(w) && Attenuated(w)
    ensures Sane(Run(w, calls)) && Attenuated(Run(w, calls))
    decreases |calls|
  {
    if calls != [] {
      StepSane(w, calls[0]);
      StepKeepsAttenuated(w, calls[0]);
      RunKeepsAttenuated(Step(w, calls[0]).0, calls[1..]);
    }
  }

  lemma ReachableIsAttenuated(now: nat, settings: Settings, calls: seq<Call>)
    ensures Attenuated(Run(EmptyWorld(now, settings), calls))
  {
    RunKeepsAttenuated(EmptyWorld(now, settings), calls);
  }

  lemma {:induction false} DescendantIsNarrower(w: World, id: Id, ancestor: Id, perms: set<string>)
    requires Sane(w) && Attenuated(w) && ancestor in w.issued && Derives(w, id, ancestor)
    ensures Effective(w, id, perms) <= Effective(w, ancestor, perms) <= perms
    decreases id
  {
    if id != ancestor {
      var parent := w.issued[id].parent.value;
      DescendantIsNarrower(w, parent, ancestor, perms);
      if w.issued[id].kind.KeyCredential? { assert NotWider(w, id, parent); }
    }
  }

  /** Attenuation along chains: after any run, at whatever permissions the owner then has, a
      credential confers no more than any credential it derives from, and no more than the owner has. */
  lemma ChainsOnlyAttenuate(w: World, calls: seq<Call>, id: Id, ancestor: Id, perms: set<string>)
    requires Sane(w) && Attenuated(w)
    requires ancestor in Run(w, calls).issued && Derives(Run(w, calls), id, ancestor)
    ensures Effective(Run(w, calls), id, perms) <= Effective(Run(w, calls), ancestor, perms) <= perms
  {
    RunKeepsAttenuated(w, calls);
    DescendantIsNarrower(Run(w, calls), id, ancestor, perms);
  }

  /** A key minted with another carries exactly the requested scopes, all of them effective for the
      credential that was presented. */
  lemma MintedKeyHasRequestedScopes(w: World, presented: Presented, raw: string, scopes: seq<string>,
                                    expires: Option<nat>, perms: set<string>)
    requires Sane(w) && CreateKey(w, presented, raw, scopes, expires, perms).1.KeyCreated?
    ensures var (w1, reply) := CreateKey(w, presented, raw, scopes, expires, perms);
            && reply.id in w1.issued
            && CredentialScopes(w1, reply.id) == Some(set s | s in scopes)
            && (set s | s in scopes) <= EffectivePermissions(GetCurrentAuth(w, presented).value, perms)
  {
    CreateKeySane(w, presented, raw, scopes, expires, perms);
    var w1 := CreateKey(w, presented, raw, scopes, expires, perms).0;
    RowIsFound(w1, |w.keys|);
    ScopesRoundTrip(scopes);
  }
}
