/** The string codecs of the values kept in Redis: `<user id>|<payload>`. */
module Keys {
  import opened Prelude

  const SEPARATOR := '|'

  function LowerChar(c: char): char {
    if 'A' <= c <= 'Z' then c - 'A' + 'a' else c
  }

  function Lower(s: string): (r: string)
    ensures |r| == |s|
    ensures forall i :: 0 <= i < |s| ==> r[i] == LowerChar(s[i])
  {
    seq(|s|, i requires 0 <= i < |s| => LowerChar(s[i]))
  }

  predicate IsLower(s: string) { Lower(s) == s }

  lemma LowerIsLower(s: string)
    ensures IsLower(Lower(s))
  {
  }

  /** `s.split("|", 1)`: what is before the first separator, and what is after it, if there is one. */
  function SplitOnce(s: string): (string, Option<string>) {
    if s == "" then ("", None)
    else if s[0] == SEPARATOR then ("", Some(s[1..]))
    else var (before, rest) := SplitOnce(s[1..]); ([s[0]] + before, rest)
  }

  lemma {:induction false} SplitJoined(id: string, payload: string)
    requires SEPARATOR !in id
    ensures SplitOnce(id + [SEPARATOR] + payload) == (id, Some(payload))
    ensures SplitOnce(id) == (id, None)
  {
    var joined := id + [SEPARATOR] + payload;
    if id == "" {
      assert joined[1..] == payload;
    } else {
      assert id[0] in id;
      assert joined[1..] == id[1..] + [SEPARATOR] + payload;
      SplitJoined(id[1..], payload);
      assert [id[0]] + id[1..] == id;
    }
  }

  function EncodeEmailVerify(user: string, target: Option<string>): string {
    if target.None? then user else user + [SEPARATOR] + Lower(target.value)
  }

  function DecodeEmailVerify(raw: string): (string, Option<string>) {
    var (user, target) := SplitOnce(raw);
    (user, if target.None? then None else Some(Lower(target.value)))
  }

  /** In ASCII, capital letters are 65 to 90 and their small forms 32 further on; nothing else changes. */
  lemma LowerIff(s: string, i: nat)
    requires i < |s|
    ensures |Lower(s)| == |s|
    ensures Lower(s)[i] as int == s[i] as int + if 65 <= s[i] as int <= 90 then 32 else 0
  {
  }

  /** The address may itself contain the separator; a user id does not. */
  lemma EmailVerifyRoundTrip(user: string, target: Option<string>)
    requires SEPARATOR !in user
    ensures DecodeEmailVerify(EncodeEmailVerify(user, target)) ==
            (user, if target.None? then None else Some(Lower(target.value)))
    ensures EncodeEmailVerify(user, target) == if target.None? then user else user + "|" + Lower(target.value)
    ensures target.Some? ==> DecodeEmailVerify(user + "|" + target.value) == (user, Some(Lower(target.value)))
  {
    match target
    case None => SplitJoined(user, "");
    case Some(t) =>
      SplitJoined(user, t);
      SplitJoined(user, Lower(t));
      LowerIsLower(t);
  }

  function EncodePartialLogin(user: string, issuedAt: string): string {
    user + [SEPARATOR] + issuedAt
  }

  /** Values without a separator carry no time. */
  function DecodePartialLogin(raw: string): (string, Option<string>) { SplitOnce(raw) }

  lemma PartialLoginRoundTrip(user: string, issuedAt: string)
    requires SEPARATOR !in user
    ensures DecodePartialLogin(EncodePartialLogin(user, issuedAt)) == (user, Some(issuedAt))
    ensures DecodePartialLogin(user) == (user, None)
    ensures EncodePartialLogin(user, issuedAt) == user + "|" + issuedAt
  {
    SplitJoined(user, issuedAt);
  }
}
