/** Storage keys and public object URLs. Strings are sequences of bytes (their UTF-8 form), written
    as characters below 256. */
module StorageUrl {
  import opened Prelude

  // ---- Percent-encoding (section 2.1 of RFC 3986) ----

  predicate IsByte(c: char) { c < 256 as char }

  predicate IsBytes(s: string) { forall c :: c in s ==> IsByte(c) }

  /** What `quote(s, safe="/")` leaves alone. */
  predicate IsSafe(c: char) {
    'a' <= c <= 'z' || 'A' <= c <= 'Z' || '0' <= c <= '9' || c == '_' || c == '.' || c == '-' || c == '~' || c == '/'
  }

  const HEX: string := "0123456789ABCDEF"

  function HexValue(c: char): (r: Option<nat>)
    ensures forall v: nat ::
              r == Some(v) <==> (v < 10 && c as int == 48 + v) || (10 <= v < 16 && c as int in {55 + v, 87 + v})
  {
    if '0' <= c <= '9' then Some((c - '0') as nat)
    else if 'A' <= c <= 'F' then Some((c - 'A') as nat + 10)
    else if 'a' <= c <= 'f' then Some((c - 'a') as nat + 10)
    else None
  }

  function QuoteChar(c: char): string
    requires IsByte(c)
  {
    if IsSafe(c) then [c] else ['%', HEX[c as nat / 16], HEX[c as nat % 16]]
  }

  /** In ASCII, digits, capitals, small letters and -./_~ stand for themselves; any other byte is an
      escape with two capital hexadecimal digits. */
  lemma QuoteCharIs(c: char)
    requires IsByte(c)
    ensures c as int < 256
    ensures QuoteChar(c) ==
            if 48 <= c as int <= 57 || 65 <= c as int <= 90 || 97 <= c as int <= 122 || c in "-./_~" then [c]
            else ['%', "0123456789ABCDEF"[c as int / 16], "0123456789ABCDEF"[c as int % 16]]
  {
  }

  function Quote(s: string): string
    requires IsBytes(s)
  {
    if s == "" then "" else QuoteChar(s[0]) + Quote(s[1..])
  }

  /** The character that an escape at the start of `s` stands for. */
  function Escape(s: string): Option<char> {
    if |s| >= 3 && s[0] == '%' && HexValue(s[1]).Some? && HexValue(s[2]).Some? then
      Some((HexValue(s[1]).value * 16 + HexValue(s[2]).value) as char)
    else None
  }

  /** An incomplete escape stands for itself. */
  function Unquote(s: string): string
    decreases |s|
  {
    if s == "" then ""
    else match Escape(s)
      case Some(c) => [c] + Unquote(s[3..])
      case None => [s[0]] + Unquote(s[1..])
  }

  lemma HexDigits(n: nat)
    requires n < 16
    ensures HexValue(HEX[n]) == Some(n)
  {
  }

  lemma EscapeOfQuoted(c: char, tail: string)
    requires IsByte(c) && !IsSafe(c)
    ensures Escape(QuoteChar(c) + tail) == Some(c)
  {
    var (hi, lo) := (c as nat / 16, c as nat % 16);
    HexDigits(hi);
    HexDigits(lo);
    assert hi * 16 + lo == c as nat;
    var all := QuoteChar(c) + tail;
    assert all[0] == '%' && all[1] == HEX[hi] && all[2] == HEX[lo];
  }

  lemma UnquoteQuotedChar(c: char, tail: string)
    requires IsByte(c)
    ensures Unquote(QuoteChar(c) + tail) == [c] + Unquote(tail)
  {
    var all := QuoteChar(c) + tail;
    if IsSafe(c) {
      assert all[0] == c && all[1..] == tail;
    } else {
      EscapeOfQuoted(c, tail);
      assert all[3..] == tail;
    }
  }

  lemma QuoteStep(s: string, rest: string)
    requires IsBytes(s) && s != ""
    ensures Quote(s) + rest == QuoteChar(s[0]) + (Quote(s[1..]) + rest)
  {
    Associate(QuoteChar(s[0]), Quote(s[1..]), rest);
  }

  lemma Associate(a: string, b: string, c: string)
    ensures (a + b) + c == a + (b + c)
  {
  }

  lemma Regroup(s: string, rest: string)
    requires s != ""
    ensures [s[0]] + (s[1..] + rest) == s + rest
  {
  }

  /** Decoding undoes encoding, whatever comes after. */
  lemma {:induction false} UnquoteQuote(s: string, rest: string)
    requires IsBytes(s)
    ensures Unquote(Quote(s) + rest) == s + Unquote(rest)
    decreases |s|
  {
    if s == "" {
      assert Quote(s) + rest == rest;
    } else {
      QuoteStep(s, rest);
      UnquoteQuotedChar(s[0], Quote(s[1..]) + rest);
      UnquoteQuote(s[1..], rest);
      Regroup(s, Unquote(rest));
    }
  }

  /** An escape never spans a slash. */
  lemma EscapeStopsAtSlash(s: string, rest: string)
    requires s != ""
    ensures Escape(s + "/" + rest) == Escape(s)
  {
  }

  lemma {:induction false} UnquoteAtSlash(s: string, rest: string)
    ensures Unquote(s + "/" + rest) == Unquote(s) + "/" + Unquote(rest)
    decreases |s|
  {
    var all := s + "/" + rest;
    if s == "" {
      assert all[0] == '/' && all[1..] == rest;
    } else {
      EscapeStopsAtSlash(s, rest);
      var n := if Escape(s).Some? then 3 else 1;
      assert all[n..] == s[n..] + "/" + rest;
      UnquoteAtSlash(s[n..], rest);
      var c := if Escape(s).Some? then Escape(s).value else s[0];
      assert [c] + (Unquote(s[n..]) + "/" + Unquote(rest)) == ([c] + Unquote(s[n..])) + "/" + Unquote(rest);
    }
  }

  // ---- Strings ----

  function LStrip(s: string): (r: string)
    ensures r != "" ==> r[0] != '/'
    ensures forall c :: c in r ==> c in s
  {
    if s != "" && s[0] == '/' then LStrip(s[1..]) else s
  }

  function RStrip(s: string): (r: string)
    ensures r != "" ==> r[|r| - 1] != '/'
    ensures |r| <= |s| && r == s[..|r|]
  {
    if s != "" && s[|s| - 1] == '/' then RStrip(s[..|s| - 1]) else s
  }

  predicate OccursAt(s: string, p: string, i: nat) {
    i + |p| <= |s| && s[i..i + |p|] == p
  }

  predicate Contains(s: string, p: string) {
    exists i :: 0 <= i <= |s| && OccursAt(s, p, i)
  }

  /** `s.find(p)`: the first occurrence. */
  function Find(s: string, p: string, from: nat): (r: Option<nat>)
    requires from <= |s|
    ensures r.Some? ==> from <= r.value && OccursAt(s, p, r.value)
    ensures forall i :: from <= i && (r.Some? ==> i < r.value) ==> !OccursAt(s, p, i)
    decreases |s| - from
  {
    if OccursAt(s, p, from) then Some(from)
    else if from == |s| then None
    else Find(s, p, from + 1)
  }

  function LastSlash(s: string): (r: Option<nat>)
    ensures r.Some? ==> r.value < |s| && s[r.value] == '/'
    ensures forall i :: 0 <= i < |s| && (r.Some? ==> i > r.value) ==> s[i] != '/'
  {
    if s == "" then None
    else if s[|s| - 1] == '/' then Some(|s| - 1)
    else LastSlash(s[..|s| - 1])
  }

  /** `urlparse` takes the parameters (from the first semicolon on) off the last path segment. */
  function DropParams(path: string): string {
    var from := if LastSlash(path).Some? then LastSlash(path).value else 0;
    match Find(path, ";", from)
    case None => path
    case Some(i) => path[..i]
  }

  // ---- The two functions ----

  /** The parsed public base URL, and the bucket's name. */
  datatype Config = Config(scheme: string, netloc: string, path: string, bucket: string)

  /** An avatar column: a bare text, or a URL in parsed form. */
  datatype Avatar = Bare(text: string) | Web(scheme: string, netloc: string, path: string)

  function ManagedPrefix(userId: string): string { "users/" + userId + "/" }

  function BucketOf(config: Config): string { LStrip(RStrip(config.bucket)) }

  /** `_build_public_object_url`: nothing without a scheme and a host. */
  function BuildPublicObjectUrl(config: Config, key: string): Option<Avatar>
    requires IsBytes(config.bucket) && IsBytes(key)
  {
    if config.scheme == "" || config.netloc == "" then None
    else Some(Web(config.scheme, config.netloc, RStrip(config.path) + "/" + Quote(BucketOf(config)) + "/" +
      Quote(LStrip(key))))
  }

  function BaseToStrip(config: Config): string { LStrip(RStrip(DropParams(config.path))) }

  /** The decoded path without the configured base path. */
  function WithoutBase(base: string, path: string): string {
    if base != "" && base + "/" <= path then path[|base| + 1..]
    else if path == base then ""
    else path
  }

  /** From the first occurrence of the prefix on; without one, behind the bucket's name. */
  function Locate(bucket: string, path: string, prefix: string): Option<string> {
    var located := match Find(path, prefix, 0)
      case Some(i) => path[i..]
      case None => if bucket + "/" <= path then path[|bucket| + 1..] else path;
    if prefix <= located then Some(located) else None
  }

  /** `_extract_managed_storage_key`. */
  function ExtractManagedStorageKey(config: Config, avatar: Option<Avatar>, userId: string): Option<string> {
    var prefix := ManagedPrefix(userId);
    if avatar.None? || avatar == Some(Bare("")) then None
    else if avatar.value.Bare? && prefix <= avatar.value.text then Some(avatar.value.text)
    else
      var urlPath := DropParams(if avatar.value.Bare? then avatar.value.text else avatar.value.path);
      if urlPath == "" then None
      else
        Locate(config.bucket, WithoutBase(BaseToStrip(config), LStrip(Unquote(urlPath))), prefix)
  }
}
