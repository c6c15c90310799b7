/** A storage key is recovered from the public URL that was built for it. */
module StorageUrlTheorems {
  import opened Prelude
  import opened StorageUrl

  // ---- Stripping ----

  lemma {:induction false} LStripConcat(a: string, b: string)
    requires b != "" && b[0] != '/'
    ensures LStrip(a + b) == LStrip(a) + b
  {
    if a == "" {
      assert a + b == b;
    } else if a[0] == '/' {
      assert (a + b)[1..] == a[1..] + b;
      LStripConcat(a[1..], b);
    }
  }

  lemma {:induction false} LStripPrefix(a: string, b: string)
    requires a <= b && LStrip(a) != ""
    ensures LStrip(a) <= LStrip(b)
  {
    if a[0] == '/' {
      assert b[0] == '/' && a[1..] <= b[1..];
      LStripPrefix(a[1..], b[1..]);
    }
  }

  /** Right-stripping keeps everything up to a character that is not a slash. */
  lemma {:induction false} RStripKeeps(s: string, m: nat)
    requires 0 < m <= |s| && s[m - 1] != '/'
    ensures m <= |RStrip(s)|
  {
    if s[|s| - 1] == '/' { RStripKeeps(s[..|s| - 1], m); }
  }

  /** The base path the extraction strips is a prefix of the one the URL was built with. */
  lemma StrippedBaseIsPrefix(config: Config)
    requires BaseToStrip(config) != ""
    ensures BaseToStrip(config) <= LStrip(RStrip(config.path))
  {
    var d := RStrip(DropParams(config.path));
    assert d <= config.path;
    RStripKeeps(config.path, |d|);
    assert d <= RStrip(config.path);
    LStripPrefix(d, RStrip(config.path));
  }

  // ---- What precedes the key in the decoded path ----

  /** The decoded path in front of the key, without its leading slashes. */
  function Lead(config: Config): string {
    LStrip(Unquote(RStrip(config.path)) + ("/" + (BucketOf(config) + "/")))
  }

  /** What the base-path stripping leaves of it. */
  function LeftOver(config: Config): string {
    Behind(BaseToStrip(config), Lead(config))
  }

  function Behind(base: string, lead: string): string {
    if base != "" && base + "/" <= lead then lead[|base| + 1..] else lead
  }

  lemma {:induction false} UnquoteSlashes(s: string)
    ensures LStrip(Unquote(s)) == LStrip(Unquote(LStrip(s)))
  {
    if s != "" && s[0] == '/' {
      assert Escape(s) == None;
      assert Unquote(s)[1..] == Unquote(s[1..]);
      UnquoteSlashes(s[1..]);
    }
  }

  lemma {:induction false} LStripFront(a: string, b: string)
    requires LStrip(a) != ""
    ensures LStrip(a + b) == LStrip(a) + b
  {
    assert (a + b)[0] == a[0];
    if a[0] == '/' {
      assert (a + b)[1..] == a[1..] + b;
      LStripFront(a[1..], b);
    }
  }

  // ---- The base path never reaches into the key ----

  /** The length of the leading part that decodes to slashes: slashes, plain and encoded. */
  function SlashFront(s: string): (n: nat)
    ensures n <= |s|
    decreases |s|
  {
    if s == "" then 0
    else if s[0] == '/' then 1 + SlashFront(s[1..])
    else if Escape(s) == Some('/') then 3 + SlashFront(s[3..])
    else 0
  }

  lemma EncodedSlashHasNoU(s: string)
    requires Escape(s) == Some('/')
    ensures 'u' !in s[..3] && |Unquote(s)| > 0 && Unquote(s)[0] == '/' && Unquote(s)[1..] == Unquote(s[3..])
  {
  }

  lemma {:induction false} SlashFrontHasNoU(s: string)
    ensures 'u' !in s[..SlashFront(s)]
    decreases |s|
  {
    if s != "" && s[0] == '/' {
      SlashFrontHasNoU(s[1..]);
      assert s[..SlashFront(s)] == ['/'] + s[1..][..SlashFront(s[1..])];
    } else if s != "" && Escape(s) == Some('/') {
      EncodedSlashHasNoU(s);
      SlashFrontHasNoU(s[3..]);
      assert s[..SlashFront(s)] == s[..3] + s[3..][..SlashFront(s[3..])];
    }
  }

  /** Without its leading slashes a decoded text is what the part behind the slashes decodes to. */
  lemma {:induction false} DecodedBehindFront(s: string)
    ensures var rest := s[SlashFront(s)..];
            LStrip(Unquote(s)) == Unquote(rest) && (rest != "" ==> Unquote(rest) != "")
    decreases |s|
  {
    if s != "" && s[0] == '/' {
      DecodedBehindFront(s[1..]);
      PlainSlash(s);
      assert s[SlashFront(s)..] == s[1..][SlashFront(s[1..])..];
    } else if s != "" && Escape(s) == Some('/') {
      DecodedBehindFront(s[3..]);
      EncodedSlash(s);
      assert s[SlashFront(s)..] == s[3..][SlashFront(s[3..])..];
    } else {
      NoSlash(s);
      assert s[0..] == s;
    }
  }

  lemma PlainSlash(s: string)
    requires s != "" && s[0] == '/'
    ensures LStrip(Unquote(s)) == LStrip(Unquote(s[1..]))
  {
    assert Unquote(s)[1..] == Unquote(s[1..]);
  }

  lemma EncodedSlash(s: string)
    requires Escape(s) == Some('/')
    ensures LStrip(Unquote(s)) == LStrip(Unquote(s[3..]))
  {
    EncodedSlashHasNoU(s);
  }

  lemma NoSlash(s: string)
    requires s != "" ==> s[0] != '/' && Escape(s) != Some('/')
    ensures LStrip(Unquote(s)) == Unquote(s) && (s != "" ==> Unquote(s) != "")
  {
  }

  /** Descent: if `front` and a text are that text decoded and then something in "/u", the same holds
      of a shorter text, until `front` itself has to hold the 'u'. */
  lemma {:induction false} DescentEndsInFront(front: string, q: string, tail: string)
    requires front + q == Unquote(q) + tail && "/u" <= tail
    ensures 'u' in front
    decreases |q|
  {
    if |q| >= |tail| {
      var (shorter, decoded) := (q[..|q| - |tail|], "/" + Unquote(tail[1..]));
      TailIsSuffix(front, q, Unquote(q), tail);
      DecodedTail(shorter, tail);
      CancelTail(front, shorter, Unquote(shorter) + decoded, tail);
      DescentEndsInFront(front, shorter, decoded);
    } else {
      TailReachesFront(front, q, tail);
    }
  }

  lemma TailIsSuffix(front: string, q: string, x: string, tail: string)
    requires front + q == x + tail && |q| >= |tail|
    ensures q == q[..|q| - |tail|] + tail
  {
    var all := front + q;
    assert q[|q| - |tail|..] == all[|all| - |tail|..];
    assert (x + tail)[|x|..] == tail;
  }

  lemma CancelTail(front: string, shorter: string, x: string, tail: string)
    requires front + (shorter + tail) == x + tail
    ensures front + shorter == x
  {
    assert front + (shorter + tail) == (front + shorter) + tail;
    assert ((front + shorter) + tail)[..|front + shorter|] == front + shorter;
    assert (x + tail)[..|x|] == x;
  }

  lemma DecodedTail(s: string, tail: string)
    requires "/u" <= tail
    ensures "/u" <= "/" + Unquote(tail[1..])
    ensures Unquote(s + tail) == Unquote(s) + ("/" + Unquote(tail[1..]))
  {
    assert tail[0] == '/' && tail[1] == 'u';
    assert s + tail == s + "/" + tail[1..];
    UnquoteAtSlash(s, tail[1..]);
    assert Unquote(s) + "/" + Unquote(tail[1..]) == Unquote(s) + ("/" + Unquote(tail[1..]));
    DecodedU(tail[1..]);
  }

  lemma DecodedU(s: string)
    requires s != "" && s[0] == 'u'
    ensures Unquote(s) != "" && Unquote(s)[0] == 'u'
  {
  }

  lemma TailReachesFront(front: string, q: string, tail: string)
    requires front + q == Unquote(q) + tail && "/u" <= tail && |q| < |tail|
    ensures 'u' in front
  {
    var (all, at) := (front + q, |Unquote(q)|);
    assert tail[1] == 'u' && all[at + 1] == (Unquote(q) + tail)[at + 1] == 'u';
    if at + 1 < |front| {
      assert front[at + 1] == 'u';
    } else {
      assert |front| == at + 1 && q[0] == 'u';
      DecodedU(q);
      assert front[0] == all[0] == (Unquote(q) + tail)[0] == 'u';
    }
  }

  lemma InPrefix(s: string, n: nat, i: nat)
    requires i < n <= |s|
    ensures s[i] in s[..n]
  {
  }

  /** If a text begins with what it decodes to, up to `lead`, followed by a 'u', its slashes in front
      hold a 'u'. */
  lemma LeadPrefixNeedsU(r: string, n: nat, bucket: string, lead: string)
    requires n <= |r| && r[n..] != "" && Unquote(r[n..]) != ""
    requires lead == Unquote(r[n..]) + "/" + bucket + "/" && lead + "u" <= r
    ensures 'u' in r[..n]
  {
    CharBehind(r, lead);
    if |lead| < n {
      InPrefix(r, n, |lead|);
    } else if |lead| == n {
      DecodedU(r[n..]);
      FirstChar(r, Unquote(r[n..]), "/" + bucket + "/");
      Associate(Unquote(r[n..]), "/" + bucket, "/");
      Associate(Unquote(r[n..]), "/", bucket);
      InPrefix(r, n, 0);
    } else {
      assert r == r[..n] + r[n..];
      var q, tail := LeadSplits(r[..n], r[n..], bucket, lead);
      DescentEndsInFront(r[..n], q, tail);
    }
  }

  lemma CharBehind(r: string, lead: string)
    requires lead + "u" <= r
    ensures |lead| < |r| && r[|lead|] == 'u'
  {
    assert (lead + "u")[|lead|] == 'u';
  }

  lemma FirstChar(r: string, x: string, y: string)
    requires x != "" && x + y + "u" <= r
    ensures r[0] == x[0]
  {
    assert (x + y + "u")[0] == x[0];
  }

  lemma LeadSplits(front: string, rest: string, bucket: string, lead: string) returns (q: string, tail: string)
    requires |lead| > |front| && lead == Unquote(rest) + "/" + bucket + "/" && lead + "u" <= front + rest
    ensures front + q == Unquote(q) + tail && "/u" <= tail
  {
    var k := |lead| - |front|;
    var t := rest[k..];
    q, tail := rest[..k - 1], "/" + Unquote(t) + "/" + bucket;
    SplitsBeforeU(front, rest, lead);
    UnquoteAtSlash(q, t);
    DecodedU(t);
    assert (front + q) + "/" == (Unquote(q) + tail) + "/";
    assert ((front + q) + "/")[..|front + q|] == front + q;
  }

  lemma SplitsBeforeU(front: string, rest: string, lead: string)
    requires |lead| > |front| && lead[|lead| - 1] == '/' && lead + "u" <= front + rest
    ensures var k := |lead| - |front|;
            rest == rest[..k - 1] + "/" + rest[k..] && rest[k..] != "" && rest[k..][0] == 'u' &&
              front + rest[..k - 1] + "/" == lead
  {
    var (all, n) := (front + rest, |lead|);
    assert all[n - 1] == (lead + "u")[n - 1] == '/' && all[n] == (lead + "u")[n] == 'u';
    assert all[..n] == (lead + "u")[..n] == lead;
  }

  /** The base path does not go on behind `Lead` with the first letter of a managed key. */
  lemma BaseStopsBeforeKey(config: Config)
    ensures !(Lead(config) + "u" <= BaseToStrip(config))
  {
    if Lead(config) + "u" <= BaseToStrip(config) {
      var raw := RStrip(config.path);
      StrippedBaseIsPrefix(config);
      LongLeadNeedsU(raw, BucketOf(config), Lead(config));
      SlashFrontHasNoU(LStrip(raw));
    }
  }

  lemma LongLeadNeedsU(raw: string, bucket: string, lead: string)
    requires lead == LStrip(Unquote(raw) + ("/" + (bucket + "/"))) && lead + "u" <= LStrip(raw)
    ensures 'u' in LStrip(raw)[..SlashFront(LStrip(raw))]
  {
    var r := LStrip(raw);
    var n := SlashFront(r);
    if n == |r| {
      CharBehind(r, lead);
      InPrefix(r, n, |lead|);
    } else {
      DecodedBehindFront(r);
      LeadIsDecoded(raw, bucket, Unquote(r[n..]));
      LeadPrefixNeedsU(r, n, bucket, lead);
    }
  }

  lemma LeadIsDecoded(raw: string, bucket: string, decoded: string)
    requires decoded == LStrip(Unquote(LStrip(raw))) && decoded != ""
    ensures LStrip(Unquote(raw) + ("/" + (bucket + "/"))) == decoded + "/" + bucket + "/"
  {
    UnquoteSlashes(raw);
    LStripFront(Unquote(raw), "/" + (bucket + "/"));
    FourParts(decoded, bucket, "/");
  }

  lemma JoinedPrefix(base: string, lead: string, key: string)
    requires key != "" && key[0] == 'u' && |base| > |lead| && base <= lead + key
    ensures lead + "u" <= base
  {
  }

  lemma ShortPrefix(base: string, lead: string, key: string)
    requires key != "" && key[0] == 'u' && |base| <= |lead|
    ensures base + "/" <= lead + key <==> base + "/" <= lead
    ensures base + "/" <= lead ==> (lead + key)[|base| + 1..] == lead[|base| + 1..] + key
  {
    if base + "/" <= lead + key {
      assert (lead + key)[|base|] == (base + "/")[|base|] == '/';
      assert |base| < |lead|;
      assert lead[..|base| + 1] == (lead + key)[..|base| + 1];
    }
  }

  lemma StripsOnlyFront(base: string, lead: string, key: string)
    requires key != "" && key[0] == 'u' && !(lead + "u" <= base)
    ensures WithoutBase(base, lead + key) == Behind(base, lead) + key
  {
    if |base| <= |lead| {
      ShortPrefix(base, lead, key);
    } else if base <= lead + key {
      JoinedPrefix(base, lead, key);
    }
  }

  /** The base path, however it is encoded, is stripped from what precedes the key, never from the
      key itself. */
  lemma BaseStaysInFront(config: Config, key: string)
    requires key != "" && key[0] == 'u'
    ensures WithoutBase(BaseToStrip(config), Lead(config) + key) == LeftOver(config) + key
  {
    BaseStopsBeforeKey(config);
    StripsOnlyFront(BaseToStrip(config), Lead(config), key);
  }

  // ---- The URL's path decodes to it ----

  lemma {:induction false} QuoteHasNoSemicolon(s: string)
    requires IsBytes(s)
    ensures ';' !in Quote(s)
  {
    if s != "" {
      QuoteHasNoSemicolon(s[1..]);
      var c := s[0];
      assert c in s && IsByte(c);
      if !IsSafe(c) {
        HexIsNoSemicolon(c as nat / 16);
        HexIsNoSemicolon(c as nat % 16);
      }
    }
  }

  lemma HexIsNoSemicolon(n: nat)
    requires n < 16
    ensures HEX[n] != ';'
  {
  }

  lemma {:induction false} LastSlashIsLast(path: string, i: nat)
    requires i < |path| && path[i] == '/'
    ensures LastSlash(path).Some? && LastSlash(path).value >= i
  {
    if path[|path| - 1] != '/' { LastSlashIsLast(path[..|path| - 1], i); }
  }

  lemma NoParams(front: string, last: string)
    requires ';' !in last
    ensures DropParams(front + "/" + last) == front + "/" + last
  {
    var path := front + "/" + last;
    assert path[|front|] == '/';
    LastSlashIsLast(path, |front|);
    var slash := LastSlash(path).value;
    forall i: nat | slash <= i ensures !OccursAt(path, ";", i) {
      assert i < |path| ==> path[i..i + 1] == [path[i]];
      assert |front| < i < |path| ==> path[i] == last[i - |front| - 1] && path[i] in last;
    }
  }

  lemma UnquoteUrlPath(base: string, bucket: string, key: string)
    requires IsBytes(bucket) && IsBytes(key)
    ensures Unquote(base + "/" + Quote(bucket) + "/" + Quote(key)) == Unquote(base) + "/" + bucket + "/" + key
  {
    var (q, k) := (Quote(bucket), Quote(key));
    FourParts(base, q, "/" + k);
    Associate(base + "/" + q, "/", k);
    UnquoteAtSlash(base, q + ("/" + k));
    UnquoteQuote(bucket, "/" + k);
    UnquoteSlashKey(key);
    FourParts(Unquote(base), bucket, "/" + key);
    Associate(Unquote(base) + "/" + bucket, "/", key);
  }

  lemma FourParts(a: string, b: string, c: string)
    ensures a + "/" + b + c == a + "/" + (b + c)
  {
  }

  lemma UnquoteSlashKey(key: string)
    requires IsBytes(key)
    ensures Unquote("/" + Quote(key)) == "/" + key
  {
    var k := Quote(key);
    UnquoteQuote(key, "");
    assert k + "" == k && key + "" == key;
    UnquoteAtSlash("", k);
    assert "" + "/" + k == "/" + k && "" + "/" + key == "/" + key;
  }

  lemma DecodedPath(raw: string, bucket: string, key: string)
    requires IsBytes(bucket) && IsBytes(key)
    requires key != "" && key[0] != '/'
    ensures LStrip(Unquote(raw + "/" + Quote(bucket) + "/" + Quote(key))) ==
            LStrip(Unquote(raw) + ("/" + (bucket + "/"))) + key
  {
    UnquoteUrlPath(raw, bucket, key);
    SplitAtKey(Unquote(raw), bucket, key);
  }

  lemma SplitAtKey(x: string, bucket: string, key: string)
    requires key != "" && key[0] != '/'
    ensures LStrip(x + "/" + bucket + "/" + key) == LStrip(x + ("/" + (bucket + "/"))) + key
  {
    assert x + "/" + bucket + "/" + key == x + ("/" + (bucket + "/")) + key;
    LStripConcat(x + ("/" + (bucket + "/")), key);
  }

  // ---- The first match is the key's own start ----

  /** The text of a UUID has no 'u' in it, so neither has the prefix after its first letter. */
  predicate IsUuidText(s: string) {
    forall i :: 0 <= i < |s| ==> '0' <= s[i] <= '9' || 'a' <= s[i] <= 'f' || s[i] == '-'
  }

  lemma PrefixHasNoBorder(userId: string, j: nat)
    requires IsUuidText(userId) && 0 < j < |ManagedPrefix(userId)|
    ensures ManagedPrefix(userId)[j] != 'u'
  {
  }

  /** An occurrence that starts in front of the key ends there too. */
  lemma NoStraddling(front: string, key: string, userId: string, i: nat)
    requires IsUuidText(userId) && ManagedPrefix(userId) <= key
    requires i < |front| && OccursAt(front + key, ManagedPrefix(userId), i)
    ensures OccursAt(front, ManagedPrefix(userId), i)
  {
    var p := ManagedPrefix(userId);
    if i + |p| > |front| {
      var j := |front| - i;
      assert (front + key)[i..i + |p|][j] == (front + key)[|front|] == key[0];
      assert p[0] == 'u' && key[0] == p[0];
      PrefixHasNoBorder(userId, j);
      assert false;
    }
    assert front[i..i + |p|] == (front + key)[i..i + |p|];
  }

  lemma FirstMatch(front: string, key: string, userId: string)
    requires IsUuidText(userId) && ManagedPrefix(userId) <= key
    ensures var found := Find(front + key, ManagedPrefix(userId), 0);
            found.Some? && found.value <= |front| &&
              (found.value == |front| <==> !Contains(front, ManagedPrefix(userId)))
  {
    var p := ManagedPrefix(userId);
    assert (front + key)[|front|..|front| + |p|] == p;
    assert OccursAt(front + key, p, |front|);
    var i := Find(front + key, p, 0).value;
    if i < |front| { NoStraddling(front, key, userId, i); }
    if Contains(front, p) {
      var j :| 0 <= j <= |front| && OccursAt(front, p, j);
      assert (front + key)[j..j + |p|] == front[j..j + |p|];
      assert OccursAt(front + key, p, j);
    }
  }

  // ---- Round trip ----

  lemma LocateFinds(bucket: string, path: string, prefix: string)
    requires Find(path, prefix, 0).Some?
    ensures Locate(bucket, path, prefix) == Some(path[Find(path, prefix, 0).value..])
  {
  }

  /** The extraction on a URL, told from the decoded path. */
  lemma ExtractionFromPath(config: Config, url: Avatar, userId: string, path: string)
    requires url.Web? && url.path != "" && DropParams(url.path) == url.path
    requires path == LStrip(Unquote(url.path))
    ensures ExtractManagedStorageKey(config, Some(url), userId) ==
            Locate(config.bucket, WithoutBase(BaseToStrip(config), path), ManagedPrefix(userId))
  {
  }

  lemma BuiltPath(raw: string, bucket: string, key: string)
    requires IsBytes(bucket) && IsBytes(key)
    ensures var path := raw + "/" + Quote(bucket) + "/" + Quote(key);
            path != "" && DropParams(path) == path
  {
    QuoteHasNoSemicolon(key);
    NoParams(raw + "/" + Quote(bucket), Quote(key));
  }

  lemma BuiltUrl(config: Config, key: string)
    requires IsBytes(config.bucket) && IsBytes(key) && key != "" && key[0] != '/'
    requires config.scheme != "" && config.netloc != ""
    ensures BuildPublicObjectUrl(config, key) ==
            Some(Web(config.scheme, config.netloc, RStrip(config.path) + "/" + Quote(BucketOf(config)) + "/" +
              Quote(key)))
  {
  }

  lemma BuiltPathDecodes(config: Config, key: string, path: string)
    requires IsBytes(config.bucket) && IsBytes(key) && key != "" && key[0] != '/'
    requires path == RStrip(config.path) + "/" + Quote(BucketOf(config)) + "/" + Quote(key)
    ensures LStrip(Unquote(path)) == Lead(config) + key
  {
    DecodedPath(RStrip(config.path), BucketOf(config), key);
  }

  /** Extracting from the built URL searches what is in front of the key, followed by the key. */
  lemma ExtractionOfBuilt(config: Config, key: string, userId: string, url: Avatar)
    requires url.Web? && url.path != "" && DropParams(url.path) == url.path && key != "" && key[0] == 'u'
    requires LStrip(Unquote(url.path)) == Lead(config) + key
    ensures ExtractManagedStorageKey(config, Some(url), userId) ==
            Locate(config.bucket, LeftOver(config) + key, ManagedPrefix(userId))
  {
    ExtractionFromPath(config, url, userId, Lead(config) + key);
    BaseStaysInFront(config, key);
  }

  lemma KeyStart(key: string, userId: string)
    requires ManagedPrefix(userId) <= key
    ensures key != "" && key[0] == 'u'
  {
  }

  /** There is a URL iff scheme and host are configured; its path lies under the base path, and reads
      as base path, bucket and key. */
  lemma BuiltUrlReads(config: Config, key: string)
    requires IsBytes(config.bucket) && IsBytes(key)
    ensures var url := BuildPublicObjectUrl(config, key);
            && (url == None <==> config.scheme == "" || config.netloc == "")
            && (url.Some? ==>
                  && url.value.Web? && url.value.scheme == config.scheme && url.value.netloc == config.netloc
                  && RStrip(config.path) + "/" <= url.value.path
                  && Unquote(url.value.path) ==
                     Unquote(RStrip(config.path)) + "/" + BucketOf(config) + "/" + LStrip(key))
  {
    var (base, bucket, k) := (RStrip(config.path), BucketOf(config), LStrip(key));
    UnquoteUrlPath(base, bucket, k);
    PrefixOfFour(base, Quote(bucket), Quote(k));
  }

  lemma PrefixOfFour(a: string, b: string, c: string)
    ensures a + "/" <= a + "/" + b + "/" + c
  {
  }

  // ---- Any URL ----

  /** From position n on, the text is `r`; around it there are only slashes, and at its ends none. */
  ghost predicate TrimsAt(s: string, r: string, n: nat) {
    && (r != "" ==> r[0] != '/' && r[|r| - 1] != '/')
    && OccursAt(s, r, n) && forall i :: 0 <= i < |s| ==> i < n || i >= n + |r| ==> s[i] == '/'
  }

  ghost predicate Trimmed(s: string, r: string) { exists n: nat :: TrimsAt(s, r, n) }

  lemma {:induction false} LStripDrops(s: string)
    ensures var r := LStrip(s);
            |r| <= |s| && r == s[|s| - |r|..] && forall i :: 0 <= i < |s| - |r| ==> s[i] == '/'
  {
    if s != "" && s[0] == '/' {
      LStripDrops(s[1..]);
      assert forall i :: 0 < i < |s| ==> s[i] == s[1..][i - 1];
    }
  }

  lemma {:induction false} RStripDrops(s: string)
    ensures forall i :: |RStrip(s)| <= i < |s| ==> s[i] == '/'
  {
    if s != "" && s[|s| - 1] == '/' { RStripDrops(s[..|s| - 1]); }
  }

  lemma StripBoth(s: string)
    ensures Trimmed(s, LStrip(RStrip(s)))
  {
    RStripDrops(s);
    LStripDrops(RStrip(s));
    StripEnds(s, RStrip(s), LStrip(RStrip(s)), |RStrip(s)| - |LStrip(RStrip(s))|);
  }

  lemma StripEnds(s: string, t: string, r: string, n: nat)
    requires |t| <= |s| && t == s[..|t|] && n <= |t| && r == t[n..]
    requires forall i :: |t| <= i < |s| ==> s[i] == '/'
    requires forall i :: 0 <= i < n ==> t[i] == '/'
    requires (t != "" ==> t[|t| - 1] != '/') && (r != "" ==> r[0] != '/')
    ensures TrimsAt(s, r, n)
  {
    assert r != "" ==> r[|r| - 1] == t[|t| - 1];
    assert s[n..n + |r|] == r;
    forall i | 0 <= i < n ensures s[i] == '/' { assert s[i] == t[i]; }
  }

  /** Parameters are what follows the first semicolon of the last segment. */
  lemma DropParamsIs(path: string)
    ensures var r := DropParams(path);
            && r <= path && (r != path ==> path[|r|] == ';' && '/' !in path[|r|..])
            && forall i :: 0 <= i < |r| && r[i] == ';' ==> '/' in path[i..]
  {
    var (r, slash) := (DropParams(path), LastSlash(path));
    forall i | 0 <= i < |r| && r[i] == ';' ensures '/' in path[i..] {
      assert slash.None? || i >= slash.value ==> OccursAt(path, ";", i);
      assert path[slash.value] == path[i..][slash.value - i];
    }
    if r != path {
      forall c | c in path[|r|..] ensures c != '/' {
        var k :| 0 <= k < |path[|r|..]| && path[|r|..][k] == c;
        assert c == path[|r| + k];
      }
    }
  }

  /** What is compared and stripped: bucket and base path, trimmed, the latter without parameters. */
  lemma ConfigIsTrimmed(config: Config)
    ensures Trimmed(config.bucket, BucketOf(config)) && Trimmed(DropParams(config.path), BaseToStrip(config))
  {
    StripBoth(config.bucket);
    StripBoth(DropParams(config.path));
  }

  /** An escape is a percent sign and two hexadecimal digits; anything else stands for itself. */
  lemma UnquoteIs(s: string, a: nat, b: nat)
    requires s != ""
    ensures s[0] != '%' || |s| < 3 || HexValue(s[1]).None? || HexValue(s[2]).None? ==>
              Unquote(s) == [s[0]] + Unquote(s[1..])
    ensures s[0] == '%' && |s| >= 3 && HexValue(s[1]) == Some(a) && HexValue(s[2]) == Some(b) ==>
              a < 16 && b < 16 && Unquote(s) == [(16 * a + b) as char] + Unquote(s[3..])
  {
  }

  /** `rest` is what is left of the path once the base path, if it leads it, is gone. */
  ghost predicate BehindBase(base: string, path: string, rest: string) {
    if base != "" && base + "/" <= path then path == base + "/" + rest
    else rest == (if path == base then "" else path)
  }

  /** The key begins where "users/<id>/" first occurs in the decoded path behind the base. */
  ghost predicate KeyInPath(config: Config, urlPath: string, userId: string, key: string) {
    exists path: string, i: nat ::
      && BehindBase(BaseToStrip(config), LStrip(Unquote(DropParams(urlPath))), path)
      && OccursAt(path, "users/" + userId + "/", i) && key == path[i..]
      && forall j :: 0 <= j < i ==> !OccursAt(path, "users/" + userId + "/", j)
  }

  /** For any avatar text: a bare key is its own answer; of anything else the answer is in its path,
      and there is none when the prefix does not occur there, whatever the bucket is called. */
  lemma ExtractionIff(config: Config, avatar: Option<Avatar>, userId: string, key: string)
    ensures ExtractManagedStorageKey(config, avatar, userId) == Some(key) <==>
            match avatar
            case None => false
            case Some(Bare(text)) =>
              if "users/" + userId + "/" <= text then key == text else KeyInPath(config, text, userId, key)
            case Some(Web(_, _, urlPath)) => KeyInPath(config, urlPath, userId, key)
  {
    match avatar
    case None =>
    case Some(Bare(text)) =>
      if !("users/" + userId + "/" <= text) { SearchIff(config, avatar.value, text, userId, key); }
    case Some(Web(_, _, urlPath)) => SearchIff(config, avatar.value, urlPath, userId, key);
  }

  lemma SearchIff(config: Config, avatar: Avatar, raw: string, userId: string, key: string)
    requires raw == if avatar.Bare? then avatar.text else avatar.path
    requires avatar.Bare? ==> !(ManagedPrefix(userId) <= raw)
    ensures ExtractManagedStorageKey(config, Some(avatar), userId) == Some(key) <==> KeyInPath(config, raw, userId, key)
  {
    var path := WithoutBase(BaseToStrip(config), LStrip(Unquote(DropParams(raw))));
    KeyInPathIff(config, raw, path, userId, key);
    SearchLocates(config, avatar, raw, userId, path);
  }

  lemma SearchLocates(config: Config, avatar: Avatar, raw: string, userId: string, path: string)
    requires raw == if avatar.Bare? then avatar.text else avatar.path
    requires avatar.Bare? ==> !(ManagedPrefix(userId) <= raw)
    requires path == WithoutBase(BaseToStrip(config), LStrip(Unquote(DropParams(raw))))
    ensures ExtractManagedStorageKey(config, Some(avatar), userId) ==
            if DropParams(raw) == "" then None else Locate(config.bucket, path, ManagedPrefix(userId))
  {
    assert DropParams("") == "";
  }

  lemma BehindBaseIff(base: string, path: string, rest: string)
    ensures BehindBase(base, path, rest) <==> rest == WithoutBase(base, path)
  {
    if base != "" && base + "/" <= path { assert path == base + "/" + path[|base| + 1..]; }
  }

  lemma KeyInPathIff(config: Config, raw: string, path: string, userId: string, key: string)
    requires path == WithoutBase(BaseToStrip(config), LStrip(Unquote(DropParams(raw))))
    ensures KeyInPath(config, raw, userId, key) <==> Locate(config.bucket, path, ManagedPrefix(userId)) == Some(key)
    ensures DropParams(raw) == "" ==> !KeyInPath(config, raw, userId, key)
  {
    var prefix := "users/" + userId + "/";
    forall rest ensures BehindBase(BaseToStrip(config), LStrip(Unquote(DropParams(raw))), rest) <==> rest == path {
      BehindBaseIff(BaseToStrip(config), LStrip(Unquote(DropParams(raw))), rest);
    }
    LocateIff(config.bucket, path, prefix, key);
  }

  lemma LocateIff(bucket: string, path: string, prefix: string, key: string)
    ensures Locate(bucket, path, prefix) == Some(key) <==>
            exists i: nat :: OccursAt(path, prefix, i) && key == path[i..] &&
                             forall j :: 0 <= j < i ==> !OccursAt(path, prefix, j)
  {
    var found := Find(path, prefix, 0);
    if found.None? {
      var n := if bucket + "/" <= path then |bucket| + 1 else 0;
      if prefix <= path[n..] {
        assert path[n..][..|prefix|] == path[n..n + |prefix|];
        assert OccursAt(path, prefix, n);
      }
    } else {
      assert path[found.value..][..|prefix|] == prefix;
    }
  }

  /** For a key under "users/<uuid>/", extracting from the built URL gives the key back iff what
      remains of the base path and the bucket in front of it does not contain that prefix. */
  lemma StorageKeyRoundTripIff(config: Config, key: string, userId: string)
    requires IsBytes(config.bucket) && IsBytes(key)
    requires config.scheme != "" && config.netloc != ""
    requires IsUuidText(userId) && ManagedPrefix(userId) <= key
    ensures ExtractManagedStorageKey(config, BuildPublicObjectUrl(config, key), userId) == Some(key) <==>
            !Contains(LeftOver(config), ManagedPrefix(userId))
  {
    KeyStart(key, userId);
    BuiltUrl(config, key);
    var url := BuildPublicObjectUrl(config, key).value;
    BuiltPath(RStrip(config.path), BucketOf(config), key);
    BuiltPathDecodes(config, key, url.path);
    ExtractionOfBuilt(config, key, userId, url);
    LocatedKeyIff(config.bucket, LeftOver(config), key, userId);
  }

  lemma LocatedKeyIff(bucket: string, front: string, key: string, userId: string)
    requires IsUuidText(userId) && ManagedPrefix(userId) <= key
    ensures Locate(bucket, front + key, ManagedPrefix(userId)) == Some(key) <==> !Contains(front, ManagedPrefix(userId))
  {
    FirstMatch(front, key, userId);
    LocateFinds(bucket, front + key, ManagedPrefix(userId));
    LocatedIs(front, key, Find(front + key, ManagedPrefix(userId), 0).value);
  }

  lemma LocatedIs(front: string, key: string, i: nat)
    requires i <= |front|
    ensures (front + key)[i..] == key <==> i == |front|
  {
  }

  lemma SuffixContains(s: string, n: nat, p: string)
    requires n <= |s| && Contains(s[n..], p)
    ensures Contains(s, p)
  {
    var i :| 0 <= i <= |s[n..]| && OccursAt(s[n..], p, i);
    assert s[n + i..n + i + |p|] == s[n..][i..i + |p|];
    assert OccursAt(s, p, n + i);
  }

  /** In particular whenever the decoded base path and bucket do not contain the prefix. */
  lemma StorageKeyRoundTrip(config: Config, key: string, userId: string)
    requires IsBytes(config.bucket) && IsBytes(key)
    requires config.scheme != "" && config.netloc != ""
    requires IsUuidText(userId) && ManagedPrefix(userId) <= key
    requires !Contains(Lead(config), ManagedPrefix(userId))
    ensures ExtractManagedStorageKey(config, BuildPublicObjectUrl(config, key), userId) == Some(key)
  {
    StorageKeyRoundTripIff(config, key, userId);
    if Contains(LeftOver(config), ManagedPrefix(userId)) && LeftOver(config) != Lead(config) {
      SuffixContains(Lead(config), |BaseToStrip(config)| + 1, ManagedPrefix(userId));
    }
  }
}
