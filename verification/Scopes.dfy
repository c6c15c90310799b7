/** The stored form of an API key's scopes: sorted, unique, joined by spaces. */
module Scopes {
  /** The characters at which `str.split()` cuts. */
  predicate IsSpace(c: char) {
    var n := c as int;
    9 <= n <= 13 || 28 <= n <= 32 || n == 0x85 || n == 0xA0 || n == 0x1680 || 0x2000 <= n <= 0x200A ||
    n == 0x2028 || n == 0x2029 || n == 0x202F || n == 0x205F || n == 0x3000
  }

  /** The white space of Unicode, and the four separators of ASCII. */
  lemma SpaceIff(c: char)
    ensures IsSpace(c) <==>
            c as int in {9, 10, 11, 12, 13, 28, 29, 30, 31, 32, 133, 160, 5760, 8192, 8193, 8194, 8195, 8196, 8197,
                         8198, 8199, 8200, 8201, 8202, 8232, 8233, 8239, 8287, 12288}
  {
  }

  /** Non-empty and without white space, as every permission name is. */
  predicate IsWord(s: string) {
    s != "" && forall i :: 0 <= i < |s| ==> !IsSpace(s[i])
  }

  function Flush(current: string): seq<string> {
    if current == "" then [] else [current]
  }

  /** `current + s` cut into words, where `current` is a word begun before `s`. */
  function SplitFrom(current: string, s: string): seq<string>
    decreases |s|
  {
    if s == "" then Flush(current)
    else if IsSpace(s[0]) then Flush(current) + SplitFrom("", s[1..])
    else SplitFrom(current + [s[0]], s[1..])
  }

  function Split(s: string): seq<string> { SplitFrom("", s) }

  function Join(words: seq<string>): string {
    if words == [] then ""
    else if |words| == 1 then words[0]
    else words[0] + " " + Join(words[1..])
  }

  /** Code-point order of strings. */
  predicate Less(a: string, b: string) {
    b != "" && (a == "" || a[0] < b[0] || (a[0] == b[0] && Less(a[1..], b[1..])))
  }

  /** The texts agree up to position k, where `a` ends or has the smaller character. */
  ghost predicate SmallerAt(a: string, b: string, k: nat) {
    k <= |a| && k < |b| && a[..k] == b[..k] && (k < |a| ==> a[k] < b[k])
  }

  lemma {:induction false} LessIff(a: string, b: string)
    ensures Less(a, b) <==> exists k: nat :: SmallerAt(a, b, k)
  {
    if a != "" && b != "" && a[0] == b[0] {
      LessIff(a[1..], b[1..]);
      if k: nat :| SmallerAt(a[1..], b[1..], k) {
        assert a[..k + 1] == [a[0]] + a[1..][..k] && b[..k + 1] == [b[0]] + b[1..][..k];
        assert SmallerAt(a, b, k + 1);
      }
      if k: nat :| SmallerAt(a, b, k) {
        assert k > 0;
        assert a[1..][..k - 1] == a[..k][1..] && b[1..][..k - 1] == b[..k][1..];
        assert SmallerAt(a[1..], b[1..], k - 1);
      }
    } else if b != "" && (a == "" || a[0] < b[0]) {
      assert SmallerAt(a, b, 0);
    } else {
      forall k: nat ensures !SmallerAt(a, b, k) {
      }
    }
  }

  function InsertUnique(word: string, sorted: seq<string>): (r: seq<string>)
    ensures forall w :: w in r <==> w == word || w in sorted
  {
    if sorted == [] || Less(word, sorted[0]) then [word] + sorted
    else if sorted[0] == word then sorted
    else [sorted[0]] + InsertUnique(word, sorted[1..])
  }

  /** `sorted(set(words))`. */
  function SortedSet(words: seq<string>): (r: seq<string>)
    ensures forall w :: w in r <==> w in words
  {
    if words == [] then [] else InsertUnique(words[0], SortedSet(words[1..]))
  }

  /** The value of the `scopes` column for requested scopes. */
  function Stored(scopes: seq<string>): string { Join(SortedSet(scopes)) }

  /** The set that authentication reads back from the column. */
  function ScopeSet(stored: string): set<string> { set w | w in Split(stored) }

  lemma {:induction false} SplitWordThen(current: string, word: string, rest: string)
    requires forall i :: 0 <= i < |word| ==> !IsSpace(word[i])
    ensures SplitFrom(current, word + rest) == SplitFrom(current + word, rest)
    decreases |word|
  {
    if word == "" {
      assert word + rest == rest && current + word == current;
    } else {
      SplitWordThen(current + [word[0]], word[1..], rest);
      assert (word + rest)[1..] == word[1..] + rest;
      assert current + [word[0]] + word[1..] == current + word;
    }
  }

  lemma {:induction false} SplitJoin(words: seq<string>)
    requires forall w :: w in words ==> IsWord(w)
    ensures Split(Join(words)) == words
  {
    if words == [] {
      return;
    }
    assert words[0] in words && IsWord(words[0]);
    if |words| == 1 {
      SplitWordThen("", words[0], "");
      assert words[0] + "" == words[0] && "" + words[0] == words[0];
    } else {
      var rest := " " + Join(words[1..]);
      SplitWordThen("", words[0], rest);
      assert Join(words) == words[0] + rest && "" + words[0] == words[0];
      assert rest[1..] == Join(words[1..]);
      SplitJoin(words[1..]);
    }
  }

  /** Reading the stored scopes back gives the requested set. */
  lemma ScopesRoundTrip(scopes: seq<string>)
    requires forall w :: w in scopes ==> IsWord(w)
    ensures ScopeSet(Stored(scopes)) == set w | w in scopes
  {
    SplitJoin(SortedSet(scopes));
  }

  ghost predicate StrictlySorted(words: seq<string>) {
    forall i, j :: 0 <= i < j < |words| ==> Less(words[i], words[j])
  }

  lemma {:induction false} LessTransitive(a: string, b: string, c: string)
    requires Less(a, b) && Less(b, c)
    ensures Less(a, c)
  {
    if a != "" && a[0] == b[0] && b[0] == c[0] { LessTransitive(a[1..], b[1..], c[1..]); }
  }

  lemma {:induction false} LessTotal(a: string, b: string)
    ensures Less(a, b) || Less(b, a) || a == b
  {
    if a != "" && b != "" && a[0] == b[0] {
      LessTotal(a[1..], b[1..]);
      assert a == [a[0]] + a[1..] && b == [b[0]] + b[1..];
    }
  }

  lemma {:induction false} InsertUniqueSorted(word: string, sorted: seq<string>)
    requires StrictlySorted(sorted)
    ensures StrictlySorted(InsertUnique(word, sorted))
  {
    if sorted == [] {
    } else if Less(word, sorted[0]) {
      forall j | 0 <= j < |sorted| ensures Less(word, sorted[j]) {
        if j > 0 { LessTransitive(word, sorted[0], sorted[j]); }
      }
    } else if sorted[0] != word {
      LessTotal(word, sorted[0]);
      InsertUniqueSorted(word, sorted[1..]);
      var tail := InsertUnique(word, sorted[1..]);
      forall j | 0 <= j < |tail| ensures Less(sorted[0], tail[j]) {
        assert tail[j] in tail;
        if tail[j] != word {
          var i :| 0 <= i < |sorted[1..]| && sorted[1..][i] == tail[j];
          assert sorted[i + 1] == tail[j];
        }
      }
    }
  }

  /** The stored list is strictly increasing: sorted, and without duplicates. */
  lemma {:induction false} SortedSetIsSorted(words: seq<string>)
    ensures StrictlySorted(SortedSet(words))
  {
    if words != [] {
      SortedSetIsSorted(words[1..]);
      InsertUniqueSorted(words[0], SortedSet(words[1..]));
    }
  }
}
