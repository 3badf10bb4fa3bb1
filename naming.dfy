/**
 * Storage keys ("branch names") and the name resolution of Event.h: a key
 * is the collection name, the separator '_' and the pass name, except for
 * the event header, which is stored under its bare name. A lookup without a
 * pass name scans every known branch name for the prefix "<collection>_",
 * going through a cache of earlier answers first.
 */
module Naming {
  import opened Wrappers
  import opened Exceptions

  const Separator: char := '_'

  /** ldmx::EventHeader::BRANCH. */
  const EventHeaderBranch: string := "EventHeader"

  /** makeBranchName(collectionName, passName). */
  function MakeBranchName(collectionName: string, passName: string): (r: string)
    ensures |r| == |collectionName| + 1 + |passName|
    ensures r[..|collectionName|] == collectionName && r[|collectionName|] == Separator
    ensures r[|collectionName| + 1..] == passName
  {
    collectionName + [Separator] + passName
  }

  /** The key add and getImpl use: the header's bare name, or makeBranchName. */
  function StorageKey(collectionName: string, passName: string): (r: string)
    ensures r == collectionName <==> collectionName == EventHeaderBranch
    ensures collectionName != EventHeaderBranch ==> r == MakeBranchName(collectionName, passName)
  {
    if collectionName == EventHeaderBranch then collectionName
    else MakeBranchName(collectionName, passName)
  }

  /** std::string::find('_'): the index of the first separator, if any. */
  function FindSeparator(s: string): (r: Option<nat>)
    ensures r.None? <==> Separator !in s
    ensures r.Some? ==> r.value < |s| && s[r.value] == Separator && Separator !in s[..r.value]
  {
    if s == [] then None
    else if s[0] == Separator then Some(0)
    else match FindSeparator(s[1..])
      case None => None
      case Some(j) =>
        assert s[..j + 1] == [s[0]] + s[1..][..j];
        Some(j + 1)
  }

  /**
   * How setInputTree splits a branch name into collection and pass name:
   * at the first separator. Without a separator find returns npos, npos + 1
   * wraps to 0, and both halves are the whole name.
   */
  function SplitBranchName(name: string): (r: (string, string))
    ensures Separator in name ==> Separator !in r.0 && r.0 + [Separator] + r.1 == name
    ensures Separator !in name ==> r == (name, name)
  {
    match FindSeparator(name)
    case Some(j) =>
      assert name[..j] + [Separator] + name[j + 1..] == name;
      (name[..j], name[j + 1..])
    case None => (name, name)
  }

  /** Splitting undoes makeBranchName for every legal collection name. */
  lemma SplitMakeBranchName(collectionName: string, passName: string)
    requires Separator !in collectionName
    ensures SplitBranchName(MakeBranchName(collectionName, passName)) == (collectionName, passName)
  {
    var s := MakeBranchName(collectionName, passName);
    var n := |collectionName|;
    assert s[..n] == collectionName && s[n] == Separator && s[n + 1..] == passName;
    var j := FindSeparator(s).value;
    assert forall i :: 0 <= i < n ==> s[i] == collectionName[i];
    assert j == n;
  }

  /** A name without a separator splits into itself twice. */
  lemma SplitWithoutSeparator(name: string)
    requires Separator !in name
    ensures SplitBranchName(name) == (name, name)
  {
  }

  /** The test of getImpl: compare(0, prefix.size(), prefix) == 0. */
  predicate HasPrefix(s: string, prefix: string): (r: bool) {
    |prefix| <= |s| && s[..|prefix|] == prefix
  }

  /** The test compares character by character: the first |prefix| characters of s are those of prefix. */
  lemma HasPrefixComparesCharacters(s: string, prefix: string)
    ensures HasPrefix(s, prefix) <==> |prefix| <= |s| && forall i :: 0 <= i < |prefix| ==> s[i] == prefix[i]
  {
    if |prefix| <= |s| && forall i :: 0 <= i < |prefix| ==> s[i] == prefix[i] {
      assert s[..|prefix|] == prefix;
    }
  }

  /**
   * The prefix "<c>_" picks out exactly the keys of collection c: for legal
   * collection names c and d, the key of (d, p) starts with "<c>_" iff c == d.
   */
  lemma PrefixSelectsCollection(c: string, d: string, passName: string)
    requires Separator !in c && Separator !in d
    ensures HasPrefix(MakeBranchName(d, passName), c + [Separator]) <==> c == d
  {
    var key := MakeBranchName(d, passName);
    var prefix := c + [Separator];
    assert key[|d|] == Separator && forall i :: 0 <= i < |d| ==> key[i] == d[i];
    assert prefix[|c|] == Separator && forall i :: 0 <= i < |c| ==> prefix[i] == c[i];
    if HasPrefix(key, prefix) {
      assert forall i :: 0 <= i <= |c| ==> key[i] == prefix[i];
      assert |c| == |d|;
      assert c == prefix[..|c|] == key[..|c|] == d;
    }
  }

  /** The branch names with the prefix, in order: the matches getImpl collects. */
  function PrefixMatches(names: seq<string>, prefix: string): (r: seq<string>)
    ensures |r| <= |names|
    ensures forall x :: x in r <==> x in names && HasPrefix(x, prefix)
    ensures r == [] <==> forall x :: x in names ==> !HasPrefix(x, prefix)
  {
    if names == [] then []
    else
      var init, last := names[..|names| - 1], names[|names| - 1];
      assert names == init + [last];
      PrefixMatches(init, prefix) + (if HasPrefix(last, prefix) then [last] else [])
  }

  /** Appending a name adds it to the matches exactly when it has the prefix. */
  lemma PrefixMatchesAppend(names: seq<string>, name: string, prefix: string)
    ensures PrefixMatches(names + [name], prefix)
         == PrefixMatches(names, prefix) + (if HasPrefix(name, prefix) then [name] else [])
  {
    assert (names + [name])[..|names|] == names;
  }

  /** The outcome of scanning the branch names for one collection name. */
  datatype Resolution = Resolved(key: string) | NotFound | Ambiguous(candidates: seq<string>)

  /** The scan of getImpl for a collection name given without a pass. */
  function Resolve(names: seq<string>, collectionName: string): (r: Resolution)
    ensures r.NotFound? <==> forall x :: x in names ==> !HasPrefix(x, collectionName + [Separator])
    ensures r.Resolved? ==> r.key in names && HasPrefix(r.key, collectionName + [Separator])
    ensures r.Resolved? ==> forall x :: x in names && HasPrefix(x, collectionName + [Separator]) ==> x == r.key
    ensures r.Resolved? <==> |PrefixMatches(names, collectionName + [Separator])| == 1
    ensures r.Resolved? ==> r.key == PrefixMatches(names, collectionName + [Separator])[0]
    ensures r.Ambiguous? ==> |r.candidates| > 1
    ensures r.Ambiguous? ==> r.candidates == PrefixMatches(names, collectionName + [Separator])
  {
    var matches := PrefixMatches(names, collectionName + [Separator]);
    assert |matches| > 0 ==> matches[0] in matches;
    if |matches| == 0 then NotFound
    else if |matches| > 1 then Ambiguous(matches)
    else
      assert matches == [matches[0]];
      Resolved(matches[0])
  }

  /**
   * Once a collection name resolves to one key, creating a second key of
   * that collection makes it ambiguous, listing both keys in creation order:
   * so a cached answer must be dropped whenever a key is created.
   */
  lemma NewKeyMakesResolvedNameAmbiguous(names: seq<string>, collectionName: string, newKey: string)
    requires Resolve(names, collectionName).Resolved?
    requires HasPrefix(newKey, collectionName + [Separator])
    ensures Resolve(names + [newKey], collectionName)
         == Ambiguous([Resolve(names, collectionName).key, newKey])
  {
    var prefix := collectionName + [Separator];
    var key := Resolve(names, collectionName).key;
    var m := PrefixMatches(names, prefix);
    assert |m| == 1 && m[0] == key;
    assert m == [key];
    PrefixMatchesAppend(names, newKey, prefix);
    assert PrefixMatches(names + [newKey], prefix) == [key, newKey];
  }

  /**
   * A key listed twice after names without the prefix is ambiguous: the scan
   * counts positions, so it lists the one key twice.
   */
  lemma RepeatedKeyIsAmbiguous(names: seq<string>, collectionName: string, key: string)
    requires forall n :: n in names ==> !HasPrefix(n, collectionName + [Separator])
    requires HasPrefix(key, collectionName + [Separator])
    ensures Resolve(names + [key] + [key], collectionName) == Ambiguous([key, key])
  {
    var prefix := collectionName + [Separator];
    assert PrefixMatches(names, prefix) == [];
    PrefixMatchesAppend(names, key, prefix);
    PrefixMatchesAppend(names + [key], key, prefix);
    assert PrefixMatches(names + [key] + [key], prefix) == [key, key];
  }

  /** The empty-pass cache is coherent when every cached answer is what a fresh scan gives. */
  ghost predicate CacheCoherent(cache: map<string, string>, names: seq<string>) {
    forall n :: n in cache ==> Resolve(names, n) == Resolved(cache[n])
  }

  /**
   * The storage key getImpl looks up: the header's bare name; makeBranchName
   * when a pass is given; otherwise the cached answer, or the result of the
   * scan, which fails when no branch name or more than one has the prefix.
   */
  function KeyFor(collectionName: string, passName: string, cache: map<string, string>, names: seq<string>): (r: Result<string>)
    ensures collectionName == EventHeaderBranch ==> r == Ok(EventHeaderBranch)
    ensures passName != "" ==> r == Ok(StorageKey(collectionName, passName))
    ensures passName == "" && collectionName != EventHeaderBranch && collectionName in cache ==>
              r == Ok(cache[collectionName])
    ensures (passName == "" && collectionName != EventHeaderBranch && collectionName !in cache
             && Resolve(names, collectionName).Resolved?) ==> r == Ok(Resolve(names, collectionName).key)
    ensures r.Err? <==> passName == "" && collectionName != EventHeaderBranch && collectionName !in cache
                        && !Resolve(names, collectionName).Resolved?
    ensures r == Err(ProductNotFound(collectionName)) <==>
              passName == "" && collectionName != EventHeaderBranch && collectionName !in cache
              && forall x :: x in names ==> !HasPrefix(x, collectionName + [Separator])
    ensures (passName == "" && collectionName != EventHeaderBranch && collectionName !in cache
             && Resolve(names, collectionName).Ambiguous?) ==>
              r == Err(ProductAmbiguous(collectionName, PrefixMatches(names, collectionName + [Separator])))
    ensures r.Err? && r.error.ProductAmbiguous? ==>
              r.error.name == collectionName && |r.error.candidates| > 1
              && r.error.candidates == PrefixMatches(names, collectionName + [Separator])
    ensures CacheCoherent(cache, names) && r.Ok? && passName == "" && collectionName != EventHeaderBranch ==>
              r.value in names && HasPrefix(r.value, collectionName + [Separator])
  {
    if collectionName == EventHeaderBranch || passName != "" then Ok(StorageKey(collectionName, passName))
    else if collectionName in cache then Ok(cache[collectionName])
    else match Resolve(names, collectionName)
      case Resolved(key) => Ok(key)
      case NotFound => Err(ProductNotFound(collectionName))
      case Ambiguous(candidates) => Err(ProductAmbiguous(collectionName, candidates))
  }

  /** The cache after a successful getImpl: a scanned answer is remembered. */
  function CacheAfter(collectionName: string, passName: string, key: string, cache: map<string, string>): (r: map<string, string>)
    ensures passName == "" && collectionName != EventHeaderBranch && collectionName !in cache ==>
              r.Keys == cache.Keys + {collectionName} && r[collectionName] == key
    ensures forall n :: n in cache ==> n in r && r[n] == cache[n]
    ensures !(passName == "" && collectionName != EventHeaderBranch && collectionName !in cache) ==> r == cache
  {
    if passName == "" && collectionName != EventHeaderBranch && collectionName !in cache
    then cache[collectionName := key]
    else cache
  }

  /** A coherent cache answers every lookup as a fresh scan would. */
  lemma CoherentCacheIsTransparent(collectionName: string, passName: string, cache: map<string, string>, names: seq<string>)
    requires CacheCoherent(cache, names)
    ensures KeyFor(collectionName, passName, cache, names) == KeyFor(collectionName, passName, map[], names)
  {
  }

  /** Remembering the answer of a lookup keeps a coherent cache coherent. */
  lemma CacheAfterKeepsCoherence(collectionName: string, passName: string, cache: map<string, string>, names: seq<string>)
    requires CacheCoherent(cache, names)
    requires KeyFor(collectionName, passName, cache, names).Ok?
    ensures CacheCoherent(CacheAfter(collectionName, passName, KeyFor(collectionName, passName, cache, names).value, cache), names)
  {
  }

  /**
   * A stale cache masks an ambiguity: the names of an input file with two
   * passes of "X" make the scan fail, while an answer cached from an earlier
   * file with one pass still resolves "X".
   */
  lemma StaleCacheMasksAmbiguity()
    ensures var names := [EventHeaderBranch, "X_a", "X_b"];
            var cache := map["X" := "X_a"];
            && Resolve(names, "X") == Ambiguous(["X_a", "X_b"])
            && KeyFor("X", "", cache, names) == Ok("X_a")
            && !CacheCoherent(cache, names)
  {
    var prefix := "X" + [Separator];
    assert !HasPrefix(EventHeaderBranch, prefix) by {
      assert EventHeaderBranch[..2][0] == 'E' != prefix[0];
    }
    assert HasPrefix("X_a", prefix) && HasPrefix("X_b", prefix);
    assert PrefixMatches([EventHeaderBranch], prefix) == [] by {
      assert [EventHeaderBranch][..0] == [];
    }
    PrefixMatchesAppend([EventHeaderBranch], "X_a", prefix);
    assert [EventHeaderBranch] + ["X_a"] == [EventHeaderBranch, "X_a"];
    assert Resolve([EventHeaderBranch, "X_a"], "X") == Resolved("X_a");
    NewKeyMakesResolvedNameAmbiguous([EventHeaderBranch, "X_a"], "X", "X_b");
    assert [EventHeaderBranch, "X_a"] + ["X_b"] == [EventHeaderBranch, "X_a", "X_b"];
  }
}
