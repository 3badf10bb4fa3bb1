/**
 * The product catalog of RootEvent: product tags, searchProducts, exists,
 * the drop filter, and the catalog setInputTree rebuilds from the branches
 * of an input tree. Regular expressions go through an abstract Engine.
 */
module Products {
  import opened Exceptions
  import opened Regex
  import opened Naming

  /** ldmx::ProductTag: collection name, pass name, type name. */
  datatype Tag = Tag(name: string, passName: string, typeName: string)

  /** The tag setInputTree always puts first (the header, without a pass). */
  const EventHeaderTag: Tag := Tag(EventHeaderBranch, "", "ldmx::EventHeader")

  predicate TagMatches(e: Engine, namePattern: Pattern, passPattern: Pattern, typePattern: Pattern, t: Tag) {
    e.search(namePattern, t.name) && e.search(passPattern, t.passName) && e.search(typePattern, t.typeName)
  }

  /** The tags that match all three patterns, in catalog order. */
  function Filter(e: Engine, products: seq<Tag>, namePattern: Pattern, passPattern: Pattern, typePattern: Pattern): (r: seq<Tag>)
    ensures |r| <= |products|
    ensures forall t :: t in r <==> t in products && TagMatches(e, namePattern, passPattern, typePattern, t)
  {
    if products == [] then []
    else
      var init, last := products[..|products| - 1], products[|products| - 1];
      assert products == init + [last];
      Filter(e, init, namePattern, passPattern, typePattern)
        + (if TagMatches(e, namePattern, passPattern, typePattern, last) then [last] else [])
  }

  /** Filtering a concatenation filters each part and keeps their order. */
  lemma {:induction false} FilterAppend(e: Engine, a: seq<Tag>, b: seq<Tag>, np: Pattern, pp: Pattern, tp: Pattern)
    ensures Filter(e, a + b, np, pp, tp) == Filter(e, a, np, pp, tp) + Filter(e, b, np, pp, tp)
  {
    if b != [] {
      var init, last := b[..|b| - 1], b[|b| - 1];
      assert (a + b)[..|a + b| - 1] == a + init;
      assert (a + b)[|a + b| - 1] == last;
      FilterAppend(e, a, init, np, pp, tp);
    } else {
      assert a + b == a;
    }
  }

  /** When every tag matches, Filter returns the whole catalog. */
  lemma {:induction false} FilterAllMatching(e: Engine, products: seq<Tag>, np: Pattern, pp: Pattern, tp: Pattern)
    requires forall i :: 0 <= i < |products| ==> TagMatches(e, np, pp, tp, products[i])
    ensures Filter(e, products, np, pp, tp) == products
  {
    if products != [] {
      var n := |products| - 1;
      var init, last := products[..n], products[n];
      assert products == init + [last];
      forall i | 0 <= i < |init| ensures TagMatches(e, np, pp, tp, init[i]) {
        assert init[i] == products[i];
      }
      FilterAllMatching(e, init, np, pp, tp);
      assert TagMatches(e, np, pp, tp, last);
    }
  }

  /** Exactly one position of the catalog holds a tag that matches. */
  ghost predicate UniqueMatch(e: Engine, products: seq<Tag>, np: Pattern, pp: Pattern, tp: Pattern) {
    exists i :: 0 <= i < |products| && TagMatches(e, np, pp, tp, products[i])
      && forall j :: 0 <= j < |products| && TagMatches(e, np, pp, tp, products[j]) ==> j == i
  }

  /** Filter returns nothing exactly when no position of the catalog matches. */
  lemma FilterEmptyIffNoMatch(e: Engine, products: seq<Tag>, np: Pattern, pp: Pattern, tp: Pattern)
    ensures Filter(e, products, np, pp, tp) == [] <==>
            forall j :: 0 <= j < |products| ==> !TagMatches(e, np, pp, tp, products[j])
  {
    var f := Filter(e, products, np, pp, tp);
    if f != [] {
      assert f[0] in f;
    }
  }

  lemma {:induction false} FilterSingleGivesUniqueMatch(e: Engine, products: seq<Tag>, np: Pattern, pp: Pattern, tp: Pattern)
    requires |Filter(e, products, np, pp, tp)| == 1
    ensures UniqueMatch(e, products, np, pp, tp)
  {
    var n := |products| - 1;
    var init := products[..n];
    var f := Filter(e, init, np, pp, tp);
    assert Filter(e, products, np, pp, tp)
        == f + (if TagMatches(e, np, pp, tp, products[n]) then [products[n]] else []);
    if TagMatches(e, np, pp, tp, products[n]) {
      assert f == [];
      FilterEmptyIffNoMatch(e, init, np, pp, tp);
      assert forall j :: 0 <= j < n ==> init[j] == products[j];
      assert forall j :: 0 <= j < n ==> !TagMatches(e, np, pp, tp, products[j]);
    } else {
      FilterSingleGivesUniqueMatch(e, init, np, pp, tp);
      var i :| 0 <= i < n && TagMatches(e, np, pp, tp, init[i])
        && forall j :: 0 <= j < n && TagMatches(e, np, pp, tp, init[j]) ==> j == i;
      assert TagMatches(e, np, pp, tp, products[i]) by { assert init[i] == products[i]; }
      forall j | 0 <= j < |products| && TagMatches(e, np, pp, tp, products[j]) ensures j == i {
        if j < n { assert init[j] == products[j]; }
      }
    }
  }

  lemma {:induction false} UniqueMatchGivesFilterSingle(e: Engine, products: seq<Tag>, np: Pattern, pp: Pattern, tp: Pattern)
    requires UniqueMatch(e, products, np, pp, tp)
    ensures |Filter(e, products, np, pp, tp)| == 1
  {
    var n := |products| - 1;
    var init := products[..n];
    assert forall j :: 0 <= j < n ==> init[j] == products[j];
    var i :| 0 <= i < |products| && TagMatches(e, np, pp, tp, products[i])
      && forall j :: 0 <= j < |products| && TagMatches(e, np, pp, tp, products[j]) ==> j == i;
    if i == n {
      FilterEmptyIffNoMatch(e, init, np, pp, tp);
    } else {
      assert TagMatches(e, np, pp, tp, init[i]);
      UniqueMatchGivesFilterSingle(e, init, np, pp, tp);
    }
  }

  /** Filter returns one tag exactly when one position of the catalog matches. */
  lemma FilterSingleIffUniqueMatch(e: Engine, products: seq<Tag>, np: Pattern, pp: Pattern, tp: Pattern)
    ensures |Filter(e, products, np, pp, tp)| == 1 <==> UniqueMatch(e, products, np, pp, tp)
  {
    if |Filter(e, products, np, pp, tp)| == 1 {
      FilterSingleGivesUniqueMatch(e, products, np, pp, tp);
    }
    if UniqueMatch(e, products, np, pp, tp) {
      UniqueMatchGivesFilterSingle(e, products, np, pp, tp);
    }
  }

  /**
   * searchProducts (RootEvent.cxx) as corrected: each empty pattern stands
   * for ".*"; the name, pass and type patterns are compiled in that order and
   * the first that fails raises InvalidRegex quoting that pattern; otherwise
   * the tags that match all three, in catalog order.
   */
  function SearchProducts(e: Engine, products: seq<Tag>, nameMatch: Pattern, passMatch: Pattern, typeMatch: Pattern): (r: Result<seq<Tag>>)
    ensures r.Ok? <==> e.compiles(Effective(nameMatch)) && e.compiles(Effective(passMatch)) && e.compiles(Effective(typeMatch))
    ensures !e.compiles(Effective(nameMatch)) ==> r == Err(InvalidRegex(nameMatch))
    ensures e.compiles(Effective(nameMatch)) && !e.compiles(Effective(passMatch)) ==> r == Err(InvalidRegex(passMatch))
    ensures e.compiles(Effective(nameMatch)) && e.compiles(Effective(passMatch)) && !e.compiles(Effective(typeMatch))
            ==> r == Err(InvalidRegex(typeMatch))
    ensures r.Ok? ==> forall t :: t in r.value <==>
              t in products && TagMatches(e, Effective(nameMatch), Effective(passMatch), Effective(typeMatch), t)
  {
    if !e.compiles(Effective(nameMatch)) then Err(InvalidRegex(nameMatch))
    else if !e.compiles(Effective(passMatch)) then Err(InvalidRegex(passMatch))
    else if !e.compiles(Effective(typeMatch)) then Err(InvalidRegex(typeMatch))
    else Ok(Filter(e, products, Effective(nameMatch), Effective(passMatch), Effective(typeMatch)))
  }

  /**
   * searchProducts as written: the two outer else branches are swapped, so
   * a bad name pattern raises "RegexErr" quoting the pass pattern, and a bad
   * pass pattern raises InvalidRegex quoting the name pattern.
   */
  function SearchProductsAsWritten(e: Engine, products: seq<Tag>, nameMatch: Pattern, passMatch: Pattern, typeMatch: Pattern): (r: Result<seq<Tag>>)
    ensures r.Ok? == SearchProducts(e, products, nameMatch, passMatch, typeMatch).Ok?
    ensures r.Ok? ==> r == SearchProducts(e, products, nameMatch, passMatch, typeMatch)
  {
    if !e.compiles(Effective(nameMatch)) then Err(RegexErr(passMatch))
    else if !e.compiles(Effective(passMatch)) then Err(InvalidRegex(nameMatch))
    else if !e.compiles(Effective(typeMatch)) then Err(InvalidRegex(typeMatch))
    else Ok(Filter(e, products, Effective(nameMatch), Effective(passMatch), Effective(typeMatch)))
  }

  /** With an engine that rejects "(", the written code names the wrong pattern. */
  lemma SearchErrorQuotesWrongPattern()
    ensures var e := Engine(p => p != "(", (p, s) => true);
            && SearchProductsAsWritten(e, [], "(", "reco", "") == Err(RegexErr("reco"))
            && SearchProducts(e, [], "(", "reco", "") == Err(InvalidRegex("("))
            && SearchProductsAsWritten(e, [], "hits", "(", "") == Err(InvalidRegex("hits"))
            && SearchProducts(e, [], "hits", "(", "") == Err(InvalidRegex("("))
  {
  }

  /** An empty pattern matches every tag: searching with three empty patterns lists the catalog. */
  lemma SearchWithEmptyPatternsListsCatalog(e: Engine, products: seq<Tag>)
    requires MatchAllMatchesEverything(e)
    ensures SearchProducts(e, products, "", "", "") == Ok(products)
  {
    FilterAllMatching(e, products, MatchAll, MatchAll, MatchAll);
  }

  /** exists(name, passName): searchProducts(name, passName, "") returns one tag. */
  function Exists(e: Engine, products: seq<Tag>, name: string, passName: string): (r: Result<bool>)
    ensures r.Err? <==> SearchProducts(e, products, name, passName, "").Err?
    ensures r.Err? ==> r.error == SearchProducts(e, products, name, passName, "").error
  {
    match SearchProducts(e, products, name, passName, "")
    case Ok(tags) => Ok(|tags| == 1)
    case Err(error) => Err(error)
  }

  /** exists(name): exists(name, ""), where the empty pass pattern matches every pass. */
  function ExistsAnyPass(e: Engine, products: seq<Tag>, name: string): (r: Result<bool>)
    ensures r.Ok? <==> e.compiles(Effective(name)) && e.compiles(MatchAll)
    ensures r.Ok? ==> (r.value <==> UniqueMatch(e, products, Effective(name), MatchAll, MatchAll))
  {
    FilterSingleIffUniqueMatch(e, products, Effective(name), MatchAll, MatchAll);
    Exists(e, products, name, "")
  }

  /**
   * exists is true exactly when one catalog position matches the name and
   * pass patterns; it never raises for valid patterns, even when several match.
   */
  lemma ExistsIffUniqueMatch(e: Engine, products: seq<Tag>, name: string, passName: string)
    requires MatchAllMatchesEverything(e)
    requires e.compiles(Effective(name)) && e.compiles(Effective(passName))
    ensures Exists(e, products, name, passName).Ok?
    ensures Exists(e, products, name, passName).value
            <==> UniqueMatch(e, products, Effective(name), Effective(passName), MatchAll)
  {
    FilterSingleIffUniqueMatch(e, products, Effective(name), Effective(passName), MatchAll);
  }

  /** Two matching positions make exists false, not an error. */
  lemma AmbiguousProductDoesNotExist(e: Engine, products: seq<Tag>, name: string, passName: string, i: nat, j: nat)
    requires MatchAllMatchesEverything(e)
    requires e.compiles(Effective(name)) && e.compiles(Effective(passName))
    requires i < j < |products|
    requires TagMatches(e, Effective(name), Effective(passName), MatchAll, products[i])
    requires TagMatches(e, Effective(name), Effective(passName), MatchAll, products[j])
    ensures Exists(e, products, name, passName) == Ok(false)
  {
    ExistsIffUniqueMatch(e, products, name, passName);
  }

  /** exists(name) ignores the pass: it asks for exactly one tag whose name matches. */
  lemma ExistsAnyPassIgnoresPass(e: Engine, products: seq<Tag>, name: string)
    requires MatchAllMatchesEverything(e)
    requires e.compiles(Effective(name))
    ensures ExistsAnyPass(e, products, name).Ok?
    ensures ExistsAnyPass(e, products, name).value <==>
            exists i :: 0 <= i < |products| && e.search(Effective(name), products[i].name)
              && forall j :: 0 <= j < |products| && e.search(Effective(name), products[j].name) ==> j == i
  {
    ExistsIffUniqueMatch(e, products, name, "");
    assert forall t :: TagMatches(e, Effective(name), MatchAll, MatchAll, t) <==> e.search(Effective(name), t.name);
  }

  /** shouldDrop (RootEvent.cxx): some stored rule finds a match in the key. */
  function ShouldDrop(e: Engine, rules: seq<Pattern>, key: string): (r: bool)
    ensures r <==> exists i :: 0 <= i < |rules| && e.search(rules[i], key)
    ensures rules == [] ==> !r
  {
    if rules == [] then false
    else if e.search(rules[0], key) then true
    else
      var rest := ShouldDrop(e, rules[1..], key);
      assert rest <==> exists i :: 1 <= i < |rules| && e.search(rules[i], key) by {
        if rest {
          var i :| 0 <= i < |rules[1..]| && e.search(rules[1..][i], key);
          assert e.search(rules[i + 1], key);
        }
        if exists i :: 1 <= i < |rules| && e.search(rules[i], key) {
          var i :| 1 <= i < |rules| && e.search(rules[i], key);
          assert rules[1..][i - 1] == rules[i];
        }
      }
      rest
  }

  /** Adding a rule drops what was dropped before plus what the new rule matches. */
  lemma ShouldDropAppend(e: Engine, rules: seq<Pattern>, rule: Pattern, key: string)
    ensures ShouldDrop(e, rules + [rule], key) <==> ShouldDrop(e, rules, key) || e.search(rule, key)
  {
    var all := rules + [rule];
    if ShouldDrop(e, rules, key) {
      var i :| 0 <= i < |rules| && e.search(rules[i], key);
      assert all[i] == rules[i];
    }
    if e.search(rule, key) {
      assert all[|rules|] == rule;
    }
    if ShouldDrop(e, all, key) {
      var i :| 0 <= i < |all| && e.search(all[i], key);
      if i < |rules| { assert all[i] == rules[i]; }
    }
  }

  /** One branch of an input tree: its name and the class name ROOT reports. */
  datatype TreeBranch = TreeBranch(name: string, className: string)

  /** The tag setInputTree makes for a branch other than the header. */
  function TagOfBranch(b: TreeBranch): (r: Tag)
    ensures r.typeName == b.className
    ensures Separator in b.name ==> Separator !in r.name && r.name + [Separator] + r.passName == b.name
    ensures Separator !in b.name ==> r.name == b.name && r.passName == b.name
  {
    var (collection, pass) := SplitBranchName(b.name);
    Tag(collection, pass, b.className)
  }

  /** The tags of the non-header branches, in tree order. */
  function BranchTags(branches: seq<TreeBranch>): (r: seq<Tag>)
    ensures |r| <= |branches|
  {
    if branches == [] then []
    else
      var init, last := branches[..|branches| - 1], branches[|branches| - 1];
      BranchTags(init) + (if last.name != EventHeaderBranch then [TagOfBranch(last)] else [])
  }

  /** The tags are those of the branches other than the header, and nothing else. */
  lemma {:induction false} BranchTagsMembers(branches: seq<TreeBranch>)
    ensures forall t :: t in BranchTags(branches) <==>
              exists b :: b in branches && b.name != EventHeaderBranch && TagOfBranch(b) == t
  {
    if branches != [] {
      var init, last := branches[..|branches| - 1], branches[|branches| - 1];
      assert branches == init + [last];
      BranchTagsMembers(init);
    }
  }

  /** The catalog after setInputTree: the header tag, then one tag per other branch. */
  function CatalogOf(branches: seq<TreeBranch>): (r: seq<Tag>)
    ensures |r| >= 1 && r[0] == EventHeaderTag
    ensures |r| <= |branches| + 1
  {
    [EventHeaderTag] + BranchTags(branches)
  }

  /** After the header tag, the catalog holds exactly the tags of the other branches. */
  lemma CatalogOfMembers(branches: seq<TreeBranch>)
    ensures forall t :: t in CatalogOf(branches)[1..] <==>
              exists b :: b in branches && b.name != EventHeaderBranch && TagOfBranch(b) == t
  {
    BranchTagsMembers(branches);
    assert CatalogOf(branches)[1..] == BranchTags(branches);
  }

  /** The names of all branches, the header's included, in tree order. */
  function BranchNamesOf(branches: seq<TreeBranch>): (r: seq<string>)
    ensures |r| == |branches|
    ensures forall i :: 0 <= i < |branches| ==> r[i] == branches[i].name
  {
    seq(|branches|, i requires 0 <= i < |branches| => branches[i].name)
  }

  /** Reading one more branch extends the tags by that branch's tag, unless it is the header. */
  lemma BranchTagsAppend(branches: seq<TreeBranch>, b: TreeBranch)
    ensures BranchTags(branches + [b])
         == BranchTags(branches) + (if b.name != EventHeaderBranch then [TagOfBranch(b)] else [])
  {
    assert (branches + [b])[..|branches|] == branches;
  }

  lemma BranchNamesOfAppend(branches: seq<TreeBranch>, b: TreeBranch)
    ensures BranchNamesOf(branches + [b]) == BranchNamesOf(branches) + [b.name]
  {
  }

  /**
   * A branch written for (collection, pass) comes back as the same tag:
   * the catalog read from a file agrees with the catalog add built.
   */
  lemma TagOfWrittenBranch(collectionName: string, passName: string, className: string)
    requires Separator !in collectionName
    ensures TagOfBranch(TreeBranch(MakeBranchName(collectionName, passName), className))
         == Tag(collectionName, passName, className)
  {
    SplitMakeBranchName(collectionName, passName);
  }
}
