/**
 * The event bus (Event with its RootEvent implementation merged into one
 * class). Products are stored as passengers under a storage key; the
 * catalog (products, branch names), the per-event set of filled keys, the
 * cache of empty-pass lookups and the drop rules live beside them. An input
 * tree is reduced to its branch list, its entry count and an abstract read
 * function that yields the passenger a branch holds at an entry.
 *
 * Bus is the abstract state; the functions below give the new state and the
 * answer of every operation, and the EventBus methods are proved against them.
 */
module Events {
  import opened Wrappers
  import opened Exceptions
  import opened Regex
  import opened Passengers
  import opened Naming
  import opened Products

  /** The class name of the event header. */
  const EventHeaderType: string := "ldmx::EventHeader"

  /** The alternative getObject<ldmx::EventHeader> asks for. */
  const HeaderAlternative: Alternative := Alternative(ObjectShape, EventHeaderType)

  /** The passenger beforeFill adds: the bus's event header as an object. */
  function HeaderPassenger(header: Elem): (r: Passenger)
    ensures AlternativeOf(r) == HeaderAlternative && r.value == Object(header)
  {
    Passenger(EventHeaderType, Object(header))
  }

  /**
   * An input tree: its branches in order, GetEntriesFast, and what a branch
   * holds at an entry (GetEntry followed by GetObject).
   */
  datatype Tree = Tree(branches: seq<TreeBranch>, entryCount: int, read: (string, int) -> Passenger)

  /** inputTree_->GetBranch(name) is not null. */
  predicate HasBranch(t: Tree, name: string) {
    name in BranchNamesOf(t.branches)
  }

  datatype Bus = Bus(
    passName: string,
    passengers: map<string, Passenger>,
    filled: set<string>,
    products: seq<Tag>,
    branchNames: seq<string>,
    knownLookups: map<string, string>,
    dropRules: seq<Pattern>,
    inputTree: Option<Tree>,
    ientry: int,
    entries: int,
    branches: set<string>,
    eventHeader: Elem)

  /** The new state and the answer of one operation. */
  datatype Step<T> = Step(bus: Bus, result: T)

  /**
   * What the bus keeps true: every bound branch has a passenger, branches
   * are only bound while an input tree is attached, and every drop rule
   * compiled.
   */
  ghost predicate WellFormed(e: Engine, b: Bus) {
    && b.branches <= b.passengers.Keys
    && (b.inputTree.None? ==> b.branches == {})
    && (forall r :: r in b.dropRules ==> e.compiles(r))
  }

  /** The empty-pass lookup cache agrees with a fresh scan of the branch names. */
  ghost predicate Coherent(b: Bus) {
    CacheCoherent(b.knownLookups, b.branchNames)
  }

  /** std::get<T>: the passenger if it holds the alternative T, else bad_variant_access. */
  function Extract(p: Passenger, want: Alternative): (r: Result<Passenger>)
    ensures r.Ok? <==> AlternativeOf(p) == want
    ensures r.Ok? ==> r.value == p
    ensures r.Err? ==> r.error == BadVariantAccess(want.typeName)
  {
    if AlternativeOf(p) == want then Ok(p) else Err(BadVariantAccess(want.typeName))
  }

  /**
   * add(collectionName, obj) (Event.h): reject an illegal name, then a key
   * already filled this event; mark the key filled; on the first use of the
   * key create the passenger, its catalog entry and branch name, and drop
   * the lookup cache; finally store the sorted value if its alternative
   * matches the stored one, or raise TypeMismatch.
   */
  function AddStep(less: (Elem, Elem) -> bool, b: Bus, collectionName: string, x: Passenger): (r: Step<Outcome>)
    ensures Separator in collectionName ==> r == Step(b, Fail(IllegalName(collectionName)))
    ensures var key := StorageKey(collectionName, b.passName);
            && (Separator !in collectionName && key in b.filled ==> r == Step(b, Fail(ProductExists(collectionName))))
            && (Separator !in collectionName ==> r.bus.filled == b.filled + {key})
            && (r.result == Pass <==>
                  (Separator !in collectionName && key !in b.filled
                   && (key in b.passengers ==> AlternativeOf(b.passengers[key]) == AlternativeOf(x))))
            && (r.result == Pass ==> r.bus.passengers == b.passengers[key := SortPassenger(less, x)])
            && (r.result.Fail? && r.result.error.TypeMismatch? ==> r.bus.passengers == b.passengers)
            && (Separator !in collectionName && key !in b.filled && key !in b.passengers ==>
                  && r.bus.products == b.products + [Tag(collectionName, b.passName, x.typeName)]
                  && r.bus.branchNames == b.branchNames + [key]
                  && r.bus.knownLookups == map[])
            && (key in b.passengers ==>
                  r.bus.products == b.products && r.bus.branchNames == b.branchNames
                  && r.bus.knownLookups == b.knownLookups)
    ensures r.bus.(passengers := b.passengers, filled := b.filled, products := b.products,
                   branchNames := b.branchNames, knownLookups := b.knownLookups) == b
    ensures forall e :: WellFormed(e, b) ==> WellFormed(e, r.bus)
    ensures Coherent(b) ==> Coherent(r.bus)
  {
    if Separator in collectionName then Step(b, Fail(IllegalName(collectionName)))
    else
      var key := StorageKey(collectionName, b.passName);
      if key in b.filled then Step(b, Fail(ProductExists(collectionName)))
      else
        var marked := b.(filled := b.filled + {key});
        var created :=
          if key in b.passengers then marked
          else marked.(passengers := b.passengers[key := x],
                       products := b.products + [Tag(collectionName, b.passName, x.typeName)],
                       branchNames := b.branchNames + [key],
                       knownLookups := map[]);
        if AlternativeOf(x) == AlternativeOf(created.passengers[key]) then
          Step(created.(passengers := created.passengers[key := SortPassenger(less, x)]), Pass)
        else
          Step(created, Fail(TypeMismatch(x.typeName)))
  }

  /**
   * getImpl<T>(collectionName, passName) (Event.h): find the key (KeyFor,
   * remembering a scanned answer), then: a stored passenger is re-read from
   * its branch if one is bound, and returned; without a passenger and
   * without an input tree, or when the tree has no such branch, the product
   * is not found; otherwise the branch is read at the current entry (0
   * before the first event), bound, and its passenger returned.
   */
  function GetImpl(b: Bus, collectionName: string, passName: string, want: Alternative): (r: Step<Result<Passenger>>)
    requires b.inputTree.None? ==> b.branches == {}
    ensures KeyFor(collectionName, passName, b.knownLookups, b.branchNames).Err? ==>
              r == Step(b, Err(KeyFor(collectionName, passName, b.knownLookups, b.branchNames).error))
    ensures r.result.Ok? ==> AlternativeOf(r.result.value) == want
    ensures var k := KeyFor(collectionName, passName, b.knownLookups, b.branchNames);
            k.Ok? && k.value !in b.passengers && b.inputTree.None? ==>
              r.result == Err(ProductNotFound(collectionName)) && r.bus.passengers == b.passengers
              && r.bus.branches == b.branches
    ensures var k := KeyFor(collectionName, passName, b.knownLookups, b.branchNames);
            k.Ok? && k.value in b.passengers && k.value !in b.branches ==>
              r.result == Extract(b.passengers[k.value], want) && r.bus.passengers == b.passengers
              && r.bus.branches == b.branches
    ensures var k := KeyFor(collectionName, passName, b.knownLookups, b.branchNames);
            k.Ok? ==> r.bus.knownLookups == CacheAfter(collectionName, passName, k.value, b.knownLookups)
    ensures var k := KeyFor(collectionName, passName, b.knownLookups, b.branchNames);
            k.Ok? && k.value in b.passengers && k.value in b.branches ==>
              var v := b.inputTree.value.read(k.value, b.ientry);
              && r.result == Extract(v, want)
              && r.bus.passengers == b.passengers[k.value := v] && r.bus.branches == b.branches
    ensures var k := KeyFor(collectionName, passName, b.knownLookups, b.branchNames);
            k.Ok? && k.value !in b.passengers && b.inputTree.Some? ==>
              if k.value !in b.branches && HasBranch(b.inputTree.value, k.value) then
                var v := b.inputTree.value.read(k.value, if b.ientry < 0 then 0 else b.ientry);
                && r.result == Extract(v, want)
                && r.bus.passengers == b.passengers[k.value := v] && r.bus.branches == b.branches + {k.value}
              else
                && r.result == Err(ProductNotFound(collectionName))
                && r.bus.passengers == b.passengers && r.bus.branches == b.branches
    ensures r.bus.(passengers := b.passengers, branches := b.branches, knownLookups := b.knownLookups) == b
    ensures forall e :: WellFormed(e, b) ==> WellFormed(e, r.bus)
    ensures Coherent(b) ==> Coherent(r.bus)
  {
    match KeyFor(collectionName, passName, b.knownLookups, b.branchNames)
    case Err(error) => Step(b, Err(error))
    case Ok(key) =>
      assert Coherent(b) ==> Coherent(b.(knownLookups := CacheAfter(collectionName, passName, key, b.knownLookups))) by {
        if Coherent(b) { CacheAfterKeepsCoherence(collectionName, passName, b.knownLookups, b.branchNames); }
      }
      var looked := b.(knownLookups := CacheAfter(collectionName, passName, key, b.knownLookups));
      if key in b.passengers then
        if key in b.branches then
          var v := b.inputTree.value.read(key, b.ientry);
          Step(looked.(passengers := b.passengers[key := v]), Extract(v, want))
        else
          Step(looked, Extract(b.passengers[key], want))
      else match b.inputTree
        case None => Step(looked, Err(ProductNotFound(collectionName)))
        case Some(t) =>
          if key in b.branches then
            // the branch mis-match of getImpl: a bound branch without a passenger
            Step(looked, Err(ProductNotFound(collectionName)))
          else if !HasBranch(t, key) then
            Step(looked, Err(ProductNotFound(collectionName)))
          else
            var v := t.read(key, if b.ientry < 0 then 0 else b.ientry);
            Step(looked.(passengers := b.passengers[key := v], branches := b.branches + {key}), Extract(v, want))
  }

  /**
   * setInputTree (RootEvent.cxx) as written: attach the tree, empty the
   * passengers and bound branches, and rebuild the catalog from the tree;
   * the lookup cache and the current entry are kept.
   */
  function AfterSetInputTree(b: Bus, t: Tree): (r: Bus)
    ensures r.inputTree == Some(t) && r.entries == t.entryCount
    ensures r.passengers == map[] && r.branches == {}
    ensures r.products == CatalogOf(t.branches) && r.branchNames == BranchNamesOf(t.branches)
    ensures r.knownLookups == b.knownLookups && r.ientry == b.ientry && r.filled == b.filled
    ensures r.dropRules == b.dropRules && r.eventHeader == b.eventHeader && r.passName == b.passName
    ensures forall e :: WellFormed(e, b) ==> WellFormed(e, r)
  {
    b.(inputTree := Some(t), entries := t.entryCount, products := CatalogOf(t.branches),
       branchNames := BranchNamesOf(t.branches), branches := {}, passengers := map[])
  }

  /** setInputTree as evidently intended: the cache is dropped with the branch names it was built from. */
  function AfterSetInputTreeResettingCache(b: Bus, t: Tree): (r: Bus)
    ensures Coherent(r)
    ensures forall e :: WellFormed(e, b) ==> WellFormed(e, r)
    ensures r == AfterSetInputTree(b, t).(knownLookups := map[])
  {
    AfterSetInputTree(b, t).(knownLookups := map[])
  }

  /** nextEvent: advance the entry, then read the event header; true unless the read raises. */
  function NextEventStep(b: Bus): (r: Step<Result<bool>>)
    requires b.inputTree.None? ==> b.branches == {}
    ensures r.bus.ientry == b.ientry + 1
    ensures r.result.Ok? ==> r.result.value
    ensures var f := GetImpl(b.(ientry := b.ientry + 1), EventHeaderBranch, "", HeaderAlternative);
            && (r.result.Ok? <==> f.result.Ok?)
            && (f.result.Ok? ==> r.bus == f.bus.(eventHeader := f.result.value.value.obj))
            && (f.result.Err? ==> r == Step(f.bus, Err(f.result.error)))
    ensures forall e :: WellFormed(e, b) ==> WellFormed(e, r.bus)
    ensures Coherent(b) ==> Coherent(r.bus)
  {
    var f := GetImpl(b.(ientry := b.ientry + 1), EventHeaderBranch, "", HeaderAlternative);
    match f.result
    case Ok(p) => Step(f.bus.(eventHeader := p.value.obj), Ok(true))
    case Err(error) => Step(f.bus, Err(error))
  }

  /** beforeFill: without an input tree, add the event header unless it was added this event. */
  function BeforeFillStep(less: (Elem, Elem) -> bool, b: Bus): (r: Step<Outcome>)
    ensures b.inputTree.Some? || EventHeaderBranch in b.filled ==> r == Step(b, Pass)
    ensures b.inputTree.None? && EventHeaderBranch !in b.filled ==>
              r == AddStep(less, b, EventHeaderBranch, HeaderPassenger(b.eventHeader))
    ensures forall e :: WellFormed(e, b) ==> WellFormed(e, r.bus)
    ensures Coherent(b) ==> Coherent(r.bus)
  {
    if b.inputTree.None? && EventHeaderBranch !in b.filled then
      AddStep(less, b, EventHeaderBranch, HeaderPassenger(b.eventHeader))
    else Step(b, Pass)
  }

  /**
   * Clear: the filled set is emptied. The visit with clearPassenger runs on
   * copies of the passengers, so nothing else changes.
   */
  function AfterClear(b: Bus): (r: Bus)
    ensures r.filled == {}
    ensures r.(filled := b.filled) == b
  {
    b.(filled := {})
  }

  /**
   * onEndOfFile: drop the passengers and bound branches, detach the input
   * tree and reset the entry counters; the catalog and the cache are kept.
   */
  function AfterEndOfFile(b: Bus): (r: Bus)
    ensures r.passengers == map[] && r.branches == {} && r.inputTree.None?
    ensures r.ientry == -1 && r.entries == -1
    ensures r.(passengers := b.passengers, branches := b.branches, inputTree := b.inputTree,
               ientry := b.ientry, entries := b.entries) == b
    ensures forall e :: WellFormed(e, b) ==> WellFormed(e, r)
  {
    b.(passengers := map[], branches := {}, inputTree := None, ientry := -1, entries := -1)
  }

  /** addDrop: keep a rule that compiles, reject one that does not. */
  function AddDropStep(e: Engine, b: Bus, rule: Pattern): (r: Step<Outcome>)
    ensures e.compiles(rule) ==> r == Step(b.(dropRules := b.dropRules + [rule]), Pass)
    ensures !e.compiles(rule) ==> r == Step(b, Fail(InvalidRegex(rule)))
    ensures WellFormed(e, b) ==> WellFormed(e, r.bus)
  {
    if e.compiles(rule) then Step(b.(dropRules := b.dropRules + [rule]), Pass)
    else Step(b, Fail(InvalidRegex(rule)))
  }

  // ---------------------------------------------------------------------
  // Properties of the operations.

  /**
   * A product added under the bus's own pass comes back from getObject with
   * that pass: the sorted value, as long as no input branch is bound to its key.
   */
  lemma AddThenGet(less: (Elem, Elem) -> bool, b: Bus, collectionName: string, x: Passenger)
    requires b.inputTree.None? ==> b.branches == {}
    requires b.passName != ""
    requires AddStep(less, b, collectionName, x).result == Pass
    requires StorageKey(collectionName, b.passName) !in b.branches
    ensures GetImpl(AddStep(less, b, collectionName, x).bus, collectionName, b.passName, AlternativeOf(x)).result
            == Ok(SortPassenger(less, x))
  {
    var key := StorageKey(collectionName, b.passName);
    var after := AddStep(less, b, collectionName, x).bus;
    assert KeyFor(collectionName, b.passName, after.knownLookups, after.branchNames) == Ok(key);
    assert after.passengers[key] == SortPassenger(less, x);
  }

  /**
   * The first product of a collection is also found without a pass name:
   * creating its key empties the cache and makes it the only key with the
   * collection's prefix, and the answer is then remembered.
   */
  lemma AddThenGetAnyPass(less: (Elem, Elem) -> bool, b: Bus, collectionName: string, x: Passenger)
    requires b.inputTree.None? ==> b.branches == {}
    requires b.branches <= b.passengers.Keys
    requires collectionName != EventHeaderBranch
    requires StorageKey(collectionName, b.passName) !in b.passengers
    requires forall n :: n in b.branchNames ==> !HasPrefix(n, collectionName + [Separator])
    requires AddStep(less, b, collectionName, x).result == Pass
    ensures var f := GetImpl(AddStep(less, b, collectionName, x).bus, collectionName, "", AlternativeOf(x));
            && f.result == Ok(SortPassenger(less, x))
            && f.bus.knownLookups == map[collectionName := StorageKey(collectionName, b.passName)]
  {
    var key := StorageKey(collectionName, b.passName);
    var prefix := collectionName + [Separator];
    var after := AddStep(less, b, collectionName, x).bus;
    assert after.branchNames == b.branchNames + [key] && after.knownLookups == map[];
    assert after.passengers[key] == SortPassenger(less, x);
    assert key !in after.branches;
    assert HasPrefix(key, prefix) by {
      assert key[..|prefix|] == prefix;
    }
    assert Resolve(after.branchNames, collectionName) == Resolved(key) by {
      PrefixMatchesAppend(b.branchNames, key, prefix);
    }
    assert KeyFor(collectionName, "", after.knownLookups, after.branchNames) == Ok(key);
    assert Extract(SortPassenger(less, x), AlternativeOf(x)) == Ok(SortPassenger(less, x));
    var f := GetImpl(after, collectionName, "", AlternativeOf(x));
    assert f.result == Ok(SortPassenger(less, x));
    assert CacheAfter(collectionName, "", key, map[]) == map[collectionName := key];
    assert f.bus == after.(knownLookups := map[collectionName := key]);
  }

  /**
   * The cache does not mask a new pass: once a collection resolves to one
   * key, adding it under another pass makes the empty-pass lookup raise
   * ProductAmbiguous, naming both keys in the order they were created.
   */
  lemma NewPassMakesLookupAmbiguous(less: (Elem, Elem) -> bool, b: Bus, collectionName: string, x: Passenger, want: Alternative)
    requires b.inputTree.None? ==> b.branches == {}
    requires Separator !in collectionName && collectionName != EventHeaderBranch
    requires Resolve(b.branchNames, collectionName).Resolved?
    requires StorageKey(collectionName, b.passName) !in b.filled
    requires StorageKey(collectionName, b.passName) !in b.passengers
    ensures GetImpl(AddStep(less, b, collectionName, x).bus, collectionName, "", want).result
            == Err(ProductAmbiguous(collectionName,
                     [Resolve(b.branchNames, collectionName).key, StorageKey(collectionName, b.passName)]))
  {
    var key := StorageKey(collectionName, b.passName);
    assert HasPrefix(key, collectionName + [Separator]) by {
      assert key[..|collectionName| + 1] == collectionName + [Separator];
    }
    NewKeyMakesResolvedNameAmbiguous(b.branchNames, collectionName, key);
  }

  /**
   * A fetch that succeeds gives the same value when repeated at the same
   * entry, although the first one may have filled the cache and bound a branch.
   */
  lemma FetchIsRepeatable(b: Bus, collectionName: string, passName: string, want: Alternative)
    requires b.inputTree.None? ==> b.branches == {}
    requires b.ientry >= 0
    requires GetImpl(b, collectionName, passName, want).result.Ok?
    ensures var first := GetImpl(b, collectionName, passName, want);
            GetImpl(first.bus, collectionName, passName, want).result == first.result
  {
    var key := KeyFor(collectionName, passName, b.knownLookups, b.branchNames).value;
    var first := GetImpl(b, collectionName, passName, want);
    assert KeyFor(collectionName, passName, first.bus.knownLookups, first.bus.branchNames) == Ok(key);
  }

  /** A second add to a key before Clear is rejected, whatever the value. */
  lemma AddTwiceIsRejected(less: (Elem, Elem) -> bool, b: Bus, collectionName: string, x: Passenger, y: Passenger)
    requires Separator !in collectionName
    ensures var after := AddStep(less, b, collectionName, x).bus;
            AddStep(less, after, collectionName, y) == Step(after, Fail(ProductExists(collectionName)))
  {
  }

  /**
   * After Clear the same product can be added again with a value of the same
   * alternative, and the catalog does not grow.
   */
  lemma AddAfterClear(less: (Elem, Elem) -> bool, b: Bus, collectionName: string, x: Passenger, y: Passenger)
    requires AddStep(less, b, collectionName, x).result == Pass
    requires AlternativeOf(y) == AlternativeOf(x)
    ensures var again := AddStep(less, AfterClear(AddStep(less, b, collectionName, x).bus), collectionName, y);
            && again.result == Pass
            && again.bus.products == AddStep(less, b, collectionName, x).bus.products
            && again.bus.branchNames == AddStep(less, b, collectionName, x).bus.branchNames
            && again.bus.passengers[StorageKey(collectionName, b.passName)] == SortPassenger(less, y)
  {
    var key := StorageKey(collectionName, b.passName);
    var after := AddStep(less, b, collectionName, x).bus;
    assert after.passengers[key] == SortPassenger(less, x);
    assert AlternativeOf(SortPassenger(less, x)) == AlternativeOf(y);
  }

  /** A value of another alternative is refused, and its key still counts as filled. */
  lemma MismatchedAddStillFillsKey(less: (Elem, Elem) -> bool, b: Bus, collectionName: string, x: Passenger)
    requires Separator !in collectionName
    requires StorageKey(collectionName, b.passName) !in b.filled
    requires StorageKey(collectionName, b.passName) in b.passengers
    requires AlternativeOf(b.passengers[StorageKey(collectionName, b.passName)]) != AlternativeOf(x)
    ensures var r := AddStep(less, b, collectionName, x);
            && r.result == Fail(TypeMismatch(x.typeName))
            && r.bus.passengers == b.passengers
            && StorageKey(collectionName, b.passName) in r.bus.filled
            && AddStep(less, r.bus, collectionName, x).result == Fail(ProductExists(collectionName))
  {
  }

  /**
   * A branch of the input tree is found by collection and pass once the tree
   * is attached: it is read at the current entry (0 before the first
   * event) and bound, so later lookups go back to the tree.
   */
  lemma SetInputTreeThenGet(b: Bus, t: Tree, collectionName: string, passName: string, want: Alternative)
    requires passName != "" || collectionName == EventHeaderBranch
    requires HasBranch(t, StorageKey(collectionName, passName))
    ensures var key := StorageKey(collectionName, passName);
            var f := GetImpl(AfterSetInputTree(b, t), collectionName, passName, want);
            var v := t.read(key, if b.ientry < 0 then 0 else b.ientry);
            && f.result == Extract(v, want)
            && f.bus.passengers == map[key := v]
            && f.bus.branches == {key}
  {
  }

  /**
   * Once a branch is bound, every lookup of its key re-reads the tree at the
   * current entry: after nextEvent the value of the next entry is returned.
   */
  lemma BoundBranchFollowsEntry(b: Bus, collectionName: string, passName: string, want: Alternative)
    requires b.inputTree.Some?
    requires passName != "" || collectionName == EventHeaderBranch
    requires StorageKey(collectionName, passName) in b.branches
    requires StorageKey(collectionName, passName) in b.passengers
    requires NextEventStep(b).result.Ok?
    ensures var key := StorageKey(collectionName, passName);
            var n := NextEventStep(b).bus;
            GetImpl(n, collectionName, passName, want).result == Extract(b.inputTree.value.read(key, b.ientry + 1), want)
  {
    var f := GetImpl(b.(ientry := b.ientry + 1), EventHeaderBranch, "", HeaderAlternative);
    assert NextEventStep(b).bus.branches == f.bus.branches;
    assert f.bus.branches == b.branches || f.bus.branches == b.branches + {EventHeaderBranch};
  }

  /** With a header branch in the tree, nextEvent loads the header of the next entry. */
  lemma NextEventLoadsHeader(b: Bus, header: Elem)
    requires b.inputTree.Some? && HasBranch(b.inputTree.value, EventHeaderBranch)
    requires EventHeaderBranch !in b.passengers && b.branches == {}
    requires b.inputTree.value.read(EventHeaderBranch, if b.ientry + 1 < 0 then 0 else b.ientry + 1) == HeaderPassenger(header)
    ensures NextEventStep(b).result == Ok(true)
    ensures NextEventStep(b).bus.eventHeader == header
    ensures NextEventStep(b).bus.ientry == b.ientry + 1
  {
  }

  /** Without an input tree, nextEvent raises unless the header was added to the bus. */
  lemma NextEventWithoutTreeNeedsHeader(b: Bus)
    requires b.inputTree.None? && b.branches == {}
    requires EventHeaderBranch !in b.passengers
    ensures NextEventStep(b).result == Err(ProductNotFound(EventHeaderBranch))
  {
  }

  /** A second beforeFill in the same event changes nothing. */
  lemma BeforeFillTwiceIsOnce(less: (Elem, Elem) -> bool, b: Bus)
    requires BeforeFillStep(less, b).result == Pass
    ensures BeforeFillStep(less, BeforeFillStep(less, b).bus) == Step(BeforeFillStep(less, b).bus, Pass)
  {
  }

  /** beforeFill without an input tree stores the bus's own event header. */
  lemma BeforeFillStoresHeader(less: (Elem, Elem) -> bool, b: Bus)
    requires b.inputTree.None? && EventHeaderBranch !in b.filled
    requires EventHeaderBranch in b.passengers ==>
               (b.passengers[EventHeaderBranch].value.Object? && b.passengers[EventHeaderBranch].typeName == EventHeaderType)
    ensures BeforeFillStep(less, b).result == Pass
    ensures BeforeFillStep(less, b).bus.passengers[EventHeaderBranch] == HeaderPassenger(b.eventHeader)
  {
  }

  /** After onEndOfFile nothing can be read until a product is added or a tree attached. */
  lemma OnEndOfFileForgetsProducts(b: Bus, collectionName: string, passName: string, want: Alternative)
    ensures GetImpl(AfterEndOfFile(b), collectionName, passName, want).result.Err?
  {
  }

  /**
   * The catalog kept over onEndOfFile is extended again by the next add of
   * the same product: the tag and the branch name appear twice, so a later
   * exists on that product is false.
   */
  lemma ReAddAfterEndOfFileRepeatsCatalog(less: (Elem, Elem) -> bool, b: Bus, collectionName: string, x: Passenger, y: Passenger)
    requires AddStep(less, b, collectionName, x).result == Pass
    requires StorageKey(collectionName, b.passName) !in b.passengers
    requires x.typeName == y.typeName
    ensures var first := AddStep(less, b, collectionName, x).bus;
            var second := AddStep(less, AfterClear(AfterEndOfFile(first)), collectionName, y).bus;
            && second.products == first.products + [Tag(collectionName, b.passName, x.typeName)]
            && second.branchNames == first.branchNames + [StorageKey(collectionName, b.passName)]
  {
  }

  /**
   * The repeated catalog entry of a re-add after onEndOfFile makes the
   * empty-pass lookup of that product ambiguous: its one key is listed twice.
   */
  lemma ReAddAfterEndOfFileMakesLookupAmbiguous(less: (Elem, Elem) -> bool, b: Bus, collectionName: string,
                                               x: Passenger, y: Passenger, want: Alternative)
    requires b.inputTree.None? ==> b.branches == {}
    requires collectionName != EventHeaderBranch
    requires forall n :: n in b.branchNames ==> !HasPrefix(n, collectionName + [Separator])
    requires AddStep(less, b, collectionName, x).result == Pass
    requires StorageKey(collectionName, b.passName) !in b.passengers
    ensures var key := StorageKey(collectionName, b.passName);
            var first := AddStep(less, b, collectionName, x).bus;
            var second := AddStep(less, AfterClear(AfterEndOfFile(first)), collectionName, y).bus;
            GetImpl(second, collectionName, "", want).result == Err(ProductAmbiguous(collectionName, [key, key]))
  {
    var key := StorageKey(collectionName, b.passName);
    var prefix := collectionName + [Separator];
    assert HasPrefix(key, prefix) by {
      assert key[..|prefix|] == prefix;
    }
    var first := AddStep(less, b, collectionName, x).bus;
    assert first.branchNames == b.branchNames + [key];
    var mid := AfterClear(AfterEndOfFile(first));
    assert mid.branchNames == first.branchNames && mid.passName == b.passName;
    assert mid.filled == {} && mid.passengers == map[] && mid.branches == {};
    var second := AddStep(less, mid, collectionName, y).bus;
    assert second.branchNames == b.branchNames + [key] + [key] && second.knownLookups == map[];
    RepeatedKeyIsAmbiguous(b.branchNames, collectionName, key);
    assert KeyFor(collectionName, "", second.knownLookups, second.branchNames)
        == Err(ProductAmbiguous(collectionName, [key, key]));
  }

  /**
   * The cache kept by setInputTree can answer for a collection that the new
   * tree makes ambiguous: the bus reads "X_a" where a fresh scan raises
   * ProductAmbiguous, which is what the corrected setInputTree does.
   */
  lemma SetInputTreeKeepsStaleLookup(b: Bus, read: (string, int) -> Passenger, want: Alternative)
    requires b.knownLookups == map["X" := "X_a"]
    ensures var t := Tree([TreeBranch(EventHeaderBranch, EventHeaderType), TreeBranch("X_a", "C"), TreeBranch("X_b", "C")], 1, read);
            && GetImpl(AfterSetInputTree(b, t), "X", "", want).result
               == Extract(read("X_a", if b.ientry < 0 then 0 else b.ientry), want)
            && GetImpl(AfterSetInputTreeResettingCache(b, t), "X", "", want).result
               == Err(ProductAmbiguous("X", ["X_a", "X_b"]))
            && !Coherent(AfterSetInputTree(b, t))
  {
    var t := Tree([TreeBranch(EventHeaderBranch, EventHeaderType), TreeBranch("X_a", "C"), TreeBranch("X_b", "C")], 1, read);
    var names := BranchNamesOf(t.branches);
    assert names == [EventHeaderBranch, "X_a", "X_b"];
    StaleCacheMasksAmbiguity();
    assert HasBranch(t, "X_a") by { assert names[1] == "X_a"; }
  }

  /** With a coherent cache, getImpl answers every lookup as it would with the cache emptied. */
  lemma CoherentLookupFindsCollection(b: Bus, collectionName: string, passName: string, want: Alternative)
    requires b.inputTree.None? ==> b.branches == {}
    requires Coherent(b)
    ensures GetImpl(b, collectionName, passName, want).result
            == GetImpl(b.(knownLookups := map[]), collectionName, passName, want).result
  {
    CoherentCacheIsTransparent(collectionName, passName, b.knownLookups, b.branchNames);
  }

  /**
   * The loop of setInputTree: the header tag first, then for each branch of
   * the tree its tag (unless it is the header) and its name.
   */
  method ReadBranchList(t: Tree) returns (products: seq<Tag>, branchNames: seq<string>)
    ensures products == CatalogOf(t.branches)
    ensures branchNames == BranchNamesOf(t.branches)
  {
    products := [EventHeaderTag];
    branchNames := [];
    var i := 0;
    while i < |t.branches|
      invariant 0 <= i <= |t.branches|
      invariant products == [EventHeaderTag] + BranchTags(t.branches[..i])
      invariant branchNames == BranchNamesOf(t.branches[..i])
    {
      var branch := t.branches[i];
      assert t.branches[..i + 1] == t.branches[..i] + [branch];
      BranchTagsAppend(t.branches[..i], branch);
      BranchNamesOfAppend(t.branches[..i], branch);
      if branch.name != EventHeaderBranch {
        products := products + [TagOfBranch(branch)];
      }
      branchNames := branchNames + [branch.name];
      i := i + 1;
    }
    assert t.branches[..i] == t.branches;
  }

  // ---------------------------------------------------------------------
  // The bus as an object.

  class EventBus {
    const passName: string
    const engine: Engine
    /** operator< of the element types, used by sortPassenger. */
    const less: (Elem, Elem) -> bool

    var passengers: map<string, Passenger>
    var branchesFilled: set<string>
    var products: seq<Tag>
    var branchNames: seq<string>
    var knownLookups: map<string, string>
    var dropRules: seq<Pattern>
    var inputTree: Option<Tree>
    var ientry: int
    var entries: int
    var branches: set<string>
    var eventHeader: Elem

    function State(): Bus
      reads this
    {
      Bus(passName, passengers, branchesFilled, products, branchNames, knownLookups, dropRules,
          inputTree, ientry, entries, branches, eventHeader)
    }

    ghost predicate Valid()
      reads this
    {
      WellFormed(engine, State())
    }

    /** A bus with nothing on it; header is the default-constructed event header. */
    constructor (passName: string, engine: Engine, less: (Elem, Elem) -> bool, header: Elem)
      ensures Valid() && Coherent(State())
      ensures State() == Bus(passName, map[], {}, [], [], map[], [], None, -1, -1, {}, header)
      ensures this.engine == engine && this.less == less
    {
      this.passName := passName;
      this.engine := engine;
      this.less := less;
      passengers := map[];
      branchesFilled := {};
      products := [];
      branchNames := [];
      knownLookups := map[];
      dropRules := [];
      inputTree := None;
      ientry := -1;
      entries := -1;
      branches := {};
      eventHeader := header;
    }

    method Add(collectionName: string, x: Passenger) returns (outcome: Outcome)
      requires Valid()
      modifies this`passengers, this`branchesFilled, this`products, this`branchNames, this`knownLookups
      ensures Valid()
      ensures Step(State(), outcome) == AddStep(less, old(State()), collectionName, x)
    {
      if Separator in collectionName {
        return Fail(IllegalName(collectionName));
      }
      var key := StorageKey(collectionName, passName);
      if key in branchesFilled {
        return Fail(ProductExists(collectionName));
      }
      branchesFilled := branchesFilled + {key};
      if key !in passengers {
        passengers := passengers[key := x];
        products := products + [Tag(collectionName, passName, x.typeName)];
        branchNames := branchNames + [key];
        knownLookups := map[];
      }
      if AlternativeOf(x) == AlternativeOf(passengers[key]) {
        passengers := passengers[key := SortPassenger(less, x)];
        outcome := Pass;
      } else {
        outcome := Fail(TypeMismatch(x.typeName));
      }
    }

    /** The loop of getImpl: the branch names that start with prefix, in order. */
    method ScanBranchNames(prefix: string) returns (matches: seq<string>)
      ensures matches == PrefixMatches(branchNames, prefix)
      ensures forall x :: x in matches <==> x in branchNames && HasPrefix(x, prefix)
    {
      var names := branchNames;
      matches := [];
      var i := 0;
      while i < |names|
        invariant 0 <= i <= |names|
        invariant matches == PrefixMatches(names[..i], prefix)
      {
        var name := names[i];
        assert names[..i + 1] == names[..i] + [name];
        PrefixMatchesAppend(names[..i], name, prefix);
        if HasPrefix(name, prefix) {
          matches := matches + [name];
        }
        i := i + 1;
      }
      assert names[..i] == names;
    }

    /**
     * The first half of getImpl: the storage key, from the header's name, the
     * pass name, the cache or a scan of the branch names; a scanned answer is
     * remembered.
     */
    method FindKey(collectionName: string, passName: string) returns (k: Result<string>)
      modifies this`knownLookups
      ensures k == KeyFor(collectionName, passName, old(knownLookups), branchNames)
      ensures k.Ok? ==> knownLookups == CacheAfter(collectionName, passName, k.value, old(knownLookups))
      ensures k.Err? ==> knownLookups == old(knownLookups)
    {
      if collectionName == EventHeaderBranch || passName != "" {
        return Ok(StorageKey(collectionName, passName));
      }
      if collectionName in knownLookups {
        return Ok(knownLookups[collectionName]);
      }
      var matches := ScanBranchNames(collectionName + [Separator]);
      if |matches| == 0 {
        return Err(ProductNotFound(collectionName));
      } else if |matches| > 1 {
        return Err(ProductAmbiguous(collectionName, matches));
      }
      knownLookups := knownLookups[collectionName := matches[0]];
      return Ok(matches[0]);
    }

    /** getObject<T> / getImpl<T>. */
    method GetObject(collectionName: string, passName: string, want: Alternative) returns (r: Result<Passenger>)
      requires Valid()
      modifies this`passengers, this`branches, this`knownLookups
      ensures Valid()
      ensures Step(State(), r) == GetImpl(old(State()), collectionName, passName, want)
    {
      var k := FindKey(collectionName, passName);
      if k.Err? {
        return Err(k.error);
      }
      var key := k.value;
      if key in passengers {
        if key in branches {
          var v := inputTree.value.read(key, ientry);
          passengers := passengers[key := v];
        }
        return Extract(passengers[key], want);
      }
      if inputTree.None? || key in branches || !HasBranch(inputTree.value, key) {
        return Err(ProductNotFound(collectionName));
      }
      var v := inputTree.value.read(key, if ientry < 0 then 0 else ientry);
      passengers := passengers[key := v];
      branches := branches + {key};
      r := Extract(v, want);
    }

    /** getCollection<T>: getObject of std::vector<T>, named by its whole type name. */
    method GetCollection(collectionName: string, passName: string, vectorType: string) returns (r: Result<seq<Elem>>)
      requires Valid()
      modifies this`passengers, this`branches, this`knownLookups
      ensures Valid()
      ensures var f := GetImpl(old(State()), collectionName, passName, Alternative(VectorShape, vectorType));
              && State() == f.bus
              && r.Ok? == f.result.Ok?
              && (r.Ok? ==> r.value == f.result.value.value.items)
              && (r.Err? ==> r.error == f.result.error)
    {
      var p := GetObject(collectionName, passName, Alternative(VectorShape, vectorType));
      match p
      case Ok(v) => return Ok(v.value.items);
      case Err(error) => return Err(error);
    }

    /** getMap<Key, Val>: getObject of a map of the given type. */
    method GetMap(collectionName: string, passName: string, mapType: string) returns (r: Result<map<Elem, Elem>>)
      requires Valid()
      modifies this`passengers, this`branches, this`knownLookups
      ensures Valid()
      ensures var f := GetImpl(old(State()), collectionName, passName, Alternative(MapShape, mapType));
              && State() == f.bus
              && r.Ok? == f.result.Ok?
              && (r.Ok? ==> r.value == f.result.value.value.entries)
              && (r.Err? ==> r.error == f.result.error)
    {
      var p := GetObject(collectionName, passName, Alternative(MapShape, mapType));
      match p
      case Ok(v) => return Ok(v.value.entries);
      case Err(error) => return Err(error);
    }

    method NextEvent() returns (r: Result<bool>)
      requires Valid()
      modifies this`ientry, this`passengers, this`branches, this`knownLookups, this`eventHeader
      ensures Valid()
      ensures Step(State(), r) == NextEventStep(old(State()))
    {
      ientry := ientry + 1;
      var h := GetObject(EventHeaderBranch, "", HeaderAlternative);
      match h
      case Ok(p) =>
        eventHeader := p.value.obj;
        return Ok(true);
      case Err(error) =>
        return Err(error);
    }

    method BeforeFill() returns (outcome: Outcome)
      requires Valid()
      modifies this`passengers, this`branchesFilled, this`products, this`branchNames, this`knownLookups
      ensures Valid()
      ensures Step(State(), outcome) == BeforeFillStep(less, old(State()))
    {
      if inputTree.None? && EventHeaderBranch !in branchesFilled {
        outcome := Add(EventHeaderBranch, HeaderPassenger(eventHeader));
      } else {
        outcome := Pass;
      }
    }

    method Clear()
      requires Valid()
      modifies this`branchesFilled
      ensures Valid()
      ensures State() == AfterClear(old(State()))
    {
      branchesFilled := {};
    }

    method OnEndOfFile()
      requires Valid()
      modifies this`passengers, this`branches, this`inputTree, this`ientry, this`entries
      ensures Valid()
      ensures State() == AfterEndOfFile(old(State()))
    {
      passengers := map[];
      branches := {};
      inputTree := None;
      ientry := -1;
      entries := -1;
    }

    /** setInputTree as written: the catalog is rebuilt from the tree; the cache is kept. */
    method SetInputTree(t: Tree)
      requires Valid()
      modifies this`inputTree, this`entries, this`products, this`branchNames, this`branches, this`passengers
      ensures Valid()
      ensures State() == AfterSetInputTree(old(State()), t)
    {
      inputTree := Some(t);
      entries := t.entryCount;
      branches := {};
      passengers := map[];
      products, branchNames := ReadBranchList(t);
    }

    /** setInputTree with the cache dropped as well. */
    method SetInputTreeResettingCache(t: Tree)
      requires Valid()
      modifies this`inputTree, this`entries, this`products, this`branchNames, this`branches, this`passengers,
               this`knownLookups
      ensures Valid() && Coherent(State())
      ensures State() == AfterSetInputTreeResettingCache(old(State()), t)
    {
      SetInputTree(t);
      knownLookups := map[];
    }

    method AddDrop(rule: Pattern) returns (outcome: Outcome)
      requires Valid()
      modifies this`dropRules
      ensures Valid()
      ensures Step(State(), outcome) == AddDropStep(engine, old(State()), rule)
    {
      if engine.compiles(rule) {
        dropRules := dropRules + [rule];
        outcome := Pass;
      } else {
        outcome := Fail(InvalidRegex(rule));
      }
    }

    /** shouldDrop: some drop rule matches the key. */
    function ShouldDrop(key: string): (r: bool)
      reads this
      ensures r <==> exists i :: 0 <= i < |dropRules| && engine.search(dropRules[i], key)
    {
      Products.ShouldDrop(engine, dropRules, key)
    }

    /** searchProducts on the bus's catalog (with the error of the failed pattern, see Products). */
    function SearchProducts(nameMatch: Pattern, passMatch: Pattern, typeMatch: Pattern): (r: Result<seq<Tag>>)
      reads this
      ensures r.Ok? <==> engine.compiles(Effective(nameMatch)) && engine.compiles(Effective(passMatch))
                         && engine.compiles(Effective(typeMatch))
      ensures r.Ok? ==> |r.value| <= |products|
      ensures r.Ok? ==> forall t :: t in r.value <==>
                t in products && TagMatches(engine, Effective(nameMatch), Effective(passMatch), Effective(typeMatch), t)
    {
      Products.SearchProducts(engine, products, nameMatch, passMatch, typeMatch)
    }

    /** exists(name, passName): exactly one catalog position matches the two patterns. */
    function Exists(name: string, passName: string): (r: Result<bool>)
      reads this
      ensures r.Ok? <==> engine.compiles(Effective(name)) && engine.compiles(Effective(passName))
                         && engine.compiles(MatchAll)
      ensures r.Ok? ==> (r.value <==> UniqueMatch(engine, products, Effective(name), Effective(passName), MatchAll))
    {
      FilterSingleIffUniqueMatch(engine, products, Effective(name), Effective(passName), MatchAll);
      Products.Exists(engine, products, name, passName)
    }

    /** exists(name): exactly one catalog position matches the name, whatever its pass. */
    function ExistsAnyPass(name: string): (r: Result<bool>)
      reads this
      ensures r.Ok? <==> engine.compiles(Effective(name)) && engine.compiles(MatchAll)
      ensures r.Ok? ==> (r.value <==> UniqueMatch(engine, products, Effective(name), MatchAll, MatchAll))
    {
      FilterSingleIffUniqueMatch(engine, products, Effective(name), MatchAll, MatchAll);
      Products.ExistsAnyPass(engine, products, name)
    }

    /** getProducts: the catalog, read without change. */
    function GetProducts(): seq<Tag>
      reads this
    {
      products
    }

    function GetPassName(): string {
      passName
    }
  }
}
