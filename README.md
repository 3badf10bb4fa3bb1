# Event bus and run header of the Framework event-processing library

This project models two parts of the Framework library:

- **The event bus** (`Event` with its `RootEvent` implementation). Processing stages put named, typed products on the bus and read them back. Each product is stored under a storage key. The key is the collection name, `_` and the pass name; the event header is the one exception and is stored under its bare name.
- **The run header** (`AbstractRunHeader` with its `RunHeader` implementation).

The bus keeps the following state beside the products:

- a set of the keys filled in the current event, which stops a key being written twice;
- a catalog of product tags and branch names;
- a cache of lookups made without a pass name;
- a list of drop rules (regular expressions);
- an optional input tree, from which products are read lazily.

Modules, one per component:

- `Wrappers`, `Exceptions`: `Option`, and the exceptions as values: `Result` for an operation that returns a value, `Outcome` for one that does not.
- `Regex`: an abstract engine (which patterns compile, which strings a pattern finds a match in), since POSIX regular expressions are not implemented.
- `Passengers`: the closed variant of values (object, vector, map), `sortPassenger` proved to give the unique sorted permutation, and `clearPassenger`.
- `Naming`: `makeBranchName`, the storage key, the split of a branch name at its first `_`, and the empty-pass scan with its cache.
- `Products`: product tags, and the functions `searchProducts`, `exists` and `shouldDrop`. It also holds the catalog `setInputTree` rebuilds from the branches of a tree.
- `Events`: the abstract bus state `Bus`, one function per operation giving the new state and the answer, and the lemmas about them. It also holds the class `EventBus`, whose methods work on the fields of the original class and are proved equal to those functions. In `getImpl` the scan over the branch names is a loop, and so is the catalog rebuild of `setInputTree`, which collects the tags and names before storing them.
- `RunHeaders`: the class `RunHeader`, which has a run number fixed at construction, start and end times, a detector name, a description and three parameter maps.

Behaviour of the source worth knowing before reading the model:

- **The empty-pass lookup.** `getImpl` scans `branchNames_` for the prefix `<collection>_` (include/Framework/Event.h:277-283), not the collection names of the catalog. On ambiguity it lists the full branch names (include/Framework/Event.h:284-299), one per matching position, so a name held twice is ambiguous too.
- **`exists`.** It does not use the lookup rule of `getObject`. It counts the tags `searchProducts` returns for the name and pass patterns and is true for exactly one (include/Framework/RootEvent.h:92-94). The patterns are unanchored and case-insensitive (src/Framework/RootEvent.cxx:40-53), so `exists("Hit")` also counts a product `EcalHits`.
- **`Clear`.** It empties the filled set only (src/Framework/RootEvent.cxx:133). The `clearPassenger` visit runs on the loop's copies of the passengers (src/Framework/RootEvent.cxx:134-136), so no stored value is reset.
- **The lookup cache.** Neither `onEndOfFile` (src/Framework/RootEvent.cxx:141-150) nor `setInputTree` (src/Framework/RootEvent.cxx:86-113) clears it; only the first `add` of a new key does (include/Framework/Event.h:117). See Findings.
- **Partial effects.** The cache is filled (include/Framework/Event.h:303), and a branch bound to its key (include/Framework/Event.h:361-363), before `std::get` may raise `bad_variant_access`. A key is marked filled (include/Framework/Event.h:86) before `add` raises `TypeMismatch`.
- **Bound branches.** A bound input branch is re-read on every lookup of its key, at the current entry (include/Framework/Event.h:312-318). There is no "newer entry" test on that path.

## Model

| member | source | states |
|---|---|---|
| Passengers.Sort | include/Framework/Event.h:241-242 | the stored vector has the same elements (multiset) as the input |
| Passengers.SortIsSorted | include/Framework/Event.h:241-242 | under a strict total order `operator<` the result is sorted: no element is less than an earlier one |
| Passengers.SortedPermutationIsUnique | include/Framework/Event.h:241-242 | two sorted permutations of the same elements are equal, so any sorting algorithm yields the modelled value |
| Passengers.SortPassenger | include/Framework/Event.h:236-252 | the variant alternative never changes; objects and maps are untouched; a vector keeps its elements |
| Passengers.SortPassengerIsTheSortedPermutation | include/Framework/Event.h:236-252 | a sorted vector passenger is the unique sorted permutation of the input vector |
| Passengers.SortPassengerIsIdempotent | include/Framework/Event.h:236-252 | sorting a passenger twice gives what sorting it once gives |
| Passengers.ClearPassenger | include/Framework/RootEvent.h:210-234 | vectors become empty, maps become empty, other objects are reset by their own Clear, and the alternative is kept |
| Naming.MakeBranchName | include/Framework/Event.h:140-150 | the key is the collection name, then `_` at its length, then the pass name |
| Naming.StorageKey | include/Framework/Event.h:74-78 | the key is the bare name exactly for the event header, and otherwise is makeBranchName of the collection and pass name |
| Naming.FindSeparator | src/Framework/RootEvent.cxx:105 | no result iff the name has no `_`; otherwise the index of the first `_` |
| Naming.SplitBranchName | src/Framework/RootEvent.cxx:105-107 | a name with `_` splits into a collection without `_` and a pass that rejoin to the name; a name without `_` splits into itself twice |
| Naming.SplitMakeBranchName | src/Framework/RootEvent.cxx:103-107 | splitting a key made from a legal collection name gives back the collection and the pass name |
| Naming.SplitWithoutSeparator | src/Framework/RootEvent.cxx:105-107 | a branch name without `_` splits into itself twice (npos + 1 wraps to 0) |
| Naming.HasPrefixComparesCharacters | include/Framework/Event.h:281 | the prefix test holds iff the prefix fits and the first characters of the name are those of the prefix, as compare(0, n, prefix) == 0 |
| Naming.PrefixSelectsCollection | include/Framework/Event.h:278-283 | for legal collection names c and d, the key of d starts with `c_` iff c == d |
| Naming.PrefixMatches | include/Framework/Event.h:277-283 | the matches are exactly the branch names with the prefix, and none exist iff no name has the prefix |
| Naming.PrefixMatchesAppend | include/Framework/Event.h:279-283 | a new branch name is appended to the matches exactly when it has the prefix |
| Naming.Resolve | include/Framework/Event.h:284-304 | not found iff no branch name has the prefix; resolved iff exactly one position holds a name with it, and then to that name; otherwise ambiguous, listing every matching position in order, so a name held twice is ambiguous |
| Naming.NewKeyMakesResolvedNameAmbiguous | include/Framework/Event.h:115-117 | a second key of a resolved collection makes it ambiguous, listing both keys in creation order |
| Naming.RepeatedKeyIsAmbiguous | include/Framework/Event.h:277-299 | a key listed twice, after names without the prefix, is ambiguous and listed twice |
| Naming.KeyFor | include/Framework/Event.h:263-306 | the header and a given pass name always give their key; with an empty pass a cached answer is returned as cached, whatever the branch names now say; on a cache miss the resolved scan's key is returned, and an ambiguous scan raises ProductAmbiguous listing the matches in order; an empty pass fails iff the cache misses and the scan does not resolve; ProductNotFound iff nothing has the prefix; with a coherent cache the key found is a branch name of the collection |
| Naming.CacheAfter | include/Framework/Event.h:271-303 | after an empty-pass cache miss the cache gains exactly the entry collection → key; every earlier entry is kept; in every other case the cache is unchanged |
| Naming.CoherentCacheIsTransparent | include/Framework/Event.h:271-275 | a cache that agrees with a fresh scan answers every lookup as an empty cache would |
| Naming.CacheAfterKeepsCoherence | include/Framework/Event.h:300-304 | remembering a resolved key keeps the cache coherent |
| Naming.StaleCacheMasksAmbiguity | src/Framework/RootEvent.cxx:86-95 | a cache entry kept from earlier branch names resolves a name that the new branch names make ambiguous |
| Products.Filter | src/Framework/RootEvent.cxx:48-55 | a tag is returned iff it is in the catalog and matches all three patterns |
| Products.FilterAppend | src/Framework/RootEvent.cxx:49-55 | the result keeps catalog order |
| Products.FilterSingleIffUniqueMatch | include/Framework/RootEvent.h:92-94 | one tag is returned iff exactly one catalog position matches |
| Products.SearchProducts | src/Framework/RootEvent.cxx:32-76 | succeeds iff all three effective patterns compile; the first pattern that fails, in the order name, pass, type, is the one named in the error; on success returns exactly the matching tags |
| Products.SearchProductsAsWritten | src/Framework/RootEvent.cxx:58-73 | the written code succeeds exactly when the corrected one does, with the same tags |
| Products.SearchErrorQuotesWrongPattern | src/Framework/RootEvent.cxx:64-73 | as written, an invalid name pattern raises RegexErr quoting the pass pattern, and an invalid pass pattern raises InvalidRegex quoting the name pattern |
| Products.SearchWithEmptyPatternsListsCatalog | src/Framework/RootEvent.cxx:40-46 | three empty patterns stand for `.*` and return the whole catalog |
| Products.Exists | include/Framework/RootEvent.h:92-94 | raises exactly when the corrected search raises, with its error |
| Products.ExistsAnyPass | include/Framework/RootEvent.h:81 | raises iff the name pattern does not compile; otherwise true iff exactly one catalog position's name matches, whatever its pass |
| Products.ExistsIffUniqueMatch | include/Framework/RootEvent.h:92-94 | for valid patterns exists never raises, and is true iff exactly one catalog position matches name and pass |
| Products.AmbiguousProductDoesNotExist | include/Framework/RootEvent.h:83-94 | two matching tags make exists false rather than an error |
| Products.ExistsAnyPassIgnoresPass | include/Framework/RootEvent.h:81 | exists(name) is true iff exactly one tag's name matches, whatever its pass |
| Products.ShouldDrop | src/Framework/RootEvent.cxx:152-158 | true iff some stored rule finds a match in the key; false with no rules |
| Products.ShouldDropAppend | src/Framework/RootEvent.cxx:22-30 | after a rule is appended, a key is dropped iff it was dropped before or the new rule matches it |
| Products.TagOfBranch | src/Framework/RootEvent.cxx:104-110 | the tag has the branch's class name; its collection and pass split the branch name at the first `_`, or are both the whole name without one |
| Products.BranchTags | src/Framework/RootEvent.cxx:102-111 | at most one tag per branch |
| Products.BranchTagsMembers | src/Framework/RootEvent.cxx:102-111 | one tag per branch other than the header, made by splitting its name, and nothing else |
| Products.CatalogOf | src/Framework/RootEvent.cxx:97-98 | the catalog starts with the header tag with an empty pass, and has at most one more tag than the tree has branches |
| Products.CatalogOfMembers | src/Framework/RootEvent.cxx:97-113 | after the header tag the catalog holds exactly the tags of the other branches |
| Products.BranchNamesOf | src/Framework/RootEvent.cxx:112 | every branch name, the header's included, in tree order |
| Products.TagOfWrittenBranch | src/Framework/RootEvent.cxx:103-110 | a branch written for (collection, pass) is read back as the tag of that collection and pass |
| Events.HeaderPassenger | src/Framework/RootEvent.cxx:127 | the passenger beforeFill adds holds the bus's header as an `ldmx::EventHeader` object |
| Events.Extract | include/Framework/Event.h:319 | `std::get<T>`: the passenger itself iff it holds the alternative asked for, otherwise bad_variant_access naming the type (also at Event.h:338 and 365) |
| Events.AddStep | include/Framework/Event.h:67-133 | IllegalName and ProductExists change nothing; otherwise the key is marked filled before the type check; success iff the key is new or holds the same alternative, and then the stored value is the sorted input; TypeMismatch leaves the passengers unchanged; a new key appends one tag and one branch name and empties the cache; an existing key leaves all three unchanged; the invariant and cache coherence are kept |
| Events.GetImpl | include/Framework/Event.h:259-367 | a failed lookup changes nothing and raises the lookup's error; after a successful key lookup the cache is CacheAfter of the old one; a result always holds the alternative asked for; a stored passenger with no bound branch is returned as stored, and a key with neither a passenger nor an input tree is not found, both with passengers and bound branches unchanged; a bound branch is re-read at the current entry, stored and returned; a key without a passenger that the tree holds and that is not bound is read at the current entry (0 before the first event), stored, bound and returned; otherwise the product is not found and nothing but the cache changes; only passengers, bound branches and cache change; the invariant and cache coherence are kept |
| Events.AfterSetInputTree | src/Framework/RootEvent.cxx:86-114 | the tree is attached with its entry count; the passengers and bound branches are emptied; the catalog and branch names are rebuilt from the tree; the cache, the current entry, the filled set, the drop rules, the event header and the pass name are kept |
| Events.AfterSetInputTreeResettingCache | src/Framework/RootEvent.cxx:86-95 | the corrected rebuild also empties the cache, so the cache is coherent afterwards |
| Events.NextEventStep | src/Framework/RootEvent.cxx:116-120 | the entry grows by exactly one; the header is fetched at the new entry; the answer is true unless that fetch raises, whose error is passed on |
| Events.BeforeFillStep | src/Framework/RootEvent.cxx:122-129 | with an input tree or an already filled header nothing happens; otherwise it is add of the bus's event header |
| Events.AfterClear | src/Framework/RootEvent.cxx:131-137 | the filled set is emptied and nothing else changes |
| Events.AfterEndOfFile | src/Framework/RootEvent.cxx:141-150 | passengers and bound branches are emptied, the tree is detached, entries are -1; catalog, branch names and cache are kept |
| Events.AddDropStep | src/Framework/RootEvent.cxx:22-30 | a rule that compiles is appended; an invalid one raises InvalidRegex and changes nothing |
| Events.AddThenGet | include/Framework/Event.h:312-319 | after a successful add, getObject with the bus's pass returns the sorted value, unless an input branch is bound to the key |
| Events.AddThenGetAnyPass | include/Framework/Event.h:271-304 | the first product of a collection is found without a pass, and the lookup is then cached |
| Events.NewPassMakesLookupAmbiguous | include/Framework/Event.h:115-117 | after a name resolved, adding it under a new pass makes the empty-pass lookup raise ProductAmbiguous with both keys |
| Events.FetchIsRepeatable | include/Framework/Event.h:309-366 | a successful fetch repeated at the same entry returns the same value |
| Events.AddTwiceIsRejected | include/Framework/Event.h:80-86 | a second add of a key before Clear raises ProductExists and changes nothing |
| Events.AddAfterClear | src/Framework/RootEvent.cxx:131-137 | after Clear a value of the same alternative can be added again, and the catalog does not grow |
| Events.MismatchedAddStillFillsKey | include/Framework/Event.h:86-130 | a mismatched add raises TypeMismatch, keeps the stored passenger, and still blocks the key for the rest of the event |
| Events.SetInputTreeThenGet | include/Framework/Event.h:344-366 | after setInputTree a branch of the tree is read at the current entry (0 before the first event) and bound |
| Events.BoundBranchFollowsEntry | include/Framework/Event.h:312-319 | a bound branch is re-read at the entry nextEvent moved to |
| Events.NextEventLoadsHeader | src/Framework/RootEvent.cxx:116-120 | with a header branch, nextEvent returns true and loads the header of the next entry |
| Events.NextEventWithoutTreeNeedsHeader | include/Framework/Event.h:320-326 | without an input tree or a stored header, nextEvent raises ProductNotFound |
| Events.BeforeFillTwiceIsOnce | src/Framework/RootEvent.cxx:122-129 | a second beforeFill in the same event changes nothing |
| Events.BeforeFillStoresHeader | src/Framework/RootEvent.cxx:122-129 | without an input tree beforeFill stores the bus's own header |
| Events.OnEndOfFileForgetsProducts | src/Framework/RootEvent.cxx:141-150 | after onEndOfFile every lookup raises |
| Events.ReAddAfterEndOfFileRepeatsCatalog | src/Framework/RootEvent.cxx:141-150 | re-adding a product after onEndOfFile appends its tag and branch name a second time |
| Events.ReAddAfterEndOfFileMakesLookupAmbiguous | include/Framework/Event.h:277-299 | after that re-add, the empty-pass lookup of the product raises ProductAmbiguous listing its one key twice |
| Events.SetInputTreeKeepsStaleLookup | src/Framework/RootEvent.cxx:86-95 | as written, a cached name still resolves in a tree that makes it ambiguous and the cache is incoherent; the corrected rebuild raises ProductAmbiguous |
| Events.CoherentLookupFindsCollection | include/Framework/Event.h:271-275 | with a coherent cache every getImpl returns what it returns with the cache emptied |
| Events.EventBus.constructor | include/Framework/Event.h:33 | a new bus is empty, has no input tree, has entries -1 and a coherent cache |
| Events.EventBus.Add | include/Framework/Event.h:67-133 | the new state and outcome are those of AddStep |
| Events.EventBus.ScanBranchNames | include/Framework/Event.h:277-283 | the loop collects exactly the branch names with the prefix, in order |
| Events.EventBus.FindKey | include/Framework/Event.h:263-306 | the key found is KeyFor of the old cache; on success the cache becomes CacheAfter of the old one, on failure it is unchanged |
| Events.EventBus.GetObject | include/Framework/Event.h:172-183 | the new state and result are those of GetImpl |
| Events.EventBus.GetCollection | include/Framework/Event.h:155-168 | getObject of the vector type named: its items, or the same error; the same new state |
| Events.EventBus.GetMap | include/Framework/Event.h:189-201 | getObject of the map type named: its entries, or the same error; the same new state |
| Events.EventBus.NextEvent | src/Framework/RootEvent.cxx:116-120 | the new state and answer are those of NextEventStep |
| Events.EventBus.BeforeFill | src/Framework/RootEvent.cxx:122-129 | the new state and outcome are those of BeforeFillStep |
| Events.EventBus.Clear | src/Framework/RootEvent.cxx:131-137 | the new state is AfterClear of the old |
| Events.EventBus.OnEndOfFile | src/Framework/RootEvent.cxx:141-150 | the new state is AfterEndOfFile of the old |
| Events.ReadBranchList | src/Framework/RootEvent.cxx:97-113 | the loop over the branches yields exactly the rebuilt catalog and the branch names in tree order |
| Events.EventBus.SetInputTree | src/Framework/RootEvent.cxx:86-114 | the new state is AfterSetInputTree of the old |
| Events.EventBus.SetInputTreeResettingCache | src/Framework/RootEvent.cxx:86-95 | the corrected setInputTree: its state is AfterSetInputTreeResettingCache, with a coherent cache |
| Events.EventBus.AddDrop | src/Framework/RootEvent.cxx:22-30 | the new state and outcome are those of AddDropStep |
| Events.EventBus.ShouldDrop | include/Framework/RootEvent.h:200 | true iff some drop rule of the bus matches the key |
| Events.EventBus.SearchProducts | src/Framework/RootEvent.cxx:32-76 | succeeds iff the three effective patterns compile, and then returns exactly the catalog's matching tags |
| Events.EventBus.Exists | include/Framework/RootEvent.h:92-94 | raises iff the name or pass pattern does not compile; otherwise true iff exactly one catalog position matches both |
| Events.EventBus.ExistsAnyPass | include/Framework/RootEvent.h:81 | raises iff the name pattern does not compile; otherwise true iff exactly one catalog position's name matches, whatever its pass |
| RunHeaders.RunHeader.constructor | include/Framework/RunHeader.h:31 | the run number is the one given; times 0, detector name and description empty, all parameter maps empty |
| RunHeaders.RunHeader.Default | include/Framework/AbstractRunHeader.h:33 | stands for AbstractRunHeader's default constructor only (RunHeader's own is commented out at include/Framework/RunHeader.h:33): run number 0 and every other default |
| RunHeaders.RunHeader.GetRunNumber | include/Framework/AbstractRunHeader.h:53 | returns the run number fixed at construction |
| RunHeaders.RunHeader.SetRunStart | include/Framework/AbstractRunHeader.h:60-68 | getRunStart returns the value set; only the start field may change |
| RunHeaders.RunHeader.SetRunEnd | include/Framework/AbstractRunHeader.h:75-82 | getRunEnd returns the value set; only the end field may change |
| RunHeaders.RunHeader.SetDetectorName | include/Framework/RunHeader.h:39-48 | getDetectorName returns the name set |
| RunHeaders.RunHeader.SetDescription | include/Framework/RunHeader.h:57-66 | getDescription returns the text set |
| RunHeaders.RunHeader.SetStringParameter | include/Framework/RunHeader.h:74-76 | the name now reads the last value set; other names are unchanged; only the string map may change |
| RunHeaders.RunHeader.GetStringParameter | include/Framework/RunHeader.h:89-91 | a value iff the name was set (map::at throws otherwise), and then the stored one |
| RunHeaders.RunHeader.SetIntParameter | include/Framework/RunHeader.h:99-101 | the name now reads the last value set; other names are unchanged; only the int map may change |
| RunHeaders.RunHeader.GetIntParameter | include/Framework/RunHeader.h:109-111 | a value iff the name was set, and then the stored one |
| RunHeaders.RunHeader.SetFloatParameter | include/Framework/RunHeader.h:124-126 | the name now reads the last value set; other names are unchanged; only the float map may change |
| RunHeaders.RunHeader.GetFloatParameter | include/Framework/RunHeader.h:134-136 | a value iff the name was set, and then the stored one |
| RunHeaders.RecordRunNumber | test/FunctionalCoreTest.cxx:52-55 | the run number stored as an int parameter reads back as the run number; the other maps are unchanged |

`getProducts` and `getPassName` of the bus are the read-only class functions `GetProducts` and `GetPassName`. They are plain field reads (include/Framework/RootEvent.h:146 and 181) and carry no contract of their own; what the catalog holds is stated by the members above. `SearchProducts`, `Exists` and `ExistsAnyPass` of the class apply the `Products` functions above to the bus's catalog. The plain getters of the run header are read-only functions too.

## Left out

- ROOT input and output is left out. `Branch`, `SetObject`, `SetStatus`, `GetReadEntry` and `ResetBranchAddresses` are not modelled, nor are the output tree, `newBranches_`, `createTree` and `setOutputTree`. An input tree is its list of branches, its entry count and an abstract read function.
- `add` with an output tree is left out. That path calls `Event::shouldDrop`, which has no return value. A product's type name is therefore the passenger's own `typeName`; the `typeid` name and the branch class name are not told apart.
- `*(T *)GetObject()` with the wrong `T` is undefined behaviour. The model stores what the branch holds, and `std::get` then raises `BadVariantAccess`.
- Events.FetchIsRepeatable: requires a non-negative entry. A bound branch looked up before the first `nextEvent` is read at entry -1, and that read is whatever the abstract read function gives; what ROOT does there is not modelled.
- Products.Exists: built on the corrected searchProducts, so an invalid name or pass pattern raises InvalidRegex quoting the failed pattern, where the source raises RegexErr quoting the pass pattern or InvalidRegex quoting the name pattern (see Findings).
- Events.EventBus.SearchProducts: the corrected searchProducts on the bus's catalog, with the same difference in its error as Products.Exists.
- Events.EventBus.Exists: the same difference in its error as Products.Exists.
- Events.EventBus.ExistsAnyPass: the same difference in its error as Products.Exists.
- Regular expressions are an abstract `Engine`; `regfree` has no counterpart.
- Error messages keep only the name they complain about. The "and pass" variants of ProductNotFound are not told apart. The ambiguous candidates are a list rather than a joined string.
- `std::sort` is modelled by its unique result, which needs `operator<` to be a strict total order. Passengers.SortPassengerIsTheSortedPermutation and Passengers.SortIsSorted assume this. For a strict weak order that is not total, the order of equivalent elements is not modelled.
- Passengers.ClearPassenger is a function on values, not an in-place visit. The source applies it only to copies inside `Clear`, which therefore changes no passenger.
- `ientry_` and `entries_` are 64-bit in the source and unbounded here; overflow is not modelled.
- The `RootEvent` constructor passes its own uninitialised `passName_` to `Event`. The bus instead takes the pass name as a constructor parameter, as `Event` does.
- The following are left out: `getEventHeader`, `getEventHeaderPtr`, `getEventNumber` and `getEventWeight` (accessors to the `eventHeader` field of the state), `Print`, `printPassenger`, `get()` returning an empty `std::any`, and `onEndOfEvent`, whose body is empty.
- Run header parts left out:
  - `getSoftwareTag`, because it returns the build-time constant `GIT_SHA1`, which is not part of this model;
  - `stream`, `Print` and `create`;
  - the ROOT class dictionary.
- Floats are kept as opaque bit patterns, since no arithmetic is done on them.

## Findings

| source | as written | input that shows it | evidently intended | confidence | as-written member | corrected member |
|---|---|---|---|---|---|---|
| src/Framework/RootEvent.cxx:86-95 | setInputTree rebuilds products_ and branchNames_ but keeps knownLookups_ | cache {X → X_a}, then a tree with branches EventHeader, X_a, X_b: getObject("X") silently reads X_a | the cache is dropped with the branch names, as add does (Event.h:117), so the lookup raises ProductAmbiguous | not executed; medium | Events.SetInputTreeKeepsStaleLookup | Events.AfterSetInputTreeResettingCache |
| src/Framework/RootEvent.cxx:58-73 | the error branches of the name and pass checks are swapped | name pattern "(" with pass "reco" raises RegexErr quoting "reco"; pass pattern "(" with name "hits" raises InvalidRegex quoting "hits" | InvalidRegex quoting the pattern that failed to compile | not executed; high | Products.SearchErrorQuotesWrongPattern | Products.SearchProducts |
