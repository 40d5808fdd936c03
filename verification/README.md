# Proofs about wuqiSpank

This project models the most intricate parts of wuqiSpank and proves what they promise. There are
two layers: jQuery 1.10.2, which the web application ships in full, and the application's own
Java and JavaScript code.

`dafny verify dfyconfig.toml` checks the whole project.

## What is modelled

**jQuery 1.10.2**

- *Selectors.* `Selectors` has Sizzle's compiler from tokens to nested matchers and proves it
  against chains of nodes. `SelectorMeaning` says what a selector means by positions in the tree
  alone, read from its last token, and proves the compiler right by it. `MatcherCache` has the
  walks that cache their answers in the nodes and proves them equal to walks that do not, and
  `SelectorRun` puts all together for whole runs. `Dom` is the tree they work on: a node is a tree
  and a path in it.
- *Document order.* `DocumentOrder` has the comparator that follows pointers, proved against the
  preorder traversal, and `uniqueSort` with its removal of duplicates in place. The comparator is
  wrong about the root of a detached tree; when exactly, is one of the results.
- *Callbacks, deferreds, `when`.* `Callbacks` is a machine that takes one step for every operation
  a callback or the outside issues, `CallbacksRuns` proves what all its runs keep,
  `CallbacksAdded` which functions added to a firing list are called, `CallbacksServed` whom a pass
  calls and with what, and `CallbackList` is the object with its hand-made repairs of indices.
  `Deferreds`, `DeferredRuns`, `DeferredOutcome` and `DeferredObject` do the same for three such
  lists wired to a deferred, `When` for `when`.
- *Data ids.* `DataStore` has the allocation of ids to nodes, with its free list and the recursion
  from cleaning a node through removing its events back to cleaning it.
- *Events.* `EventHandlers` proves the arrays partitioned by `delegateCount` against a flat log of
  registrations, `EventDispatch` the queue of handlers for an event against that log.
- *Queues and caches.* `FxQueue` has the animation queue with its sentinel, `BoundedCache` the
  caches of limited size, `Tokenizer` the tokenizer, `Select` the code that shares token lists with
  their cache, on the heap, and `SelectMeaning` what its shortcuts amount to.

**wuqiSpank**

- `SqlModel`: the list of tables without repeats, its key and the comparison of table sets.
- `TableOrder`: the rearrangement that puts heavy tables in the centre.
- `TraceEvents`: cutting a list of trace events into SQL statements.
- `RequestCodec`: export to an XML document and import from it.
- `HealthResult`: health checks whose messages are parsed back.
- `KeyTable`: paging and keyboard navigation over a table.
- `JavaText`, `Decimal`, `Wrappers`: the library functions these use.

Code that changes objects is a class here, each method proved against a function of the old state;
the results about whole runs are lemmas about those functions. A callback of the user is not a
function value: a run is any interleaving of operations, the return of a callback being one of
them, so a callback is whatever happens between its call and its return.

Where code and comments disagree, the code is what is modelled:

- The comment in `createCache` says that it keeps the most recent entries. A key stored twice
  within the limit is lost early, since shifting out its old occurrence deletes the entry
  (`BoundedCache.StoredTwiceIsLost`); the promise is kept exactly for histories without such keys
  (`BoundedCache.RecentAlwaysHeldIff`). With a limit of 0 everything is kept
  (`BoundedCache.BoundedIff`).
- `Callbacks.empty` does not reset `firingIndex`, so that a function added afterwards may be missed
  (`CallbacksAdded.EmptyThenAddIsMissed`); which functions are called is
  `CallbacksAdded.AddedEntryIsCalledIff`.
- A word without a type skips types deleted while it goes through them. For tables of special events
  that map on, some matching handlers may stay (`EventHandlers.EnumerationOrderMatters`,
  `EventHandlers.NamespaceWordDropsAllIff`).
- `jQuery.data` stores a value under the camel-cased name and reads the name as it is first, so that
  a value just written may not be what is read (`DataStore.WriteIsReadIff`), nor a removed one gone
  (`DataStore.RemovedIsGoneIff`).
- `uniqueSort` may keep repeats of a node among nodes of several detached trees
  (`DocumentOrder.AllRepeatsGoIff`).
- The importer reads entry and exit times from the client time (`RequestCodec.TripLosesTimes`);
  what comes back unchanged is `RequestCodec.TripChangesNothingIff`.
- The paging loops of `_fnSetFocus` show the row exactly for page lengths that are positive or -1
  (`KeyTable.LoopsShowIff`).

## Model

| member | source | states |
|---|---|---|
| `SelectorMeaning.CompiledMatcherMeans` | wuqiSpank/src/main/webapp/js/jquery-1.10.2.js:2653-2706 | for every page, context and token list without positional pseudos, the closure folded together by `addCombinator` and `elementMatcher` accepts a node exactly if the node matches the list, read from its last token to its first in terms of positions in the tree: filters hold, combinators relate to a matching node, and the context takes the place before the first token |
| `SelectorMeaning.CompoundMeans` | wuqiSpank/src/main/webapp/js/jquery-1.10.2.js:2657-2703 | a list of simple tokens means: every one of them, the first included, holds, and where the run asks for it the node lies strictly below a context node |
| `SelectorMeaning.FoundationOfSimple` | wuqiSpank/src/main/webapp/js/jquery-1.10.2.js:2657-2675 | without a leading combinator the first matcher accepts exactly the nodes strictly below a context node, or all where the run does not ask for that |
| `SelectorMeaning.FoundationOfCombinator` | wuqiSpank/src/main/webapp/js/jquery-1.10.2.js:2657-2675 | with one it accepts exactly the nodes a context node stands to as the combinator says, whatever the run asks for |
| `SelectorMeaning.LeadingCombinators` | wuqiSpank/src/main/webapp/js/jquery-1.10.2.js:1930-1935 | towards the context the four combinators mean: the parent, anything above, an earlier element sibling, the nearest one |
| `SelectorMeaning.RelatedIffStands` | wuqiSpank/src/main/webapp/js/jquery-1.10.2.js:2475-2490 | what a walk in a direction may stop at is what stands there: anywhere, or with none that counts in between |
| `Selectors.CompiledMatcherIsDeclarative` | wuqiSpank/src/main/webapp/js/jquery-1.10.2.js:2653-2706 | the same in terms of chains: some chain of nodes ends in the node, satisfies every simple selector and combinator, and starts at the context |
| `Selectors.FoldCorrect` | wuqiSpank/src/main/webapp/js/jquery-1.10.2.js:2690-2703 | after every prefix of the token list the matchers folded so far accept exactly the ends of chains for that prefix |
| `Selectors.WalkFindsRelated` | wuqiSpank/src/main/webapp/js/jquery-1.10.2.js:2475-2523 | the walk of a combinator, without cache, succeeds exactly if some node the combinator relates to the start is accepted by the inner matcher |
| `Selectors.ElementMatcherIsConjunction` | wuqiSpank/src/main/webapp/js/jquery-1.10.2.js:2525-2537 | the matcher of a compound accepts exactly what all its parts accept |
| `Selectors.FoundationChecksContext` | wuqiSpank/src/main/webapp/js/jquery-1.10.2.js:2653-2675 | the first matcher accepts exactly the nodes a chain may start from, given the context, `outermostContext` and a leading combinator |
| `Selectors.DescendantMeansAncestor` | wuqiSpank/src/main/webapp/js/jquery-1.10.2.js:1930-1935 | the blank combinator relates a node to every element strictly above it |
| `Selectors.ChildMeansParent` | wuqiSpank/src/main/webapp/js/jquery-1.10.2.js:1930-1935 | `>` relates a node to its parent element and to nothing else |
| `Selectors.FollowingMeansLaterSibling` | wuqiSpank/src/main/webapp/js/jquery-1.10.2.js:1930-1935 | `~` relates a node to every earlier element sibling |
| `Selectors.AdjacentMeansNextElement` | wuqiSpank/src/main/webapp/js/jquery-1.10.2.js:1930-1935 | `+` relates a node to the nearest earlier element sibling, other nodes in between ignored |
| `MatcherCache.Engine.Test` | wuqiSpank/src/main/webapp/js/jquery-1.10.2.js:2491-2522 | a compiled matcher that uses and fills the cells (`dirruns`, `doneName`, `cachedruns`) answers what the matcher without a cache answers, and keeps the cells truthful |
| `MatcherCache.Engine.TestCompound` | wuqiSpank/src/main/webapp/js/jquery-1.10.2.js:2525-2537 | the same for a compound, whose parts are called from the last to the first |
| `MatcherCache.Engine.TestFirst` | wuqiSpank/src/main/webapp/js/jquery-1.10.2.js:2479-2487 | the same for `>` and `+`, which use no cell |
| `MatcherCache.Engine.TestAll` | wuqiSpank/src/main/webapp/js/jquery-1.10.2.js:2489-2522 | the same for descendant and `~`: the whole cached walk equals the uncached one |
| `MatcherCache.Engine.Visit` | wuqiSpank/src/main/webapp/js/jquery-1.10.2.js:2504-2518 | one node of a cached walk either ends it with the right answer or leaves what is left of the walk with the same answer |
| `MatcherCache.Engine.Probe` | wuqiSpank/src/main/webapp/js/jquery-1.10.2.js:2510-2516 | testing a node gives the inner answer and stamps the cell of that node with it and with nothing else |
| `MatcherCache.WalkEnds` | wuqiSpank/src/main/webapp/js/jquery-1.10.2.js:2504-2521 | a walk that fails leaves only stamps that are true for every later walk of the same pass |
| `MatcherCache.FoundOwnStamp` | wuqiSpank/src/main/webapp/js/jquery-1.10.2.js:2506-2508 | meeting its own stamp of this run, a walk may take the answer stored there: a hit is a hit of this walk too, a miss of this pass means that nothing further up can match |
| `MatcherCache.HitEnds` | wuqiSpank/src/main/webapp/js/jquery-1.10.2.js:2513-2516 | a walk that succeeds leaves its stamps complete, since the combinator is the last part a compound tests |
| `SelectorRun.CompiledIsCacheable` | wuqiSpank/src/main/webapp/js/jquery-1.10.2.js:2653-2706 | every compiled token list tests its combinators last and uses each `doneName` once, which is what the cache rests on |
| `SelectorRun.CompileFromIsCacheable` | wuqiSpank/src/main/webapp/js/jquery-1.10.2.js:2820-2828 | so do all groups of a selector together, which share one counter of names |
| `SelectorRun.CompiledListIsDeclarative` | wuqiSpank/src/main/webapp/js/jquery-1.10.2.js:2820-2834 | a node is accepted by one of the compiled groups exactly if it matches one of the groups |
| `SelectorRun.Compiled.constructor` | wuqiSpank/src/main/webapp/js/jquery-1.10.2.js:2809-2834 | compiling establishes the invariant that makes the cached run correct |
| `SelectorRun.Run` | wuqiSpank/src/main/webapp/js/jquery-1.10.2.js:2708-2803 | an outermost run over a list of elements returns exactly the elements the selector means, in the order given, whatever earlier runs have left in the cells |
| `SelectorRun.MatchAny` | wuqiSpank/src/main/webapp/js/jquery-1.10.2.js:2739-2748 | the loop over the groups answers whether one of them accepts, cells included |
| `SelectorRun.NextPass` | wuqiSpank/src/main/webapp/js/jquery-1.10.2.js:2733-2752 | going on to the next element turns the misses of the last one into old misses, and the cells stay truthful |
| `DocumentOrder.PrecedesMeansBefore` | wuqiSpank/src/main/webapp/js/jquery-1.10.2.js:1731-1782 | the reference: a node precedes another in a depth-first traversal exactly if its path is lexicographically smaller |
| `DocumentOrder.SiblingCheck` | wuqiSpank/src/main/webapp/js/jquery-1.10.2.js:1362-1383 | without `sourceIndex`: negative exactly if the first sibling stands before the second, with the answers for a missing node |
| `DocumentOrder.IsLaterSibling` | wuqiSpank/src/main/webapp/js/jquery-1.10.2.js:1373-1380 | following `nextSibling` reaches the other node exactly if it stands later |
| `DocumentOrder.AncestorList` | wuqiSpank/src/main/webapp/js/jquery-1.10.2.js:1759-1767 | the list of ancestors, outermost first |
| `DocumentOrder.Sorter.Compare` | wuqiSpank/src/main/webapp/js/jquery-1.10.2.js:1731-1782 | the comparator with its pointer walks computes the specified order, and sets `hasDuplicate` exactly for identical nodes |
| `DocumentOrder.Sorter.CompareAt` | wuqiSpank/src/main/webapp/js/jquery-1.10.2.js:1769-1777 | the sibling check where two ancestor lists part decides the order of the nodes below |
| `DocumentOrder.DocumentIsSortedByPreorder` | wuqiSpank/src/main/webapp/js/jquery-1.10.2.js:1731-1782 | within the document the comparator is negative exactly if the first node precedes the second in preorder, positive exactly if it follows, and 0 exactly for the same node |
| `DocumentOrder.DocumentOrderIsTransitive` | wuqiSpank/src/main/webapp/js/jquery-1.10.2.js:1731-1782 | it is transitive there |
| `DocumentOrder.AgreesWithPreorderIff` | wuqiSpank/src/main/webapp/js/jquery-1.10.2.js:1745-1753 | within any one tree it agrees with preorder exactly if the tree is the document or neither node is the root |
| `DocumentOrder.DetachedRootSortsLast` | wuqiSpank/src/main/webapp/js/jquery-1.10.2.js:1745-1753 | the root of a detached tree sorts behind its own child |
| `DocumentOrder.KeptSameSet` | wuqiSpank/src/main/webapp/js/jquery-1.10.2.js:1868-1877 | leaving out repeats of the neighbour loses no node |
| `DocumentOrder.KeptIncreases` | wuqiSpank/src/main/webapp/js/jquery-1.10.2.js:1868-1877 | leaving them out of a sorted list makes it strictly increasing |
| `DocumentOrder.AllRepeatsGoIff` | wuqiSpank/src/main/webapp/js/jquery-1.10.2.js:1857-1880 | over several trees: whatever sort by comparing neighbours the host uses, no repeat stays in any list over some nodes exactly if the comparator answers 0 for no two of them |
| `DocumentOrder.IncomparableIff` | wuqiSpank/src/main/webapp/js/jquery-1.10.2.js:1731-1782 | which it does exactly for two nodes below the roots of different trees, neither the preferred document, and for two roots of such trees that the input does not tell apart |
| `DocumentOrder.PreferredComesFirst` | wuqiSpank/src/main/webapp/js/jquery-1.10.2.js:1778-1780 | nodes below the root of the preferred document come before those of all other trees |
| `DocumentOrder.RootsComeLast` | wuqiSpank/src/main/webapp/js/jquery-1.10.2.js:1745-1749 | the document comes before everything, and every other root behind all nodes that are no roots |
| `DocumentOrder.RootsKeepInputOrder` | wuqiSpank/src/main/webapp/js/jquery-1.10.2.js:1750-1752 | other roots keep the order in which they first occur in the input |
| `DocumentOrder.Sorter.UniqueSort` | wuqiSpank/src/main/webapp/js/jquery-1.10.2.js:1857-1880 | the same set of nodes remains; without repeats and strictly ascending by the comparator if it tells the nodes apart, in one tree strictly increasing in preorder |
| `DocumentOrder.Sorter.RemoveRepeats` | wuqiSpank/src/main/webapp/js/jquery-1.10.2.js:1868-1877 | the two loops together: the set is kept, and a sorted list becomes strictly increasing |
| `DocumentOrder.Sorter.CollectRepeats` | wuqiSpank/src/main/webapp/js/jquery-1.10.2.js:1869-1873 | the places collected are exactly those of elements equal to their predecessor, in order |
| `DocumentOrder.Sorter.SpliceOut` | wuqiSpank/src/main/webapp/js/jquery-1.10.2.js:1874-1876 | splicing them out from the back leaves exactly the elements that are no repeats |
| `Callbacks.StepKeepsCoherence` | wuqiSpank/src/main/webapp/js/jquery-1.10.2.js:3040-3164 | while firing, `firingLength` equals the length of the list, whatever callbacks do to it |
| `CallbacksRuns.EveryPassCallsItsRoster` | wuqiSpank/src/main/webapp/js/jquery-1.10.2.js:3040-3119 | in every run in which callbacks add, remove and fire, each pass calls the entries of its roster, additions during the pass included, in list order and exactly once, without those removed before their turn |
| `CallbacksRuns.CalledExactlyOnceUnlessDropped` | wuqiSpank/src/main/webapp/js/jquery-1.10.2.js:3047-3052 | the same for one entry: called once, or never if it was dropped |
| `CallbacksRuns.FiresAreServedInOrder` | wuqiSpank/src/main/webapp/js/jquery-1.10.2.js:3053-3056 | without `once` the passes are the fires asked for, nested ones included, first in first out and none lost; with `once` there is one pass at most |
| `CallbacksServed.PassesCarryWhatIsServed` | wuqiSpank/src/main/webapp/js/jquery-1.10.2.js:3040-3049 | in every run, operations of every kind included, the passes carry the arguments of the fires served, one pass each and in order, and a pass that repeats remembered arguments those of the latest pass before it |
| `CallbacksServed.PassesAreTheFires` | wuqiSpank/src/main/webapp/js/jquery-1.10.2.js:3047-3056 | so without `once` the passes of a list at rest are the fires of the run, arguments and all |
| `CallbacksServed.FireCallsTheList` | wuqiSpank/src/main/webapp/js/jquery-1.10.2.js:3040-3052 | if the callbacks only return, a fire calls every function of the list, in order, with its arguments |
| `CallbacksServed.LateAdditionsAreCalled` | wuqiSpank/src/main/webapp/js/jquery-1.10.2.js:3069-3098 | with memory, functions added to a list at rest are called at once, they alone, with the remembered arguments |
| `CallbacksServed.UniqueAddsMissing` | wuqiSpank/src/main/webapp/js/jquery-1.10.2.js:3074-3079 | with `unique` a list has no repeats, and every function asked for is in it |
| `CallbacksServed.FalseStopsThePass` | wuqiSpank/src/main/webapp/js/jquery-1.10.2.js:3048-3052 | with `stopOnFalse` a callback that returns false is the last its pass calls, and nothing is remembered |
| `CallbacksServed.OthersGoOn` | wuqiSpank/src/main/webapp/js/jquery-1.10.2.js:3047-3052 | in every other case the next entry is called |
| `CallbacksServed.DisabledCallsNothing` | wuqiSpank/src/main/webapp/js/jquery-1.10.2.js:3132-3135 | in every run a disabled list calls nothing and accepts no fire until it is emptied |
| `CallbacksServed.LockedIgnoresFires` | wuqiSpank/src/main/webapp/js/jquery-1.10.2.js:3141-3147 | a locked list that has fired or remembers nothing accepts no fire, and still repeats what it remembers |
| `CallbacksRuns.RemoveDropsExactly` | wuqiSpank/src/main/webapp/js/jquery-1.10.2.js:3100-3119 | `remove` takes out every registration of the function and keeps the order of the others |
| `CallbacksAdded.AddedEntryIsCalledIff` | wuqiSpank/src/main/webapp/js/jquery-1.10.2.js:3045-3089 | at any point of any run, operations of every kind included: once the callbacks have returned, the pass under way is finished and has called an entry added now exactly if `firingIndex` lay within the list |
| `CallbacksAdded.PassRunsOut` | wuqiSpank/src/main/webapp/js/jquery-1.10.2.js:3045-3065 | with as many returns as there are entries to come, and not with fewer, a pass is finished, and it has called those entries in order |
| `CallbacksAdded.EmptyThenAddIsMissed` | wuqiSpank/src/main/webapp/js/jquery-1.10.2.js:3126-3130 | a run from a fresh list in which a callback empties the list and adds to it, and what it added is not called |
| `CallbacksRuns.RunKeeps` | wuqiSpank/src/main/webapp/js/jquery-1.10.2.js:3040-3164 | the invariant of all runs behind these results |
| `CallbackList.List.Add` | wuqiSpank/src/main/webapp/js/jquery-1.10.2.js:3069-3098 | the method equals the step of the machine, unless-present test, replay from memory and extension of the pass included |
| `CallbackList.List.Remove` | wuqiSpank/src/main/webapp/js/jquery-1.10.2.js:3100-3119 | likewise, with the repair of `firingLength` and `firingIndex` at every splice |
| `CallbackList.List.FireWith` | wuqiSpank/src/main/webapp/js/jquery-1.10.2.js:3153-3164 | likewise: fires, queues or ignores |
| `CallbackList.List.Begin` | wuqiSpank/src/main/webapp/js/jquery-1.10.2.js:3040-3046 | likewise for the head of `fire` |
| `CallbackList.List.NextCallback` | wuqiSpank/src/main/webapp/js/jquery-1.10.2.js:3047-3052 | likewise for one turn of the firing loop, and which function it calls |
| `CallbackList.List.CallbackReturned` | wuqiSpank/src/main/webapp/js/jquery-1.10.2.js:3048-3064 | likewise for the return of a callback, with `stopOnFalse` and what follows the loop |
| `CallbackList.List.Clear` | wuqiSpank/src/main/webapp/js/jquery-1.10.2.js:3126-3130 | likewise for `empty` |
| `CallbackList.List.Disable` | wuqiSpank/src/main/webapp/js/jquery-1.10.2.js:3132-3135 | likewise |
| `CallbackList.List.Lock` | wuqiSpank/src/main/webapp/js/jquery-1.10.2.js:3141-3147 | likewise |
| `DeferredRuns.HandlersAreCalledOnce` | wuqiSpank/src/main/webapp/js/jquery-1.10.2.js:3180-3253 | in every run: nothing is called while pending; once settled, the list of that outcome calls every handler registered before, during or after settlement exactly once, in order and with the one value, and the other list calls nothing |
| `DeferredRuns.SettlementIsFinal` | wuqiSpank/src/main/webapp/js/jquery-1.10.2.js:3230-3253 | however a run goes on, state and value of a settled deferred stay and no further notification is served |
| `DeferredOutcome.FirstCallDecides` | wuqiSpank/src/main/webapp/js/jquery-1.10.2.js:3228-3253 | in every run: pending as long as nobody resolves or rejects; the first who does decides, `resolve` resolves and `reject` rejects, with the arguments of that call |
| `DeferredOutcome.NotificationsArrive` | wuqiSpank/src/main/webapp/js/jquery-1.10.2.js:3180-3185 | in every run up to then the passes over the progress list carry the arguments of the notifications, in order and none left out at rest, and each calls its roster |
| `DeferredRuns.ProceedSettles` | wuqiSpank/src/main/webapp/js/jquery-1.10.2.js:3237-3244 | resolving or rejecting sets the state, disables the other list and locks progress before any handler of the user runs |
| `DeferredRuns.ClosedStays` | wuqiSpank/src/main/webapp/js/jquery-1.10.2.js:3141-3147 | a locked progress list serves no further notification |
| `DeferredRuns.StepKeeps` | wuqiSpank/src/main/webapp/js/jquery-1.10.2.js:3180-3253 | the invariant of all runs behind these results |
| `DeferredObject.Object.constructor` | wuqiSpank/src/main/webapp/js/jquery-1.10.2.js:3228-3253 | three lists with their own functions registered first |
| `DeferredObject.Object.Register` | wuqiSpank/src/main/webapp/js/jquery-1.10.2.js:3233-3234 | `done`, `fail` and `progress` on the objects equal the step of the model |
| `DeferredObject.Object.SettleWith` | wuqiSpank/src/main/webapp/js/jquery-1.10.2.js:3247-3252 | likewise `resolveWith`, `rejectWith` and `notifyWith` |
| `DeferredObject.Object.CallbackReturned` | wuqiSpank/src/main/webapp/js/jquery-1.10.2.js:3048-3064 | likewise the return of a handler |
| `DeferredObject.Object.Proceed` | wuqiSpank/src/main/webapp/js/jquery-1.10.2.js:3237-3244 | likewise the run of the own functions of a settling list |
| `When.Master.StateIsVerdict` | wuqiSpank/src/main/webapp/js/jquery-1.10.2.js:3268-3317 | at any time the master is what the history of settlements says: broken by the first rejection, else fulfilled exactly if every position is filled, with the value of position i at place i, else open; `remaining` counts the positions not filled |
| `When.FulfilledExactlyAtTheLast` | wuqiSpank/src/main/webapp/js/jquery-1.10.2.js:3280-3290 | a resolution fulfils the master exactly if it is the last one missing |
| `When.VerdictIsFinal` | wuqiSpank/src/main/webapp/js/jquery-1.10.2.js:3280-3290 | later settlements change nothing |
| `When.Master.constructor` | wuqiSpank/src/main/webapp/js/jquery-1.10.2.js:3294-3315 | the call, said of its arguments: the first one rejected already breaks the master with its values; else it is open if one is waiting; else fulfilled, each place holding the plain value, the one value its promise was resolved with, or all of several; repeated notifications are shown at their places |
| `When.CallDecides` | wuqiSpank/src/main/webapp/js/jquery-1.10.2.js:3299-3315 | so does every history that has what the arguments give |
| `When.Master.Register` | wuqiSpank/src/main/webapp/js/jquery-1.10.2.js:3299-3308 | one turn of its loop |
| `When.Master.OnDone` | wuqiSpank/src/main/webapp/js/jquery-1.10.2.js:3280-3290 | a resolution fills its place with the value, or all of several, counts down, and fulfils an open master at 0 |
| `When.Master.OnFail` | wuqiSpank/src/main/webapp/js/jquery-1.10.2.js:3303 | a rejection rejects the master, once |
| `When.Master.OnProgress` | wuqiSpank/src/main/webapp/js/jquery-1.10.2.js:3282-3286 | a notification joins those heard; the progress values and what has been passed on remain those of all heard so far |
| `When.Master.PassesOnUntilSettled` | wuqiSpank/src/main/webapp/js/jquery-1.10.2.js:3282-3286 | a notification is passed on exactly if it came before the settlement that settled the master, and place i of what is passed on is the latest notification of position i up to then |
| `When.Master.AllPassedOnWhileOpen` | wuqiSpank/src/main/webapp/js/jquery-1.10.2.js:3282-3286 | an open master has passed on every notification |
| `When.PassedOnAppend` | wuqiSpank/src/main/webapp/js/jquery-1.10.2.js:3282-3286 | one notification more: what is passed on stays the first of those heard, each with the latest of all positions |
| `DataStore.IdsNeverClash` | wuqiSpank/src/main/webapp/js/jquery-1.10.2.js:3568-3745 | under every interleaving of writes, lookups, removals, event changes and cleanups, ids of nodes are distinct, the free list has no repeats and no id in use, and all ids lie below `guid` |
| `DataStore.IdsAreConserved` | wuqiSpank/src/main/webapp/js/jquery-1.10.2.js:3594-3608 | no step loses an id: the ids used and freed together stay, or gain one from the counter |
| `DataStore.FreedIdIsReused` | wuqiSpank/src/main/webapp/js/jquery-1.10.2.js:3594-3602 | the id of a cleaned node is the next one handed out |
| `DataStore.DataIsWritten` | wuqiSpank/src/main/webapp/js/jquery-1.10.2.js:3612-3635 | a value is stored under the camel-cased name, pairs under their own names; no other value of any node changes |
| `DataStore.WriteIsReadIff` | wuqiSpank/src/main/webapp/js/jquery-1.10.2.js:3633-3651 | a value just written is what reading its name gives, exactly if the name is camel-cased or is not itself among the properties with another value |
| `DataStore.DashedNameHidesWrite` | wuqiSpank/src/main/webapp/js/jquery-1.10.2.js:3612-3651 | a pair stored under a dashed name hides what is written to that name later |
| `DataStore.DataIsRemoved` | wuqiSpank/src/main/webapp/js/jquery-1.10.2.js:3674-3738 | removing user data takes exactly the properties named, by the rules for names and lists, or all; nothing else changes |
| `DataStore.PrivateIsRemoved` | wuqiSpank/src/main/webapp/js/jquery-1.10.2.js:3674-3738 | likewise for private entries; without a name everything of the node goes |
| `DataStore.RemovedIsGoneIff` | wuqiSpank/src/main/webapp/js/jquery-1.10.2.js:3680-3691 | after removal a name reads as absent exactly if it was not there in two forms |
| `DataStore.EventTypesLeft` | wuqiSpank/src/main/webapp/js/jquery-1.10.2.js:4877-4905 | an event removal takes the handlers of that type filed under its bound type, a type goes with its last handler, all else stays |
| `DataStore.EventsAreRemoved` | wuqiSpank/src/main/webapp/js/jquery-1.10.2.js:4900-4918 | with the last event the events and the handle go, and with the last entry the id; data and other private entries stay |
| `DataStore.CleanKeeps` | wuqiSpank/src/main/webapp/js/jquery-1.10.2.js:6664-6715 | cleaning any list of nodes, repeats included, keeps the invariant |
| `DataStore.DataCache.InternalData` | wuqiSpank/src/main/webapp/js/jquery-1.10.2.js:3568-3655 | the method equals the specified effect and answers what is stored under the name then: a lookup that finds nothing allocates nothing |
| `DataStore.DataCache.InternalRemoveData` | wuqiSpank/src/main/webapp/js/jquery-1.10.2.js:3657-3745 | likewise, with the removal of the whole entry once it is empty |
| `DataStore.DataCache.CleanOne` | wuqiSpank/src/main/webapp/js/jquery-1.10.2.js:6676-6712 | cleaning a node releases its id exactly once, although removing its events may come back to clean it |
| `DataStore.DataCache.EventRemove` | wuqiSpank/src/main/webapp/js/jquery-1.10.2.js:4900-4918 | removing events drops the "events" entry, and so the data, when the last one goes |
| `DataStore.DataCache.CleanData` | wuqiSpank/src/main/webapp/js/jquery-1.10.2.js:6664-6715 | the loop over nodes |
| `EventHandlers.Events.Add` | wuqiSpank/src/main/webapp/js/jquery-1.10.2.js:4774-4840 | `add` appends its registrations to the log and keeps every array equal to the delegated, then the direct registrations of its type |
| `EventHandlers.RegisteredIff` | wuqiSpank/src/main/webapp/js/jquery-1.10.2.js:4774-4822 | a call registers a handler for every word with a type, under the delegate type if there is a selector and under the bind type if not, and no other |
| `EventHandlers.RegisteredLastFirst` | wuqiSpank/src/main/webapp/js/jquery-1.10.2.js:4774-4776 | the last word first |
| `EventHandlers.OnePartGrows` | wuqiSpank/src/main/webapp/js/jquery-1.10.2.js:4832-4837 | with a selector only the delegated part of an array grows, at its end, else only the direct part |
| `EventHandlers.Events.AddOne` | wuqiSpank/src/main/webapp/js/jquery-1.10.2.js:4832-4837 | inserting at `delegateCount` or at the end is appending to the log |
| `EventHandlers.Events.Remove` | wuqiSpank/src/main/webapp/js/jquery-1.10.2.js:4858-4908 | `remove` works the words off from the last: it drops exactly the registrations each asks for, where a word without a type meets the types in use in the order the host enumerates them, and keeps the order of the others |
| `EventHandlers.TypedWordLeavesIff` | wuqiSpank/src/main/webapp/js/jquery-1.10.2.js:4871-4897 | a word with a type leaves every handler but those of that type, kept under its bound type, that agree with function, namespaces and selector as far as given |
| `EventHandlers.OffUndoesOn` | wuqiSpank/src/main/webapp/js/jquery-1.10.2.js:4774-4908 | `off` with the arguments of an `on` takes back just that |
| `EventHandlers.Events.RemoveFromAll` | wuqiSpank/src/main/webapp/js/jquery-1.10.2.js:4864-4869 | a word without a type goes through the types in use in some order, skipping those deleted meanwhile; the log afterwards is the one specified for that order |
| `EventHandlers.VisitsDropReached` | wuqiSpank/src/main/webapp/js/jquery-1.10.2.js:4864-4869 | such a loop drops exactly the registrations asked for whose type is reached: some type not deleted before its turn is mapped to it |
| `EventHandlers.Events.RemoveMatching` | wuqiSpank/src/main/webapp/js/jquery-1.10.2.js:4871-4908 | one type: its matching registrations go, and its array when it is empty |
| `EventHandlers.SpliceMatching` | wuqiSpank/src/main/webapp/js/jquery-1.10.2.js:4876-4897 | splicing backwards with the countdown of `delegateCount` filters the array and leaves the right count |
| `EventHandlers.FirstAreDelegated` | wuqiSpank/src/main/webapp/js/jquery-1.10.2.js:4832-4837 | in an array the first `delegateCount` handlers are exactly those with a selector, and no array is empty |
| `EventHandlers.NamespaceWordDropsAllIff` | wuqiSpank/src/main/webapp/js/jquery-1.10.2.js:4864-4869 | for every order: a word with namespaces only drops every matching handler exactly if each of their types is reached |
| `EventHandlers.EnumerationOrderMatters` | wuqiSpank/src/main/webapp/js/jquery-1.10.2.js:4864-4869 | with two types each mapped to the other one matching handler is left, and the order of enumeration decides which |
| `EventHandlers.NamespaceWordDropsAll` | wuqiSpank/src/main/webapp/js/jquery-1.10.2.js:4864-4869 | in every order it drops them all where the table of special events maps no further |
| `EventHandlers.OwnSpecialIsSettled` | wuqiSpank/src/main/webapp/js/jquery-1.10.2.js:5271-5290 | among them the table jQuery sets up itself |
| `EventHandlers.NamespacesAreASubset` | wuqiSpank/src/main/webapp/js/jquery-1.10.2.js:4873-4873 | on sorted names the pattern for namespaces finds a subset |
| `EventDispatch.DelegatedRunIff` | wuqiSpank/src/main/webapp/js/jquery-1.10.2.js:5115-5152 | a delegated handler is queued for exactly the eligible nodes from the target up to below the element that its selector finds |
| `EventDispatch.BubblingGoesUp` | wuqiSpank/src/main/webapp/js/jquery-1.10.2.js:5126-5152 | each node has one group at most, deeper nodes come first, and a group holds the matching handlers in the order of registration |
| `EventDispatch.AscentIsThePath` | wuqiSpank/src/main/webapp/js/jquery-1.10.2.js:5127-5127 | the walk visits exactly the nodes on that path, each below the one before |
| `EventDispatch.QueueFollowsTheLog` | wuqiSpank/src/main/webapp/js/jquery-1.10.2.js:5115-5162 | on the arrays kept by `add` and `remove` the queue is that of the registrations: delegated groups, then, last, the direct handlers |
| `EventDispatch.Handlers` | wuqiSpank/src/main/webapp/js/jquery-1.10.2.js:5115-5162 | the queue returned: direct handlers, if any, are its last group, at the element and in order; the groups before go up the path, each with the delegated handlers whose selector finds its node, unless disabled elements or other buttons exclude it; there are no others |
| `EventDispatch.BubblingAreGroups` | wuqiSpank/src/main/webapp/js/jquery-1.10.2.js:5121-5152 | the groups of delegated handlers are just those |
| `EventDispatch.Climb` | wuqiSpank/src/main/webapp/js/jquery-1.10.2.js:5126-5152 | its walk up to the element |
| `EventDispatch.MatchesAt` | wuqiSpank/src/main/webapp/js/jquery-1.10.2.js:5133-5147 | remembering selectors already tried does not change which handlers match |
| `FxQueue.SentinelMarksTheActive` | wuqiSpank/src/main/webapp/js/jquery-1.10.2.js:3921-3954 | in every run with each `next` called once at most, one function at most is at work, and the sentinel is in the array, in front and once, exactly then |
| `FxQueue.StartedInOrderOnce` | wuqiSpank/src/main/webapp/js/jquery-1.10.2.js:3921-3954 | functions start exactly once each, in the order they were pushed, and none waits while none is at work |
| `FxQueue.EmptyFiresAtTheEnd` | wuqiSpank/src/main/webapp/js/jquery-1.10.2.js:3951-3964 | the empty hook fires only with nothing left, once per hooks at most, and it has fired once the last function is done |
| `FxQueue.ReturnDoesNothing` | wuqiSpank/src/main/webapp/js/jquery-1.10.2.js:3948-3953 | after a function has been called the rest of `dequeue` has no effect |
| `FxQueue.SecondNextOverlapsIff` | wuqiSpank/src/main/webapp/js/jquery-1.10.2.js:3927-3935 | a second call of `next` while a function is at work puts two to work exactly if one is waiting |
| `FxQueue.SecondNextPutsTwoToWork` | wuqiSpank/src/main/webapp/js/jquery-1.10.2.js:3927-3929 | such a run: of three functions pushed the first calls `next` twice, and two are at work at once |
| `FxQueue.Element.Dequeue` | wuqiSpank/src/main/webapp/js/jquery-1.10.2.js:3921-3954 | the method equals the step of the machine and says which function it calls |
| `FxQueue.Element.Push` | wuqiSpank/src/main/webapp/js/jquery-1.10.2.js:3969-3990 | likewise, with the dequeue that starts an idle queue |
| `FxQueue.Element.Next` | wuqiSpank/src/main/webapp/js/jquery-1.10.2.js:3927-3929 | likewise |
| `FxQueue.Element.Return` | wuqiSpank/src/main/webapp/js/jquery-1.10.2.js:3951-3953 | likewise |
| `BoundedCache.BoundedIff` | wuqiSpank/src/main/webapp/js/jquery-1.10.2.js:1298-1310 | a cache never exceeds its limit, whatever is stored, exactly if the limit is not 0 |
| `BoundedCache.PresentAfter` | wuqiSpank/src/main/webapp/js/jquery-1.10.2.js:1303-1308 | one store more, repeats of a key included: its key is there, the key shifted out is not, others are as before |
| `BoundedCache.PresentIsRecent` | wuqiSpank/src/main/webapp/js/jquery-1.10.2.js:1303-1306 | a key that is present was among the last stores up to the limit |
| `BoundedCache.RecentAlwaysHeldIff` | wuqiSpank/src/main/webapp/js/jquery-1.10.2.js:1304-1305 | after every prefix of a history, however it goes on with new keys, exactly the keys of the most recent stores are held, if and only if there is a limit and no key is stored twice within it |
| `BoundedCache.StoredTwiceIsLost` | wuqiSpank/src/main/webapp/js/jquery-1.10.2.js:1301-1308 | limit 2 and stores of a, a, b: a is among the last two stores and not held |
| `BoundedCache.MissesAreSpaced` | wuqiSpank/src/main/webapp/js/jquery-1.10.2.js:1301-1308 | a history that stores only keys that are missing never repeats one within the limit |
| `BoundedCache.MostRecentExactly` | wuqiSpank/src/main/webapp/js/jquery-1.10.2.js:1304-1305 | so such a history holds exactly the most recent entries |
| `BoundedCache.Cache.Put` | wuqiSpank/src/main/webapp/js/jquery-1.10.2.js:1301-1309 | the cache equals what its history of stores says, every present key with its latest value |
| `Tokenizer.TokensSpellTheSelector` | wuqiSpank/src/main/webapp/js/jquery-1.10.2.js:2398-2463 | an accepted selector is spelled by its tokens with the commas between the groups; no group is empty, and only the empty selector has none |
| `Tokenizer.TokensAreWhatIsRead` | wuqiSpank/src/main/webapp/js/jquery-1.10.2.js:2413-2463 | an accepted selector is read from its start to its end, each token being what a scanner answers there and groups being parted by what the comma pattern matches; a rejected one where no scanner reads on |
| `Tokenizer.ScannedReads` | wuqiSpank/src/main/webapp/js/jquery-1.10.2.js:2413-2451 | at every point what has been read and what is left make up the selector |
| `Tokenizer.ToSelectorConcat` | wuqiSpank/src/main/webapp/js/jquery-1.10.2.js:2465-2473 | the text of a list of tokens is that of its parts |
| `Select.Sizzle.Tokenize` | wuqiSpank/src/main/webapp/js/jquery-1.10.2.js:2398-2463 | with the cache or without, the groups are those of tokenizing afresh, in an outer array of the caller's own, or an error |
| `Select.Sizzle.Read` | wuqiSpank/src/main/webapp/js/jquery-1.10.2.js:2413-2451 | the loops over commas, combinators and filters |
| `Select.Sizzle.Store` | wuqiSpank/src/main/webapp/js/jquery-1.10.2.js:2461-2462 | storing keeps every cached list equal to tokenizing its selector |
| `Select.Sizzle.Select` | wuqiSpank/src/main/webapp/js/jquery-1.10.2.js:2845-2907 | the token lists in the cache stay as they are, and what is compiled is either the selector as it is or its shortcut |
| `Select.Sizzle.Shorten` | wuqiSpank/src/main/webapp/js/jquery-1.10.2.js:2854-2868 | the shortcut through a leading id |
| `Select.Sizzle.Reduce` | wuqiSpank/src/main/webapp/js/jquery-1.10.2.js:2870-2898 | the seed is what the last token of the last compound finds that finds anything; it is the result if it is empty or the other tokens spell nothing, else exactly those, in order, are left for it |
| `Select.CompiledTextIsSpelled` | wuqiSpank/src/main/webapp/js/jquery-1.10.2.js:2866-2890 | the text the compiled function is cached under is spelled by the tokens it is compiled from |
| `SelectMeaning.SelectStandsForMeant` | wuqiSpank/src/main/webapp/js/jquery-1.10.2.js:2845-2907 | main result: with finders that find what their token describes and ids that are unique, a selector of one group leads exactly to the elements below the context that match it, whatever shortcut and seed were taken |
| `SelectMeaning.ReducedStandsForMeant` | wuqiSpank/src/main/webapp/js/jquery-1.10.2.js:2870-2898 | the same for the seed alone |
| `SelectMeaning.IdIsContext` | wuqiSpank/src/main/webapp/js/jquery-1.10.2.js:2854-2868 | what follows a leading id means in the document what it means from the element with that id |
| `SelectMeaning.MatchIsBelow` | wuqiSpank/src/main/webapp/js/jquery-1.10.2.js:2883-2886 | what matches lies below the context, or below its parent behind a leading sibling combinator |
| `SqlModel.CaseAndBlanksDoNotMatter` | wuqiSpank/src/main/java/org/wuqispank/model/DefaultBaseTable.java:11-16 | neither case nor blanks around a name change what `getName` answers |
| `SqlModel.SameNameIff` | wuqiSpank/src/main/java/org/wuqispank/model/DefaultBaseTable.java:11-16 | names are taken for the same exactly if they are, but for case and blanks around them |
| `SqlModel.LessIff` | wuqiSpank/src/main/java/org/wuqispank/model/DefaultSqlModel.java:423-427 | the order of names is that of a dictionary |
| `SqlModel.Model.AddTable` | wuqiSpank/src/main/java/org/wuqispank/model/DefaultSqlModel.java:85-92 | of all tables offered the first of each name is listed and reported, once |
| `SqlModel.FirstsKeepTheNames` | wuqiSpank/src/main/java/org/wuqispank/model/DefaultSqlModel.java:85-92 | those have the names of all and repeat none |
| `SqlModel.Model.FindTable` | wuqiSpank/src/main/java/org/wuqispank/model/DefaultSqlModel.java:74-83 | a table is found exactly if its name is listed |
| `SqlModel.Model.GetSortedTables` | wuqiSpank/src/main/java/org/wuqispank/model/DefaultSqlModel.java:423-427 | the list itself is put in ascending order of names |
| `SqlModel.Model.GetKey` | wuqiSpank/src/main/java/org/wuqispank/model/DefaultSqlModel.java:52-66 | the first call answers the key of type and names, later ones the same text |
| `SqlModel.KeyIsCanonical` | wuqiSpank/src/main/java/org/wuqispank/model/DefaultSqlModel.java:52-66 | the key depends on the type and the set of names only |
| `SqlModel.KeyDetermines` | wuqiSpank/src/main/java/org/wuqispank/model/DefaultSqlModel.java:52-66 | for names that are not empty and free of "~" it determines both |
| `SqlModel.KeysCollide` | wuqiSpank/src/main/java/org/wuqispank/model/DefaultSqlModel.java:52-66 | other sets of names share a key: no table and one without a name, "a~b" and the two names "a" and "b" |
| `SqlModel.Model.MatchesTablesOf` | wuqiSpank/src/main/java/org/wuqispank/model/DefaultSqlModel.java:316-327 | true exactly if both models have the same set of names, although one direction and the counts are all it looks at |
| `SqlModel.Model.TableExists` | wuqiSpank/src/main/java/org/wuqispank/model/DefaultSqlModel.java:329-335 | true exactly if the name is listed |
| `SqlModel.Model.TableExistsInJoin` | wuqiSpank/src/main/java/org/wuqispank/model/DefaultSqlModel.java:336-365 | true exactly if a side of some join has a column of a table of that name |
| `SqlModel.Model.GetTablesWithoutJoins` | wuqiSpank/src/main/java/org/wuqispank/model/DefaultSqlModel.java:368-378 | the tables in no join, in the order of the list |
| `TableOrder.ReorderTables` | wuqiSpank/src/main/java/org/wuqispank/model/CenterHeavyTableOrderMgr.java:14-30 | the loop fills the new array so that place p holds the table the specification says |
| `TableOrder.PlacesAreAPermutation` | wuqiSpank/src/main/java/org/wuqispank/model/CenterHeavyTableOrderMgr.java:22-28 | every table has a place of its own and no place is left out |
| `TableOrder.NothingIsLost` | wuqiSpank/src/main/java/org/wuqispank/model/CenterHeavyTableOrderMgr.java:14-30 | the result holds the same tables |
| `TableOrder.HeavyInTheCentre` | wuqiSpank/src/main/java/org/wuqispank/model/CenterHeavyTableOrderMgr.java:14-30 | given ascending weights, the result rises up to place n/2, where the heaviest is, and falls from there |
| `TableOrder.EndsBalance` | wuqiSpank/src/main/java/org/wuqispank/model/CenterHeavyTableOrderMgr.java:22-28 | the weight written from the head and from the tail differs by at most the heaviest |
| `TraceEvents.RequestWrapper.LoadEvents` | wuqiSpank/src/main/java/org/wuqispank/model/DefaultRequestWrapper.java:142-165 | succeeds exactly if the whole list can be cut into statements; adds the statements of the ranges found, numbered on, before a failure too; says which failure it is |
| `TraceEvents.RequestWrapper.NextStatement` | wuqiSpank/src/main/java/org/wuqispank/model/DefaultRequestWrapper.java:146-163 | finds the next range, from the first ENTRY to the first later EXIT of its method, or fails if there is none or it makes no statement |
| `TraceEvents.WholeIsUnique` | wuqiSpank/src/main/java/org/wuqispank/model/DefaultRequestWrapper.java:142-165 | there is one way to cut a list |
| `TraceEvents.NoWayOn` | wuqiSpank/src/main/java/org/wuqispank/model/DefaultRequestWrapper.java:158-163 | where the next range is missing or makes no statement no other cut exists |
| `TraceEvents.RangesInOrder` | wuqiSpank/src/main/java/org/wuqispank/model/DefaultRequestWrapper.java:146-157 | the ranges are disjoint and in order |
| `TraceEvents.BlocksComeBack` | wuqiSpank/src/main/java/org/wuqispank/model/DefaultRequestWrapper.java:135-165 | on every concatenation of well-formed blocks exactly those blocks are found |
| `TraceEvents.RequestWrapper.IndexOfNext` | wuqiSpank/src/main/java/org/wuqispank/model/DefaultRequestWrapper.java:177-186 | the first event of a type from a place on |
| `TraceEvents.RequestWrapper.IndexOfNextExit` | wuqiSpank/src/main/java/org/wuqispank/model/DefaultRequestWrapper.java:166-176 | the first EXIT of a method from a place on |
| `TraceEvents.RequestWrapper.AddSqlWrapper` | wuqiSpank/src/main/java/org/wuqispank/model/DefaultRequestWrapper.java:96-105 | the statement gets the next sequence number |
| `TraceEvents.SqlWrapperFactory.CreateSqlWrapper` | wuqiSpank/src/main/java/org/wuqispank/jdbc/DefaultJdbcSqlWrapperFactory.java:61-108 | a statement is made exactly of ENTRY, ARG, anything, EXIT in one class, else the first check that fails is reported; its text is that of the second event, its entry time that of the first, exit time, client time and stack trace those of the last |
| `JavaText.OneLineIsIdempotent` | wuqiSpank/src/main/java/org/wuqispank/model/DefaultSqlWrapper.java:78-79 | a text made one trimmed line stays as it is |
| `JavaText.OneLineIsBetween` | wuqiSpank/src/main/java/org/wuqispank/model/DefaultSqlWrapper.java:78-79 | line breaks become blanks, and exactly the blanks at the ends go |
| `JavaText.OneLineKeepsIff` | wuqiSpank/src/main/java/org/wuqispank/model/DefaultSqlWrapper.java:78-79 | a text is left alone exactly if it has no line break and no blank at its ends |
| `RequestCodec.Export` | wuqiSpank/src/main/java/org/wuqispank/importexport/DefaultRequestExporter.java:48-63 | the document of a request |
| `RequestCodec.ExportDetail` | wuqiSpank/src/main/java/org/wuqispank/importexport/DefaultRequestExporter.java:69-83 | the document of one statement, by its place |
| `RequestCodec.WriteSql` | wuqiSpank/src/main/java/org/wuqispank/importexport/DefaultRequestExporter.java:97-119 | appends the element of one statement |
| `RequestCodec.ElementShows` | wuqiSpank/src/main/java/org/wuqispank/importexport/DefaultRequestExporter.java:97-119 | the attributes give back every number of the statement, the children its text and stack trace as they are |
| `RequestCodec.FramesAreJoined` | wuqiSpank/src/main/java/org/wuqispank/importexport/DefaultRequestExporter.java:112-117 | the frames of a stack trace stand behind one another, a comma and a blank between two |
| `RequestCodec.ElementDetermines` | wuqiSpank/src/main/java/org/wuqispank/importexport/DefaultRequestExporter.java:97-119 | statements with the same element are the same, but for how their frames are cut |
| `RequestCodec.ImportSql` | wuqiSpank/src/main/java/org/wuqispank/importexport/DefaultRequestImporter.java:33-101 | all statements of a request in order, or the error of the first that has one |
| `RequestCodec.ImportRq` | wuqiSpank/src/main/java/org/wuqispank/importexport/DefaultRequestImporter.java:114-154 | all requests of a document, or an error |
| `RequestCodec.RoundTripIff` | wuqiSpank/src/main/java/org/wuqispank/importexport/DefaultRequestImporter.java:33-154 | import after export succeeds exactly if every statement has a text and a stack trace, and then gives id, thread and the statements, normalised, in order |
| `RequestCodec.SqlRoundTripIff` | wuqiSpank/src/main/java/org/wuqispank/importexport/DefaultRequestImporter.java:44-95 | the same for one statement |
| `RequestCodec.TripChangesNothingIff` | wuqiSpank/src/main/java/org/wuqispank/importexport/DefaultRequestImporter.java:33-154 | importing an exported request gives the same statements, stack traces aside, exactly if each is complete, has one and the same entry, exit and client time, and a text that is one trimmed line |
| `RequestCodec.TripLosesTimes` | wuqiSpank/src/main/java/org/wuqispank/importexport/DefaultRequestImporter.java:48-66 | a statement with three different times comes back with its entry and exit times equal to the client time |
| `RequestCodec.TripKeeps` | wuqiSpank/src/main/java/org/wuqispank/importexport/DefaultRequestImporter.java:33-154 | importing an exported request in any case keeps the order of statements, their numbers and client times, and each text that is one trimmed line; "statement at index k has sequence k" holds after exactly if it held before |
| `RequestCodec.SecondTripChangesNothing` | wuqiSpank/src/main/java/org/wuqispank/importexport/DefaultRequestImporter.java:33-154 | exporting what was imported and importing that always succeeds and gives the same statements, stack traces aside |
| `RequestCodec.DetailComesBack` | wuqiSpank/src/main/java/org/wuqispank/importexport/DefaultRequestExporter.java:69-83 | the document of one statement brings it back under its own number |
| `HealthResult.FormatParsesBackIff` | wuqiSpank/src/main/java/org/wuqispank/health/Result.java:38-48 | type, host and any 32-bit port come back exactly if the host is free of "~"; otherwise no field is set |
| `HealthResult.FieldsIff` | wuqiSpank/src/main/java/org/wuqispank/health/Result.java:38-48 | of all messages exactly those set fields that consist of a known type, a host without "~" and a 32-bit number, with any number of "~" behind |
| `HealthResult.PiecesJoin` | wuqiSpank/src/main/java/org/wuqispank/health/Result.java:40-40 | splitting undoes joining |
| `HealthResult.FormatPieces` | wuqiSpank/src/main/java/org/wuqispank/health/Result.java:107-109 | the pieces of a formatted message |
| `HealthResult.Result.Parse` | wuqiSpank/src/main/java/org/wuqispank/health/Result.java:38-48 | the fields set, or the exception, for any message |
| `HealthResult.Result.Unhealthy` | wuqiSpank/src/main/java/org/wuqispank/health/Result.java:94-96 | the same from the factory on |
| `Decimal.ParsePrint` | wuqiSpank/src/main/java/org/wuqispank/health/Result.java:107-109 | a printed integer, negative ones included, parses back |
| `Decimal.ParseIff` | wuqiSpank/src/main/java/org/wuqispank/health/Result.java:44-45 | a text is read as a number exactly if it is digits with or without a sign and within bounds |
| `Decimal.CastWraps` | wuqiSpank/src/main/java/org/wuqispank/importexport/DefaultRequestImporter.java:50-51 | a sequence number beyond 32 bits is taken to the int that differs by a multiple of 2^32 |
| `KeyTable.Navigator.ShowRow` | wuqiSpank/src/main/webapp/js/KeyTable.js:438-468 | both paging loops end where the turns do, with the row shown, without moving if it was; pages that start at a multiple of the length still do |
| `KeyTable.Navigator.PageForwards` | wuqiSpank/src/main/webapp/js/KeyTable.js:438-454 | the first loop |
| `KeyTable.Navigator.PageBackwards` | wuqiSpank/src/main/webapp/js/KeyTable.js:456-468 | the second loop |
| `KeyTable.LoopsShowIff` | wuqiSpank/src/main/webapp/js/KeyTable.js:438-468 | from any page, for any row: the two loops end with the row shown exactly if the page length is positive or -1 |
| `KeyTable.LoopsEndIff` | wuqiSpank/src/main/webapp/js/KeyTable.js:438-468 | they end at all exactly for such a length, or for one below -1 if the row lies before the end of the page |
| `KeyTable.LengthZeroNeverEnds` | wuqiSpank/src/main/webapp/js/KeyTable.js:438-468 | a length of 0 keeps the first loop going for a row on or behind the page and the second for one before it |
| `KeyTable.LengthBelowMinusOneIsWrong` | wuqiSpank/src/main/webapp/js/jquery.dataTables.js:2837-2845 | a length of -2 keeps the first loop going from the first page, and from a later one the loops end off the row |
| `KeyTable.Navigator.OnKey` | wuqiSpank/src/main/webapp/js/KeyTable.js:679-809 | the position stays in the grid; tab and right go one on in row-major order, shift-tab and left one back, up and down a row, the others to the bounds of the column or ten rows; the form is left exactly at the ends |
| `KeyTable.Navigator.SetFocus` | wuqiSpank/src/main/webapp/js/KeyTable.js:407-480 | a new focus is remembered and shown, the old one is left alone |
| `KeyTable.NumbersDiffer` | wuqiSpank/src/main/webapp/js/KeyTable.js:696-795 | a row-major number determines its cell |

## Left out

- Positional pseudos (`setMatcher`) and selectors that start a nested Sizzle run: they overwrite the run counters the cache relies on.
- Regular expressions of Sizzle: a scanner is a function that returns the length of a non-empty prefix.
- The branches for old browsers: `sourceIndex`, and sorting without a stable sort.
- `compareDocumentPosition`, the comparator browsers have; the one proved is the fallback.
- DocumentOrder.Sorter.Sort: an insertion sort stands for the host's; its contract is what any sort by comparisons keeps.
- Callbacks that throw, and the contexts (`this`) of deferreds.
- `then` and `pipe`: they build a second deferred out of the operations modelled.
- `when` with a single promise, which hands it back as it is.
- Data of plain JavaScript objects, which need no id, and setup and teardown hooks that touch the data.
- DataStore.DataCache.InternalData: the object returned when no name is given is not modelled, since it is the store itself.
- SelectMeaning.SelectStandsForMeant: that a finder finds, of the elements looked through, those its token describes is taken for granted; documents with an id used twice, where the shortcut looks at the first such element only, are outside of it, as they are outside HTML.
- Private entries called "data" or "events" written through `_data` by hand.
- Special events' hooks, `handleObjIn`, the numbering of handlers by `guid`, and namespaces with characters special in patterns.
- Running the dispatch queue: propagation flags and results of handlers.
- Queues other than "fx", and replacing a queue by an array, which drops the sentinel.
- Select.Sizzle.Read: works on values; the arrays of tokens are allocated when the list is complete.
- The space appended to cache keys, and the cache of compiled functions.
- Characters beyond ASCII in names, in trimming and in numbers, and names that are null.
- `setTables`, which goes round the check for repeats; columns and aliases.
- SqlModel.Model.GetKey: a key asked for before the last table was added is not the key of the final set, since it is memoised.
- SqlModel.Sort: an insertion sort stands for `Collections.sort`.
- Where table weights come from: the statistics of the observer are not part of this model.
- Writing XML as text and reading it, and parsing stack traces: the document is a tree, the parser a parameter.
- RequestCodec.SecondTripChangesNothing: says nothing about stack traces, whose parser is not part of this model.
- Null ids and null arrays of stack frames in an export.
- Null hosts in health results, which print as "null".
- `_fnEventRemove` of KeyTable, scrolling, events of cells, and finding cells in the page.
- KeyTable.Navigator.ShowRow: asks for a page length that is positive or -1, since a method must end; what the loops do for every length is `KeyTable.LoopsShowIff` and `KeyTable.LoopsEndIff`.
- KeyTable on tables that are not DataTables, and DataTables that page on the server or have paging switched off.
- Everything that draws, measures or communicates: ajax, CSS, animation, Wicket pages, InfluxDB, sockets and directories.
