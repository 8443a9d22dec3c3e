# Punnet SDK in Dafny

A Dafny model of the parts of Punnet SDK whose correctness rests on an argument about every input or every run: the
effect pipeline, weighted authorization, the write-back cache, prefixed and balance stores, the module registry,
multi-send settlement, transaction nonces, the octet arithmetic behind deterministic signatures, and coins.
`dafny verify dfyconfig.toml` checks the whole project.

Main results:

- **Effects.** The graph joins exactly the conflicting pairs of effects; the depth-first searches find a cycle exactly
  when there is one and sort dependencies first; the batches are the levels of longest chains, and no batching that keeps
  conflicting effects in order is shorter. In every interleaving of the store operations of the goroutines of each batch,
  a finished run has the stores and the events of sequential execution, and a goroutine fails only if sequential
  execution fails (`Serializability.ScheduleEffects`, `ParallelIsSequential`, `ParallelCompletes`). Conversely every order
  of the operations that keeps each goroutine's own order and the order of the batches is that of a run
  (`Interleavings.TraceIsRun`, `FailureIsRun`). Which effects conflict is stated in terms of what they name, with exactly
  the conflicts that the pairwise check misses (`Conflicts.MissedIff`). When an effect succeeds and what sequential
  execution leaves is stated per field, balance, key and event (`Execution`, `Ledger`).
- **Authorization.** The recursive weight computation accepts exactly the authorized trees, for every order in which the
  Go maps are visited; if every authority it consults is valid, no overflow branch is reached. An accepted tree has a chain
  of delegation that ends in an Ed25519 signature of the message by a listed key (`Acceptance.AcceptedHasSigner`), and
  without delegates, along one chain, or with both, acceptance is characterized exactly (`FlatAcceptedIff`,
  `ChainAcceptedIff`, `MixedAcceptedIff`). So an executed transaction was signed over its own bytes
  (`Authenticity.ExecutedHasSigner`), one without delegates executes exactly when it is (`FlatExecutesIff`), and nothing
  executes outside an open block (`Openings.ExecutesInOpenBlock`).
- **Cache.** Storing one key agrees with a plain map exactly when the evicted entry was already saved. If the keys
  touched between flushes fit in the first level, every answer of every run is the plain map's and a flush writes that
  map. One key more, and a write is lost. Batches are runs of single operations, except that a batch of writes lets the
  empty key in, after which no flush succeeds while the run stays within that bound (`Batches.BatchThenFlush`,
  `Batches.NoFlushSucceeds`).
- **Stores.** A prefix is a key range; a prefixed store is a view that other prefixes cannot disturb, and it iterates in
  order. Transfers move exactly their amount or nothing, and every run of transfers keeps the supply.
- **The application's one store.** Account records, balances and raw effects share a state store, below two write-back
  caches. Over every run of blocks the supply that the balance store shows changes by exactly what raw writes bring, less
  what raw effects drop and receivers refuse, and by what evictions bring back (`ApplicationSupply.RunSupply`). A raw
  effect counts exactly where nothing is cached above it (`BankSupply.DeleteKeepsSupplyIff`, `WriteKeepsSupplyIff`). While
  the balances used between commits fit in the cache, and raw effects are clear of its saved entries, nothing comes back:
  no supply grows unless a raw write mints, and it is kept exactly when no reached raw effect drops a balance and no reached
  coin is refused (`ApplicationSupply.RunKeepsSupplyIff`). One balance more, and the supply grows
  (`BankCases.EvictionMints`); a deletion below an unsaved balance is undone by the commit (`BankCases.DeletionIsUndone`).
- **Raw effects and transfers.** A raw effect and a transfer can be swapped on all sound stores exactly when the effect
  writes or deletes none of the transfer's balance keys, whatever the two declare (`Commutation.CommuteIff`). While raw
  effects keep off the cached and used balance keys, and these fit in the cache, the wired stores act as the two separate
  interfaces of the executor (`SeparateStores.SharedIsSeparate`).
- **Nonces.** With any account cache, an input raises the nonce of the account whose transaction it executes, brings back
  the stored nonce of every other account it evicts, and changes no nonce besides (`Nonces.StepNonce`). So the executed
  nonces of an account are consecutive all along a run exactly when no input of the run evicts a nonce that differs from the
  stored one (`Nonces.ConsecutiveIff`), and then no transaction runs twice within 2^64 executions (`Nonces.NoReplay`). That
  is so while the accounts looked up between commits fit in the cache (`NonceBound.BoundedNeverGoesBack`). After as many
  other look-ups as the cache holds, an executed transaction can run again (`NonceReplay.ReplayPastBound`).
- **Registry, multi-send, signatures, coins.** Lexicographically least initialization order; settlement
  that meets every input and output exactly, behind a balance check that suffices exactly when no two inputs take the same
  denomination from one account (`BankHandler.CheckCoversIff`, `BankHandler.OverlapFails`) and that spares other accounts
  exactly when every input is the submitter's (`BankHandler.OnlySignerSendsIff`); reduction by one subtraction; a normal
  form of signatures; saturating sums.

Conventions. Go strings and byte slices are sequences of numbers below 256. A `uint64` is a number up to 2^64 - 1 and
every wrap, overflow check or saturation is written out. A loop over a Go map takes the keys in an arbitrary order, so
what is proved holds for every order. A class stands for a Go object whose methods update its fields; each such method is
proved against a function of the old state, and the properties are lemmas about that function.

Parameters. Ed25519 verification, HMAC-SHA-256 (any function to 32 bytes), the serializers (decoding inverts encoding)
and the bytes to sign are parameters. The effects returned by message handlers are inputs of a transaction step.

The two store interfaces. `effects/executor.go` works on a key store and a balance store behind two interfaces.
`Executor`, `Traces`, `Serializability` and `Ledger` take them as two maps, so they assume that the interfaces share no
keys. `NewApplication` does not provide that: both end in one state store, where the raw key `store/key` is the balance key
of the account `store`, and the balance store has a write-back cache of 10000 entries above it
(`runtime/application.go:146-166`, `store/balance_store.go:43-45`). `SharedStore` is the executor on that wiring;
`BankSupply` has the laws that hold with any cache, `BankBound` those within the bound, and `BankCases` runs outside it.
`Application` adds the account cache and the commits, `Wiring` shows that accounts and balances never meet in the state
store, and `Nonces`, `NonceBound`, `NonceReplay` and `ApplicationSupply` are about whole runs. The sizes of the caches
are parameters throughout.

Where the code and its comments differ the model follows the code:

- `crypto/signature.go:112-116` calls `MakeHighS` the inverse of `NormalizeSignature`; for `s` above the order it is not
  (`LowS.MakeHighUndoesNormalize` has the exact condition, `LowS.MakeHighIsNoInverse` an input).
- `effects/executor.go:233` leaves rollback to the transaction layer, which has none; a failed run keeps what it applied
  (`Ledger.ExecuteConserves`, `Ledger.RefusedCreditLoses`).
- `store/cache.go:185-192` evicts without looking at the dirty flag, so the cache is only a cache within a bound
  (`CachedStore.PutIsPlainIff`, `CachedStore.BoundIsTight`).
- `store/cached_store.go:249` announces that `SetBatch` is atomic and, unlike `Set`, does not check its keys; an empty key
  makes every later flush fail, within the bound above (`Batches.NoFlushSucceeds`).
- `runtime/application.go:197-198` says that `CheckTx` does not modify state; it reads through the account cache and can
  evict an unsaved account (`Nonces.StepNonce`, `NonceReplay.ReplayPastBound`).
- `modules/bank/module.go:112-123` announces a check of all senders; the handler asks that the transaction's account be
  one of them, so another sender can be debited (`BankHandler.NonSignerIsDebited`); none is, exactly when every input is
  the account's own (`BankHandler.OnlySignerSendsIff`).
- `effects/scheduler.go:247-248` announces an error for any batch with conflicting effects; the pairwise check misses some
  (`Conflicts.MissedIff`).
- `types/coin.go:114-115` announces an error on overflow; `Add` saturates (`Coins.AddIsSaturatingSum`).
- `crypto/rfc6979.go:42-49` speaks of values of the order's length; they always have 32 bytes.

## Model

| member | source | states |
|---|---|---|
| Effects.TransferDependencies | effects/transfer_effect.go:44-79 | the loop lists the declared dependencies of a transfer |
| Effects.PrimaryKeyDeclared | effects/effect.go:213-252 | the key used for conflict detection is covered by the declared keys, as a written key for writers |
| Effects.DetectedConflictIsDeclared | effects/effect.go:213-252 | every conflict found on primary keys is a conflict of the declared read and write keys |
| Conflicts.EventsConflictWithNothing | effects/event_effect.go:47-49 | an event conflicts with no effect |
| Conflicts.RawConflictIff | effects/write_effect.go:36-44 | two raw effects conflict exactly when they name the same `store/key` and not both only read it |
| Conflicts.TransferWrites | effects/transfer_effect.go:44-79 | a transfer declares its two accounts and the `balance/account/denom` keys of its coins, all as written, and nothing else |
| Conflicts.TransferConflictIff | effects/transfer_effect.go:44-79 | two valid transfers conflict exactly when they share an account |
| Conflicts.RawTransferConflictIff | effects/transfer_effect.go:44-79 | a raw effect, read or write, and a valid transfer conflict exactly when the raw key is such a balance key |
| Conflicts.RawDetectedIff | effects/effect.go:213-252 | between raw effects the pairwise check reports exactly the conflicts, write-write exactly when neither reads |
| Conflicts.OtherwiseDetectedIff | effects/effect.go:213-252 | otherwise it reports exactly two transfers of one sender |
| Conflicts.MissedIff | effects/effect.go:213-252 | the conflicts it misses are exactly those of transfers of different senders with a shared account and of raw effects on a transfer's balance keys |
| Graph.TopologicalIsAcyclic | effects/graph.go:187-202 | a graph with a dependencies-first list of all nodes has no cycle |
| Graph.StackClosesCycle | effects/graph.go:205-224 | reaching a node that is still on the recursion stack closes a cycle |
| Graph.HasCycleUtil | effects/graph.go:205-224 | true only on a cycle; otherwise the stack is restored and the node joins the finished nodes, dependencies first |
| Graph.HasCycles | effects/graph.go:187-202 | true exactly when the dependency relation has a cycle, on any graph with indices in range |
| Graph.TopologicalSortUtil | effects/graph.go:251-263 | appends the node after its dependencies, and nothing else if they are all there |
| Graph.TopologicalSort | effects/graph.go:228-248 | fails exactly on a cycle; otherwise every node once, dependencies first; the submission order if edges point back |
| Graph.Graph.constructor | effects/graph.go:48-63 | one node without edges for each effect |
| Graph.Graph.IndexKeys | effects/graph.go:65-80 | the key indices hold exactly the nodes that declare each key as read or as written |
| Graph.Graph.AddDependency | effects/graph.go:138-148 | adds the edge in both directions, once |
| Graph.Graph.BuildNode | effects/graph.go:91-135 | a node gains exactly the earlier nodes that its dependencies order before it |
| Graph.Graph.BuildDependencies | effects/graph.go:91-135 | the edges are exactly the conflicting pairs, later to earlier |
| Graph.OrdersIsConflicting | effects/graph.go:91-135 | the per-dependency ordering rules amount to: share a key that one of them writes |
| Graph.NewGraph | effects/graph.go:38-88 | fails exactly on an invalid effect; otherwise edges are exactly the conflicting pairs |
| Graph.PointsBackIsAcyclic | effects/graph.go:109-128 | a graph whose edges point to earlier nodes has no cycle |
| Scheduler.FindReadyNodes | effects/scheduler.go:80-108 | exactly the unscheduled nodes whose dependencies are all scheduled, once each |
| Scheduler.ReadyIsLevel | effects/scheduler.go:80-108 | with all lower levels scheduled, ready means: the longest dependency chain has the next length |
| Scheduler.SomethingIsReady | effects/scheduler.go:52-59 | on an acyclic graph the no-ready-nodes error branch is unreachable |
| Scheduler.Schedule | effects/scheduler.go:35-76 | fails exactly on a cycle; otherwise each node once, in the batch numbered by its longest dependency chain |
| Scheduler.LevelIsUnique | effects/scheduler.go:35-76 | a node has one level |
| Scheduler.LayeringIsOptimal | effects/scheduler.go:35-76 | no level assignment that respects the edges uses fewer batches or puts a node lower |
| Scheduler.LayeringRespectsEdges | effects/scheduler.go:35-76 | dependencies are in strictly earlier batches |
| Scheduler.ValidateBatches | effects/scheduler.go:249-261 | true exactly when no batch holds a pair that conflict detection reports |
| Scheduler.BatchmatesDoNotConflict | effects/scheduler.go:35-76 | two effects of one batch share no key that either writes |
| Scheduler.ScheduleIsConflictFree | effects/scheduler.go:249-261 | every batch that the scheduler makes passes the conflict check |
| Executor.Executor.ExecuteTransfer | effects/executor.go:208-239 | moves coin by coin up to the first refusal, keeping what was moved |
| Executor.Executor.ExecuteEffect | effects/executor.go:145-205 | applies one effect to the stores or appends its event; refuses an invalid one |
| Executor.Executor.Execute | effects/executor.go:120-142 | applies the effects in order up to the first failure |
| Execution.ValidIff | effects/transfer_effect.go:27-41 | an effect is valid exactly when its fields are within the stated limits, names and denominations byte by byte |
| Execution.EffectOkIff | effects/executor.go:145-265 | an effect succeeds exactly when its fields are, a read key is there, and every coin of a transfer could be moved at the start |
| Execution.EffectLeaves | effects/executor.go:145-265 | a raw effect changes its own key only, an event is logged only by an event effect, and a transfer leaves the key store |
| Execution.TransferOkIff | effects/executor.go:208-239 | a transfer of distinct denominations succeeds exactly when each coin could be moved at the start |
| Execution.TransferLeaves | effects/executor.go:208-239 | whether it succeeds or not, each balance is as the reached coins leave it, a refused credit included |
| Execution.OthersStay | effects/executor.go:208-239 | balances of other denominations stay |
| Ledger.TransferMoves | effects/executor.go:208-239 | a completed transfer changes each balance by what the account receives less what it sends |
| Ledger.ExecuteMoves | effects/executor.go:120-142 | so does a successful run, over all its transfers |
| Ledger.FundedSucceeds | effects/executor.go:208-239 | transfers that every account can cover at the start, with room for what it receives, succeed in any order |
| Ledger.SettleThenExecute | modules/bank/module.go:146-185 | executing a settlement on covering balances succeeds and moves exactly inputs and outputs, and nothing else |
| Ledger.ExecuteWritesLast | effects/executor.go:169-205 | after a successful run each key holds what was written last and the events are those emitted, in order |
| Ledger.MoveCoinSupply | effects/executor.go:225-236 | a coin keeps the supply of every denomination, except that a refused credit loses exactly the debited amount |
| Ledger.TransferSupply | effects/executor.go:208-239 | a transfer lowers the total of a denomination by exactly the first coin of it whose credit is refused; a completed one keeps it |
| Ledger.ExecuteConserves | effects/executor.go:120-142 | every run lowers the total of a denomination by exactly what refused credits lose, so it keeps it exactly when none is refused; a successful run does |
| Ledger.RefusedCreditLoses | effects/executor.go:225-236 | a funded transfer to a full account fails and takes the coin out of the total |
| Traces.Commute | effects/executor.go:268-313 | two store operations that share no written cell have the same outcome in either order, failure included |
| Traces.Reorder | effects/executor.go:268-313 | a trace that lists operations in an order compatible with dependence ends in the same machine; if it fails, so does the original |
| Serializability.EffectRuns | effects/executor.go:145-239 | running the store operations of one effect is applying the effect |
| Serializability.SequentialTraceRuns | effects/executor.go:120-142 | running all operations effect by effect is `Execute` |
| Serializability.FootprintIsDeclared | effects/transfer_effect.go:44-79 | every cell an operation reads or writes is among the declared keys of its effect |
| Serializability.UnrelatedActionsIndependent | effects/graph.go:91-135 | operations of effects without an edge between them are independent |
| Serializability.TraceLinearizes | effects/executor.go:268-313 | every trace of the batches keeps dependent operations in submission order |
| Serializability.RunExplained | effects/executor.go:268-313 | every state of every interleaved run is the result of such a trace |
| Interleavings.TraceIsRun | effects/executor.go:277-310 | every order of operations in which each goroutine and each batch keeps its turn and no operation fails is that of a run, which ends with exactly those operations done |
| Interleavings.FailureIsRun | effects/executor.go:277-310 | if the next operation in turn fails, some run ends with its goroutine failed and the stores as they were |
| Interleavings.AnyoneMayStep | effects/executor.go:288-301 | in any state of any run, also after a failure, every goroutine of the batch that has not returned may perform the next operation |
| Interleavings.FailureIsFinal | effects/executor.go:303-310 | after a failure no later batch is started |
| Interleavings.TransferOperations | store/balance_store.go:198-242 | each coin is a load, a stored debit, a load and a stored credit, four operations that others may come between |
| Serializability.ParallelIsSequential | effects/executor.go:268-313 | a finished run has the stores and the event multiset of `Execute`; a goroutine fails only if `Execute` fails |
| Serializability.ParallelCompletes | effects/executor.go:268-313 | if `Execute` succeeds, no goroutine fails, every run can continue to the end, and its length is bounded |
| Serializability.ScheduleIsOrdered | effects/scheduler.go:35-76 | the scheduler's batches keep conflicting effects in submission order |
| Serializability.OrderedIsSerializable | effects/executor.go:268-313 | every run of batches that keep conflicting effects in order matches `Execute`, and goes on to the end if it succeeds |
| Serializability.ScheduleEffects | effects/scheduler.go:111-135 | succeeds exactly on valid effects, with conflict-free batches, the fewest that keep conflicts apart, all of whose parallel runs match `Execute` and run on to the end if it succeeds |
| Authorization.KeyWeight | types/authorization.go:459-484 | the sum of the weights of the counted keys; fails only on a repeated key or an overflow of the whole tree |
| Authorization.AddDelegate | types/authorization.go:487-522 | adds the weight exactly when the delegate meets its own threshold; the visited names are restored |
| Authorization.AddDelegates | types/authorization.go:487-522 | in any order of the map, the weight of the tree, or a failure exactly when some listed delegate cannot be weighed or the sum overflows |
| Authorization.CalculateWeight | types/authorization.go:425-525 | succeeds exactly on a weighable tree, with the declared weight; restores the visited names; ends by depth |
| Authorization.VerifySignatures | types/authorization.go:358-365 | true exactly when every top-level signature verifies |
| Authorization.VerifyAuthorization | types/authorization.go:375-404 | accepts exactly the authorized trees; no overflow is reported if every authority on a chain of delegates that can be followed is valid |
| Authorization.WeighableIffChainsSound | types/authorization.go:425-457 | weighable means: on every chain of listed delegates the accounts exist, no name repeats, the depth is at most 10, no key counts twice and no sum overflows |
| Authorization.WeightIsPossible | types/account.go:154-174 | the weight of a tree is at most the total possible weight of its authority |
| Authorization.AddWeights | types/account.go:99-115 | the checked sum of a weight map, or a failure exactly on overflow, in any order |
| Authorization.ValidateAuthority | types/account.go:94-129 | true exactly for a positive threshold that the total weight reaches, a total that fits, and valid delegate names |
| Acceptance.AcceptedIsSigned | types/authorization.go:358-372 | every top-level signature of an accepted authorization is an Ed25519 signature of the message |
| Acceptance.AcceptedKeysDiffer | types/authorization.go:453-477 | no listed key signs twice in it |
| Acceptance.AcceptedChainsAreShort | types/authorization.go:433-441 | its chains of delegation have at most ten links and no name twice |
| Acceptance.AcceptedHasSigner | types/authorization.go:375-422 | with positive thresholds, one of them ends with an Ed25519 signature of the message by a key listed there with a positive weight |
| Acceptance.ValidHasThresholds | types/account.go:94-130 | thresholds are positive if the consulted authorities are valid |
| Acceptance.FlatAcceptedIff | types/authorization.go:375-422 | without delegates: accepted exactly when all signatures are of the message, no listed key is given twice, and the weights of the listed keys fit and reach the threshold |
| Acceptance.ChainAcceptedIff | types/authorization.go:425-525 | along one chain of delegation: accepted exactly when it has at most ten links, no name twice, enough weight at every link and enough weight of signing keys at its end |
| Acceptance.MixedAcceptedIff | types/authorization.go:425-525 | the weights of signing keys and of a carried delegate add up |
| MemoryStore.MemoryStore.Get | store/memory_store.go:24-45 | the value, or the error for an empty or missing key |
| MemoryStore.MemoryStore.Set | store/memory_store.go:48-69 | updates one key, or refuses the empty key |
| MemoryStore.MemoryStore.Delete | store/memory_store.go:72-86 | removes one key, or refuses the empty key |
| MemoryStore.MemoryStore.Has | store/memory_store.go:89-103 | presence, or the error for an empty key |
| MemoryStore.MemoryStore.CollectKeys | store/memory_store.go:131-145 | exactly the keys in the range, each once, for any order of the map |
| MemoryStore.MemoryStore.Iterator | store/memory_store.go:130-174 | exactly the entries in the range, ascending or descending |
| Order.LessIff | store/memory_store.go:131-148 | byte strings compare at their first difference |
| MemoryStore.MemoryIterator.Next | store/memory_store.go:217-230 | steps on unless closed, also past the last entry |
| Prefix.PrefixBound | store/prefix.go:238-256 | increments the last byte below 255 and cuts there; none if all bytes are 255 |
| Prefix.PrefixIsRange | store/prefix.go:238-256 | a key has the prefix exactly when it lies between the prefix and its bound |
| Prefix.PrefixedRange | store/prefix.go:131-165 | the parent's range holds exactly the prefixed keys whose rest lies in the asked range |
| Prefix.NamespacesAreDisjoint | store/prefix.go:39-48 | keys under prefixes neither of which extends the other differ |
| Prefix.ChangeIsIsolated | store/prefix.go:71-108 | a change under one prefix leaves the view of every incomparable prefix as it was |
| Prefix.PrefixStore.Get | store/prefix.go:51-68 | reads the view of the prefix, with the source's errors |
| Prefix.PrefixStore.Set | store/prefix.go:71-88 | updates the view at one key and no view of an incomparable prefix |
| Prefix.PrefixStore.Delete | store/prefix.go:91-108 | removes one key of the view and changes no view of an incomparable prefix |
| Prefix.PrefixStore.Has | store/prefix.go:111-128 | presence in the view |
| Prefix.PrefixStore.Iterator | store/prefix.go:131-200 | stripped of the prefix, exactly the entries of the view in the range, in order or reversed |
| Prefix.PrefixIterator.Drain | store/prefix.go:259-346 | stepping to the end yields each parent entry once, in order, without the prefix |
| Cache.TouchedIsValid | store/cache.go:62-84 | a lookup keeps the recency list a duplicate-free list of the cached keys |
| Cache.StoredContents | store/cache.go:87-116 | after storing, the cached keys are the old ones and the new one, less the evicted last one |
| Cache.PushedIsValid | store/cache.go:87-116 | storing a new key keeps the list valid and within capacity |
| Cache.Cache.Get | store/cache.go:62-84 | returns the entry, moves it to the front and counts the hit or miss |
| Cache.Cache.EvictLru | store/cache.go:185-192 | removes the last key of the list, dirty or not |
| Cache.Cache.Set | store/cache.go:87-116 | stores the entry in front and evicts the last one over capacity |
| Cache.Cache.GetDirtyEntries | store/cache.go:196-220 | exactly the dirty entries |
| Cache.Cache.ClearDirtyFlag | store/cache.go:223-235 | clears the flag of one entry and changes nothing else |
| Cache.MultiLevelCache.Get | store/cache.go:256-277 | the first level's entry, else the second's, which is then copied to the first |
| Cache.MultiLevelCache.Set | store/cache.go:280-286 | stores in the first level only |
| Cache.MultiLevelCache.GetDirtyEntries | store/cache.go:309-329 | the dirty entries of both levels, the first level's where both have one |
| Cache.MultiLevelCache.ClearDirtyFlags | store/cache.go:332-341 | clears the flags of the given keys in both levels |
| CachedStore.AnswersArePlain | store/cached_store.go:41-172 | while the store represents a plain map, reads and presence checks answer as the map does |
| CachedStore.PutIsPlainIff | store/cached_store.go:91-145 | after a write or deletion the store represents the updated map exactly when the evicted entry equals what the backing store has |
| CachedStore.GetIsPlainIff | store/cached_store.go:41-88 | after a read the store represents the same map exactly when the read evicted nothing unsaved |
| CachedStore.FlushWrites | store/cached_store.go:314-371 | after a flush the backing store holds under every key what a read returned before |
| CachedStore.FlushIsConsistent | store/cached_store.go:314-371 | a flush leaves no dirty entry and changes no answer |
| CachedStore.FlushSaves | store/cached_store.go:314-371 | a flush leaves exactly the represented map in the backing store |
| CachedStore.StoringLosesNothing | store/cache.go:185-192 | while the touched keys fit in the first level, only clean entries are evicted |
| CachedStore.StoringIsRecent | store/cache.go:87-116 | the touched keys stay in front of the recency list |
| CachedStore.StepTracks | store/cached_store.go:41-371 | one operation within the bound keeps the store in step with the plain map and answers as it does |
| CachedStore.RunRefinesPlainMap | store/cached_store.go:41-371 | so does every run within the bound |
| CachedStore.FlushAfterRunSavesPlainMap | store/cached_store.go:314-371 | from opening on, answers are the plain map's and a final flush leaves that map in the backing store |
| CachedStore.BoundIsTight | store/cache.go:185-192 | one distinct key more than the first level holds, written without a flush, and the first write reads as missing |
| CachedStore.CachedObjectStore.Get | store/cached_store.go:41-88 | cache, then backing store; fills the cache; the source's errors |
| CachedStore.CachedObjectStore.Put | store/cached_store.go:91-145 | stores a dirty value or deletion marker |
| CachedStore.CachedObjectStore.Has | store/cached_store.go:148-172 | presence by cache, then backing store |
| CachedStore.CachedObjectStore.Flush | store/cached_store.go:314-371 | writes the dirty entries in key order and clears their flags; fails exactly when closed or when the empty key is dirty |
| Batches.FewKeysAreWithinBound | store/cached_store.go:41-371 | a run that names no more keys than the first level holds is within the bound |
| Batches.GetBatch | store/cached_store.go:217-247 | the values found by the run of its reads, which skip the empty key; refused exactly when closed |
| Batches.SetBatch | store/cached_store.go:250-276 | stores every item in some order of the map, the empty key included; refused exactly when closed |
| Batches.DeleteBatch | store/cached_store.go:279-311 | the run of its deletions, which skip the empty key; refused exactly when closed |
| Batches.SetBatchIsRun | store/cached_store.go:250-276 | without the empty key a batch of writes is the run of its writes |
| Batches.GetBatchIsPlain | store/cached_store.go:217-247 | within the bound, exactly what the plain map has under the keys, and the map stays as it was |
| Batches.SetBatchIsPlain | store/cached_store.go:250-276 | within the bound, the batch merged into the plain map, in any order of the batch |
| Batches.DeleteBatchIsPlain | store/cached_store.go:279-311 | within the bound, the plain map without the keys |
| Batches.BatchThenFlush | store/cached_store.go:250-371 | a flush after a batch goes through exactly when the batch has no empty key; then the backing store holds the merged map, else nothing reaches it |
| Batches.NoFlushSucceeds | store/cached_store.go:314-371 | once an empty key is dirty, every flush of every run within the bound fails and the backing store never changes |
| Registry.ValidateHandlers | module/module.go:95-117 | true exactly when every name is non-empty and has a handler, for any order of the map |
| Registry.ValidateModule | module/module.go:67-119 | true exactly for a name and dependencies that are non-empty, distinct and not the module itself, with complete handler maps |
| Registry.Registry.Register | module/registry.go:36-69 | adds the module exactly when it is valid, new, and its dependencies are registered |
| Registry.BuildGraph | module/registry.go:98-115 | in-degrees and adjacency of the dependency graph, for any order of the maps |
| Registry.InitialQueue | module/registry.go:117-126 | the modules without dependencies, sorted |
| Registry.ReleaseDependents | module/registry.go:138-151 | the queue again holds exactly the ready modules, sorted, and in-degrees count missing dependencies |
| Registry.StuckMeansCycle | module/registry.go:154-169 | an empty queue before all modules are listed means that no initialization order exists |
| Registry.TopologicalSort | module/registry.go:97-172 | succeeds exactly when an initialization order exists, always taking the least ready module |
| Registry.GreedyIsLeast | module/registry.go:131-152 | taking the least ready module gives the lexicographically least order |
| Registry.InitOrderIff | module/registry.go:97-172 | an initialization order is a list of all modules, each once, with every dependency before what depends on it |
| Registry.LexIff | module/registry.go:126-152 | the order of such lists is decided where they first part |
| Registry.HistoryIsInitOrder | module/registry.go:36-69 | the order of registration is an initialization order |
| Registry.Registry.Build | module/registry.go:73-93 | fails only on an empty registry; the order is the lexicographically least initialization order |
| MultiSend.Totals | modules/bank/messages.go:171-194 | the checked sum of each denomination over all parties, or a failure exactly on overflow |
| MultiSend.ValidateParties | modules/bank/messages.go:79-127 | true exactly when every party has a valid name and valid positive coins |
| MultiSend.ValidateBasic | modules/bank/messages.go:144-213 | true exactly for valid non-empty sides whose sums fit and agree in every denomination |
| MultiSend.BuildNeeds | modules/bank/module.go:146-155 | each need is the recipient's output sum; the unchecked additions never wrap |
| MultiSend.GiveTo | modules/bank/module.go:163-182 | moves the smaller of need and remainder, and emits a transfer exactly when that is positive |
| MultiSend.MatchCoin | modules/bank/module.go:158-185 | in any order of recipients, one input coin is sent completely and lowers needs by what was sent |
| MultiSend.Settle | modules/bank/module.go:146-185 | valid positive transfers that take from each sender exactly its inputs, give each recipient exactly its outputs, and leave every need at zero |
| BankHandler.SignersAreSenders | modules/bank/messages.go:216-233 | first appearances of addresses hold exactly the senders, without duplicates |
| BankHandler.SignersInOrder | modules/bank/messages.go:216-233 | the signers come in the order of their first appearance |
| BankHandler.GetSigners | modules/bank/messages.go:216-233 | the loop over the inputs lists exactly the senders, each once, in order of first appearance |
| BankHandler.CheckBalances | modules/bank/module.go:125-138 | true exactly when each input coin on its own is there and no read fails |
| BankHandler.CheckCoversIff | modules/bank/module.go:125-138 | that check ensures that each account has what it sends in all, for all balances, exactly when no two inputs take one denomination from one account |
| BankHandler.CheckedCanSettle | modules/bank/module.go:125-185 | without such an overlap, a message checked against the balances that its transfers meet can be settled if there is room |
| BankHandler.HandleMultiSend | modules/bank/module.go:99-196 | succeeds exactly for a sender whose message passes the check, with transfers that settle the message and the closing event last |
| BankHandler.OverlapFails | modules/bank/module.go:125-185 | for such an overlap, if the account gets none of the denomination back, there are balances on which the handler's check passes and whatever settles the message fails when executed |
| BankHandler.HandledThenFails | modules/bank/module.go:125-185 | a valid message and balances of that kind |
| BankHandler.SettlementMoves | modules/bank/module.go:140-196 | what the handler returns succeeds where the message is covered, and moves exactly the inputs and outputs |
| BankHandler.OnlySignerSendsIff | modules/bank/module.go:112-123 | what settles a valid message takes nothing from any account but the submitter exactly when every input is the submitter's |
| BankHandler.NonSignerIsDebited | modules/bank/module.go:112-123 | a valid message that one sender may submit, after which another sender has less |
| Balances.BalanceKeyInjective | store/balance_store.go:33-35 | a balance key determines the account and the denomination |
| Balances.SupplyChanges | store/balance_store.go:82-93 | setting one balance changes the supply of its denomination by the difference |
| BalanceStore.BalanceStore.Get | store/balance_store.go:53-79 | the balance, zero if absent; fails exactly on an invalid account or denomination |
| BalanceStore.BalanceStore.Set | store/balance_store.go:82-93 | updates one balance, or refuses an invalid one |
| BalanceStore.BalanceStore.AddAmount | store/balance_store.go:198-219 | adds, or fails without change exactly on an invalid key or an overflow |
| BalanceStore.BalanceStore.SubAmount | store/balance_store.go:222-242 | subtracts, or fails without change exactly on an invalid key or too little |
| BalanceStore.BalanceStore.Transfer | store/balance_store.go:248-282 | succeeds exactly when the sender has the amount and the receiver the room; otherwise nothing changes; the failed-rollback branch is unreachable |
| BalanceStore.TransferMovesAmount | store/balance_store.go:248-282 | a successful transfer changes sender and receiver by the amount and no other balance; a self-transfer changes none |
| BalanceStore.TransferConserves | store/balance_store.go:248-282 | every transfer, refused ones included, keeps every supply |
| BalanceStore.SupplyIsConstant | store/balance_store.go:248-282 | so does every sequence of transfers |
| BalanceStore.AccountPrefix | store/balance_store.go:141-157 | the keys under an account's prefix are exactly that account's balances |
| BalanceStore.ListingIsExact | store/balance_store.go:160-195 | the listed coins are exactly the account's positive balances |
| BalanceStore.GetAccountBalances | store/balance_store.go:160-195 | on a flushed store: fails exactly on an invalid name; otherwise the account's positive balances, strictly ascending by denomination |
| Records.PutSupply | runtime/application.go:71-73 | replacing any record changes a supply by the balance it brings less the balance it replaces |
| Records.RemoveSupply | runtime/application.go:75-77 | removing any record takes its balance off the supply |
| Agreement.StoringWithin | store/cache.go:87-116 | while the keys named since the last flush fit in the first level, storing one changes what is seen under that key only, even if others write to the backing store |
| Agreement.GetAgrees | store/cached_store.go:41-88 | within that bound a read changes nothing that is seen under the keys that matter |
| Agreement.PutAgrees | store/cached_store.go:91-145 | within that bound a write changes what is seen under its key, and nothing else |
| Agreement.FlushAgrees | store/cached_store.go:314-371 | a flush saves what is dirty and changes nothing that is seen |
| Agreement.BackingAgrees | store/cached_store.go:41-88 | others may change the backing store wherever no clean entry that matters is cached |
| SharedStore.SharedExecutor.Fetch | store/balance_store.go:53-79 | the record under the account's key, through the cache; a zero balance where there is none; fails on an undecodable record |
| SharedStore.SharedExecutor.Save | store/balance_store.go:82-93 | caches the balance under the key of the account it names, or refuses an invalid one |
| SharedStore.SharedExecutor.SubBalance | store/balance_store.go:222-242 | takes the amount from the fetched record and caches it, or refuses an undecodable or insufficient one |
| SharedStore.SharedExecutor.AddBalance | store/balance_store.go:198-219 | adds the amount to the fetched record and caches it, or refuses an undecodable or full one |
| SharedStore.SharedExecutor.ExecuteTransfer | effects/executor.go:208-239 | coin by coin through the cache, up to the first refusal |
| SharedStore.SharedExecutor.ExecuteEffect | effects/executor.go:145-265 | transfers use the cached balances, raw effects the state store below |
| SharedStore.SharedExecutor.Execute | effects/executor.go:120-142 | applies the effects in order up to the first failure |
| SharedStore.StoringView | store/cache.go:87-192 | storing an entry shows its record, and what is below the entry it evicts |
| SharedStore.GetView | store/cached_store.go:41-88 | a read shows what is below the entry it evicts, and changes nothing else that is seen |
| SharedStore.DebitSupply | store/balance_store.go:222-242 | a debit succeeds exactly when the seen record is usable and has the amount, and changes the supply by it and by what evictions bring back |
| SharedStore.CreditSupply | store/balance_store.go:198-219 | a credit succeeds exactly when the seen record is usable and has room, and changes the supply by it and by what evictions bring back |
| SharedStore.MoveCoinSupply | effects/executor.go:225-236 | a coin keeps every supply but for evictions, unless it is paid and then refused |
| BankSupply.RawView | effects/executor.go:185-205 | a raw write or deletion changes what is seen under its key exactly when nothing is cached there |
| BankSupply.DeleteKeepsSupplyIff | effects/executor.go:198-205 | a deletion keeps every supply exactly when its key is cached or holds no positive balance |
| BankSupply.WriteKeepsSupplyIff | effects/executor.go:185-195 | a write keeps every supply exactly when its key is cached or the amount below stays as it was |
| BankSupply.TransferSupply | effects/executor.go:208-239 | a transfer changes a supply by what is refused and what evictions bring back; a completed one has nothing refused |
| BankSupply.ExecuteSupply | runtime/application.go:554-561 | every list of effects, failed ones included, with any cache, changes a supply by exactly what its writes bring, less what it drops or has refused, and what evictions bring back |
| BankSupply.RefusedIff | effects/executor.go:225-236 | a transfer loses some of a denomination exactly when a coin of it is reached, paid, and finds no room |
| BankSupply.LosesIff | runtime/application.go:554-561 | a list loses some of a denomination exactly when a reached raw effect drops a seen balance of it or a reached coin of it is refused |
| BankBound.EvictsSaved | store/cache.go:185-192 | within the bound an evicted balance is what is below, and no supply changes |
| BankBound.DebitFits | store/balance_store.go:222-242 | within the bound a debit takes the amount off the one record that is seen |
| BankBound.CreditFits | store/balance_store.go:198-219 | within the bound a credit adds the amount to the one record that is seen |
| BankBound.RefusedByReceiver | effects/executor.go:225-236 | within the bound a coin is refused exactly when it is paid to another account without room |
| BankBound.MoveCoinFits | effects/executor.go:225-236 | within the bound a coin moves on the seen records, exactly when it can be paid and received |
| BankBound.ListFits | runtime/application.go:554-561 | within the bound, and clear of saved entries, a list of effects has nothing brought back by evictions |
| BankBound.ListKeepsSupplyIff | runtime/application.go:554-561 | such a list, if its writes mint nothing, increases no supply and keeps it exactly when it drops and refuses nothing |
| BankCases.FlushKeepsView | store/balance_store.go:285-291 | a flush changes nothing that the balance store shows |
| BankCases.DeletionIsUndone | runtime/application.go:359-366 | a deletion below an unsaved balance succeeds, is not seen, and the flush writes the balance back |
| BankCases.SinglesApply | modules/bank/module.go:158-185 | transfers of one coin each, as a multi-send emits them, do what one transfer of all the coins does |
| BankCases.EvictionMints | store/cache.go:185-192 | the single-coin transfers of a multi-send that touch one balance more than the cache holds: the debit is evicted, the credit stays, and the supply has grown by the payment |
| BankCases.ForeignRecordMints | store/balance_store.go:198-242 | a balance record stored under another account's key lets that account spend coins nobody held |
| SeparateStores.SharedIsSeparate | runtime/application.go:158-166 | while raw effects keep off the cached and used balance keys and these fit in the cache, the wired stores give the outcome, the events and the contents of two separate stores |
| SeparateStores.SeparatedIsRepresented | runtime/application.go:158-166 | stores with usable balance records can be split into such two stores |
| Commutation.TransferElsewhere | effects/executor.go:208-239 | a transfer reads the state store under its balance keys only, and never writes it |
| Commutation.TransferOkIff | effects/executor.go:208-239 | within the bound a transfer succeeds exactly when each of its coins could be moved at the start |
| Commutation.CommuteIff | effects/executor.go:145-265 | a raw effect and a transfer can be swapped on all sound stores exactly when the effect writes or deletes none of the transfer's balance keys |
| Commutation.OrderMatters | effects/effect.go:213-252 | a transfer and a deletion without a declared conflict that cannot be swapped |
| Commutation.InvalidChangesNothing | effects/executor.go:145-150 | on the wired stores an effect outside the stated limits fails and changes nothing |
| Application.Application.BeginBlock | runtime/application.go:267-290 | succeeds exactly on a valid header whose hooks succeed; a valid header starts the block even if a hook fails |
| Application.Application.Commit | runtime/application.go:342-383 | flushes the accounts, then the balances, into the one state store; succeeds exactly when it ends a block in progress |
| Application.Application.GetAccounts | runtime/application.go:115-118 | the look-ups of authorization, each through the account cache |
| Application.Application.Authorize | runtime/application.go:502-522 | the signer if the gates pass, else the source's code; the account cache after the look-ups |
| Application.Application.CheckTx | runtime/application.go:199-264 | succeeds exactly when the gates pass and the handlers accept; changes the account cache only |
| Application.Application.ExecuteTx | runtime/application.go:493-585 | the gates in the source's order, then the effects, then the nonce into the account cache; effects before a failing one stay; a transaction without effects is rejected |
| Authenticity.ExecutedIsSigned | runtime/application.go:502-522 | an executed transaction had the nonce of its account as the account store shows it, and its own signatures are of its bytes to sign |
| Authenticity.ExecutedHasSigner | runtime/application.go:515-522 | with positive thresholds, a chain of delegation among the seen accounts ends with an Ed25519 signature of those bytes by a listed key |
| Authenticity.FlatPassesIff | types/transaction.go:230-243 | a transaction without delegates passes the gates exactly when it is well-formed, has the right nonce and is signed by listed keys that reach the threshold, each given once |
| Authenticity.FlatExecutesIff | runtime/application.go:493-585 | it executes exactly when, besides, a block is in progress and its effects, of which there are some, can be applied |
| Authenticity.LooksUpNoMore | types/transaction.go:239-243 | an ill-formed transaction looks up nothing, and one with a wrong nonce no delegate |
| Authenticity.FailsIff | runtime/application.go:502-531 | a transaction fails, rather than being rejected, exactly on an undecodable account record or, past the gates, outside a block |
| Openings.OpenIff | runtime/application.go:267-383 | over every run a block is in progress exactly from a header with height, chain and time to the next saved commit |
| Openings.ExecutesInOpenBlock | runtime/application.go:524-531 | a transaction executes only then |
| Wiring.EffectsKeepAccounts | effects/write_effect.go:53-60 | no list of effects, failed ones included, changes an account record, and every cached balance key has a slash |
| Wiring.CommitStaysWired | runtime/application.go:359-366 | a commit in a block flushes both caches, neither of which can fail or write over the other |
| Wiring.RunStaysWired | runtime/application.go:493-585 | over every run the empty key is never cached, only account names are unsaved in the account cache and only slashed keys are in the balance cache |
| Nonces.LookupsSee | store/cache.go:185-192 | with any cache, look-ups bring back the stored record of every account that one of them evicts, and change no other |
| Nonces.LiveIsSnapshotIff | runtime/application.go:115-118 | what authorization reads through the cache is what was seen when it began, exactly unless an earlier look-up evicted a record that differs from the stored one |
| Nonces.SucceedsIff | runtime/application.go:493-585 | which inputs execute a transaction |
| Nonces.StepNonce | runtime/application.go:493-585 | with any cache, an input raises the nonce of the account whose transaction it executes, brings back the stored nonce of any other account that a look-up or the closing write evicts, and changes no nonce besides |
| Nonces.ConsecutiveIff | runtime/application.go:493-585 | with any cache, an account's executed nonces are consecutive from its first one, modulo 2^64, all along a run, exactly when no input of the run evicts a nonce that differs from the stored one; without a record nothing executes |
| Nonces.NoReplay | types/transaction.go:239-243 | if no nonce of the account goes back so, two executions share a nonce exactly when a multiple of 2^64 executions lies between them; the same transaction runs again after 2^64 executions at the earliest |
| NonceBound.CommitFits | runtime/application.go:359-366 | a commit saves every account and changes none that is seen |
| NonceBound.BoundedStep | runtime/application.go:493-585 | while the accounts looked up between commits fit in the cache, a step changes a nonce only by executing a transaction that carried it, to the next value |
| NonceBound.BoundedNeverGoesBack | runtime/application.go:146-156 | in every run within that bound no nonce goes back |
| NonceBound.NoncesAreConsecutive | runtime/application.go:493-585 | in every run within that bound the nonces of every account are consecutive all along |
| NonceReplay.SavedGate | runtime/application.go:502-522 | if every cached account is as stored, the gates depend on the state store alone |
| NonceReplay.ReplayPastBound | runtime/application.go:493-585 | with any cache size and any delegates: after as many checks of other stored accounts as the cache holds, an executed transaction without raw writes executes again exactly when its effects can be applied again |
| ApplicationSupply.CommitSupply | runtime/application.go:359-366 | a commit keeps every supply |
| ApplicationSupply.RunSupply | runtime/application.go:493-585 | over every run of blocks, with any caches, a supply changes by exactly what raw writes bring, less what is dropped or refused, and what evictions bring back |
| ApplicationSupply.RunKeepsSupplyIff | runtime/application.go:493-585 | if between commits the used balances fit in the cache, raw effects are clear of its saved entries and raw writes mint nothing, no supply grows, and it is kept exactly when no input drops a seen balance or has a coin refused |
| ApplicationSupply.DeletionLowersSupply | modules/auth/module.go:190-194 | an executed deletion of `store/key` lowers the supply by what is stored for the account `store` if that is not cached, and otherwise not at all; the next commit changes neither |
| ApplicationSupply.EvictionMintsInRun | runtime/application.go:493-585 | one transaction of such a multi-send past the bound makes a supply grow |
| Octets.Int2OctetsRoundTrip | crypto/rfc6979.go:110-118 | always the asked length; decodes to the integer exactly when it fits, else to its leading octets (section 2.3.3 of RFC 6979) |
| Octets.Int2OctetsUnique | crypto/rfc6979.go:110-118 | the only octets of that length that stand for the integer |
| Octets.Bits2IntTakesLeftmost | crypto/rfc6979.go:132-141 | the value of the leftmost bits, as many as the order has (section 2.3.2 of RFC 6979) |
| Octets.Bits2OctetsReduces | crypto/rfc6979.go:122-128 | for every hash and every positive order, one subtraction reduces modulo the order, in exactly the order's length (section 2.3.4 of RFC 6979) |
| Octets.Start | crypto/rfc6979.go:42-75 | steps b to g of section 3.2 of RFC 6979, with `K` and `V` as HMAC terms |
| Octets.OutputBlock | crypto/rfc6979.go:79-86 | the j-th block of step h.2 is the j-th value of the chain `V = HMAC_K(V)` |
| Octets.RetryTerms | crypto/rfc6979.go:96-104 | step h.3 sets `K = HMAC_K(V, 0x00)` and then `V = HMAC_K(V)` |
| Octets.OneBlockTerms | crypto/rfc6979.go:77-105 | for an order of 32 octets the candidate is one HMAC value, and the next state is as step h.3 has it |
| Octets.Fill | crypto/rfc6979.go:79-86 | the first blocks of the output chain, enough for the order's length |
| Octets.Search | crypto/rfc6979.go:77-105 | the first usable candidate, or none among the attempts made |
| Octets.Nonce | crypto/rfc6979.go:32-106 | the first candidate strictly between zero and the order, in the sequence determined by key and hash |
| LowS.NormalizeIsLow | crypto/signature.go:76-110 | fails exactly on a wrong length or algorithm; otherwise, for any 64 bytes, keeps `r` and gives a low `s` equal to the old one or its negation modulo the order |
| LowS.NormalizeByCurve | crypto/signature.go:76-110 | for each curve, with its order in figures, `r` stays and `s` becomes the low one of itself and its negation |
| LowS.NormalizeIsIdempotent | crypto/signature.go:76-110 | fixes exactly the low signatures; twice is once |
| LowS.NormalizeIdentifies | crypto/signature.go:76-110 | two signatures have the same normal form exactly when they share `r` and agree on `s` up to sign modulo the order |
| LowS.NormalizeUndoesMakeHigh | crypto/signature.go:119-153 | the high form is never low and normalizes to the same signature |
| LowS.MakeHighUndoesNormalize | crypto/signature.go:112-153 | restores a signature exactly when its `s` is high and at most the order |
| LowS.MakeHighIsNoInverse | crypto/signature.go:112-153 | a signature with `s` above the order that is not restored |
| Coins.IsValid | types/coin.go:53-79 | true exactly for valid coins in strictly ascending denominations |
| Coins.ToCoins | types/coin.go:136-150 | the positive amounts of the map, ascending by denomination, for any order of the map |
| Coins.Add | types/coin.go:116-150 | lists the collected amounts with the other's added, saturating |
| Coins.Sub | types/coin.go:154-184 | lists the collected amounts with the other's taken off, or refuses |
| Coins.AddIsSaturatingSum | types/coin.go:116-150 | for valid operands the sum is canonical and is the saturating sum in every denomination |
| Coins.SubIffAllGTE | types/coin.go:154-194 | subtraction succeeds exactly when every denomination suffices |
| Coins.SubIsDifference | types/coin.go:154-184 | the difference is canonical and is the difference in every denomination |
| Coins.CanonicalIsUnique | types/coin.go:53-112 | canonical coins are determined by their amounts |
| Coins.AddThenSub | types/coin.go:116-184 | adding and then subtracting succeeds, and gives back the coins exactly when no denomination saturates |

## Left out

- Octets.Search: gives up like `Octets.Nonce`, which calls it.
- Octets.Nonce: gives up after a given number of candidates, because whether a usable one ever comes depends on HMAC; the source loops on.
- Application.Application.Authorize: as `ExecuteTx`.
- Application.Application.ExecuteTx: authorization sees the accounts as they are when it starts, and which delegates it looks up is given; `Nonces.LiveIsSnapshotIff` says exactly when reading them one by one through the cache gives the same. Chain identifier and sign document are part of the bytes to sign, and the message, memo and fee checks of `Transaction.ValidateBasic` are one given verdict.
- Application.Application.CheckTx: as `ExecuteTx`; it does not run beside other calls.
- Application.Application.Commit: whether the state store saves a version is given.
- Application.Application.BeginBlock: whether the module hooks succeed is given, and what they do is not modelled.
- NonceBound.NoncesAreConsecutive: asks that the accounts looked up between commits fit in the account cache; `Nonces.ConsecutiveIff` has the exact condition for every run.
- BankSupply.ExecuteSupply: asks that no valid balance is stored, or written by an effect, under a foreign key; without that the law is false (`BankCases.ForeignRecordMints`). The source does not reach such a store by itself: `executeWrite` stores a placeholder that decodes to no balance (`effects/executor.go:194`).
- ApplicationSupply.RunSupply: asks the same.
- ApplicationSupply.RunKeepsSupplyIff: the bound and the clearance of saved entries are conditions; without them `RunSupply` has the exact change.
- SharedStore.SharedExecutor.ExecuteEffect: a write stores the value of the effect, as in `Executor`.
- Executor.Executor.ExecuteEffect: a write stores the value of the effect, where the source stores a constant placeholder (`effects/executor.go:194`); the destination of a read is not filled.
- Graph.Graph.IndexKeys: does not build the index by primary key, which only `DetectConflicts` reads.
- BankHandler.HandleMultiSend: the attributes of the closing event are given, and what the balance capability reads is not tied to the executor's balances, since it reads under a prefix.
- Authorization.VerifyAuthorization: nil delegated authorizations and the structural limits of `Authorization.ValidateBasic` are not modelled.
- CachedStore.CachedObjectStore.Flush: the backing store is the memory store and does not fail on its own; `Close` and iterators of the cached store are not modelled, and iterators ignore unflushed writes.
- `OptimizeBatches`, `DetectConflicts` and scheduler statistics: merged batches may hold ordered effects, and the rest would add only easy members.
- Queries, `EndBlock` and module hooks, which reach the stores through handlers that are not modelled.
- Rolling back effects of a failed transaction: the source does not do it.
- Reads through module capabilities, which use prefixed stores, while the executor uses unprefixed ones.
- Nil receivers and nil arguments, which Go callers can pass and a Dafny value cannot be.
- Staking shares, key rings, key stores, the IAVL tree and its proofs, generated types, JSON of sign documents, curve arithmetic, locks, logging and object pools.
