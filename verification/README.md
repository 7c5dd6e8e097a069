# Verified models of the concurrent and distributed stores

This project models the hard cores of the repository in Dafny and proves their properties for all inputs, all
interleavings and all runs. `dafny verify dfyconfig.toml` checks everything.

## What is modelled

- **Lazy concurrent list.** `LazyListHeap`, `LazyList` and `LazyListRuns` model any number of threads over a node heap,
  one step per access to a shared `next`, `marked` or lock word. `SerialLazyList` is the list as one thread runs it,
  with its loops and writes, on the same heap and against the same key set. `LazyListAborts` says when an update gives
  up, `LazyListProgress` that it gets through undisturbed.
- **Replicated writes over compare-and-swap locks.** `ReplicaLocks`, `ReplicaSteps` and `ReplicaRuns` model clients that
  try-lock one word on every replica in cyclic order, back out on conflict, send, and release. `owner` and `committed`
  are history. `ReplicaProgress` says which calls can complete.
- **One-sided reads.** `OneSidedGet` models a get that reads two buckets of a store while that store is being written.
- **Concurrent cuckoo set.** `CuckooCore`, `CuckooMachine`, `CuckooSteps`, `CuckooAbstract` and `CuckooRuns` model N
  threads at a fixed bucket count, where a resize gives its lock back and starts over. The unlocked search returns
  any in-bounds path. A value being moved counts once: the multiset leaves out the source cell between the copy and
  the clear. `CuckooOverlap` is a concrete bad run; `CuckooOutcomes` says what an insert makes of what it finds under its locks.
- **Path search.** `PathSearch` is the breadth-first search and the packed path code of both cuckoo stores, over reads
  that may come out differently every time. What it finds in a table that stands still is stated with `Stable`.
- **Cuckoo set as one thread runs it.** `CuckooSet` is the class with its two tables; `CuckooContents` and
  `CuckooRehash` say what its cells stand for and what doubling does to them. `CuckooReach`
  says how far an insert looks for room. `CuckooExamples` is a run that goes wrong, `CuckooDepth` one over two hops.
- **Single-table cuckoo map.** `FlatCuckoo` is the class over one flat array of entries and lock words; `FlatStore`
  says what map the entries stand for, `FlatPaths` which displacement paths can be carried out, `FlatReach` how
  far an insert looks. `SecondaryHash` is the mixing function of the store on 32-bit words; `FlatExample`
  reaches a table in which no path can be followed.
- **Serial k-means.** `KMeans` has the two classes with their loops; `KMeansCost` has the partition, the distortion and
  the algebra, over the reals. `KMeansExample` is a round that moves points and gains nothing.
- **Banker.** `Banker`, `BankerSteps` and `BankerRuns` model depositing and balancing threads under reader/writer
  locks; `ledger` is history. `SimpleMap` is the map of sorted linked buckets; `SerialBank` runs on it.
  `BankTotals` has the laws of totals and postings.
- **Wire protocol.** `Wire` prints, reads, checks and takes apart one request line in a buffer.

## Where the code does not do what it is meant to

The code is modelled as written, and the exact condition is proved:

- `CuckooHash/Cuckoo.hpp:128` computes both indices before the retry loop, so they are stale after a resize
  (`StaleInsert` and `StaleIndexExactly` say when the value is still found after any number of resizes; `StaleExample` is
  a run in which it is not).
- `CuckooHash/Cuckoo.hpp:551` bounds the copy loop by half of the old buckets. `Resize` uses the bound as written and
  keeps everything exactly if the second half was empty; `PrefixLosesExample` is a table that loses a value.
  With all buckets copied, doubling keeps everything that fits (`CopyTables`).
- `CuckooHash/Cuckoo.hpp:561-564` may find no slot and write at index -1. `Resize` reports false there, exactly when a
  new table-2 bucket is overfull (`Table2Overflows`, `CopiedFits`, with a table in `OverflowExample`); table 1 cannot
  overflow (`Table1Fits`).
- `CuckooHash/Cuckoo.hpp:467-472` and `:535` do not look for the value again after re-locking. The set property needs
  that no two inserts of one value overlap (`SetWhenInsertsDoNotOverlap`); `OverlappingInsertsStoreTwice` is a run
  without it. As a multiset the operations are right in every run (`Linearizable`).
- `ReplicatedKeyValueStoreRDMA/Persistence/KeyValueStore/Cuckoo.hpp:475` tests hash 2 for every hop. The map is
  safe, but with nothing else running a path found can be carried out if and only if every value hopping out of
  table 2 has equal hashes (`PathFitsExactly`, `InsertAttempt`); `RetryExample` reaches a table in which none can.
- `ReplicatedKeyValueStoreRDMA/App/Remote.cpp:230-239` can complete if and only if no two keys have one index
  (`CompletesExactly`, `SharedIndexAborts`).
- `DistributedKeyValueStore/Common/Message.cpp:4-16` does not read a minus sign, and overflows in an intermediate for
  the 48 largest ints (`RoundTrip`, `PrintedWithin32Bits`).

## Conventions

Reserved values are preconditions: 0 (`EMPTY`) in the cuckoo stores, INT_MIN and INT_MAX in the list. Random choices are
parameters or nondeterministic. `int` keys meet unsigned bucket counts modulo 2^32. A `Call` is the interval from
an invocation of a thread to its return. Sources are cited relative to the repository root.

## Model

| member | source | states |
|---|---|---|
| `LazyListRuns.Linearizable` | DistributedKeyValueStore/Persistence/KeyValueStore/ConcurrentList.cpp:13-87 | In every interleaving of any number of threads, every completed `contains`, `add` and `remove` on a key between the sentinels has a moment inside its interval at which its answer is right; for a TRUE update that moment is its own step and changes the set by exactly its key |
| `LazyListRuns.ContainsLinearizes` | DistributedKeyValueStore/Persistence/KeyValueStore/ConcurrentList.cpp:13-19 | The lock-free `contains` never aborts and its answer agrees with the key set at some moment of the call, even when the traversal runs over marked and unlinked nodes |
| `LazyListRuns.ContainsSentinel` | DistributedKeyValueStore/Persistence/KeyValueStore/ConcurrentList.cpp:13-19 | Asking for INT_MIN or INT_MAX answers TRUE although neither is ever in the set: why both are reserved |
| `LazyListRuns.SetChangesOnlyAtPoints` | DistributedKeyValueStore/Persistence/KeyValueStore/ConcurrentList.cpp:42-47 | A call changes the key set at most once, only if it is an update that answers TRUE, and the change is its linearization point |
| `LazyListRuns.OnlyUpdatesChangeSet` | DistributedKeyValueStore/Persistence/KeyValueStore/ConcurrentList.cpp:43-46 | Of all steps only setting `marked` and linking a new node change the key set; the unlink does not |
| `LazyListRuns.UnsuccessfulCallWritesNoNode` | DistributedKeyValueStore/Persistence/KeyValueStore/ConcurrentList.cpp:30-42 | A call that aborts, answers FALSE or only reads writes no key, mark or link of any node |
| `LazyListRuns.ReachableStateShape` | DistributedKeyValueStore/Persistence/KeyValueStore/ConcurrentList.cpp:22-87 | In every reachable state keys increase along `next` from every node ever allocated and reach the tail, unmarked nodes are all linked, no two unmarked nodes share a key, and a marked node is linked only while its remover is between the mark and the unlink |
| `LazyListRuns.LocksInEveryRun` | DistributedKeyValueStore/Persistence/KeyValueStore/ConcurrentList.cpp:30-36 | A node lock has at most one holder in every reachable state, and a thread outside a call holds none |
| `LazyListRuns.NoBadDereference` | DistributedKeyValueStore/Persistence/KeyValueStore/ConcurrentList.cpp:14-29 | Every pointer a thread may follow next is an allocated node, so every enabled step extends the run |
| `LazyListRuns.ValuesComeFromAdds` | DistributedKeyValueStore/Persistence/KeyValueStore/ConcurrentList.cpp:70-80 | No step changes a node's key or value, and a new node has those of the `add` that links it |
| `LazyListAborts.AbortsExactly` | DistributedKeyValueStore/Persistence/KeyValueStore/ConcurrentList.cpp:30-36 | An `add` or `remove` answers ABORT_FAILURE if and only if one of its own steps tries the lock of one of its two nodes while another thread holds it |
| `LazyListAborts.AloneNeverAborts` | DistributedKeyValueStore/Persistence/KeyValueStore/ConcurrentList.cpp:30-36 | So a call during which no other thread holds a node lock never aborts |
| `LazyListProgress.UpdateCompletes` | DistributedKeyValueStore/Persistence/KeyValueStore/ConcurrentList.cpp:22-87 | From any reachable state with no node lock held, an update run alone comes to an end: TRUE or FALSE as the set has it, with the set changed accordingly |
| `LazyList.StepInv` | DistributedKeyValueStore/Persistence/KeyValueStore/ConcurrentList.cpp:22-87 | Every step of every thread keeps the list and lock invariant |
| `LazyList.MarkStep` | DistributedKeyValueStore/Persistence/KeyValueStore/ConcurrentList.cpp:44 | The mark takes exactly its key out of the set |
| `LazyList.UnlinkStep` | DistributedKeyValueStore/Persistence/KeyValueStore/ConcurrentList.cpp:45 | Writing the `next` value read one step before leaves the set alone and keeps every other node linked |
| `LazyList.LinkStep` | DistributedKeyValueStore/Persistence/KeyValueStore/ConcurrentList.cpp:77-80 | The link finds its key absent and puts exactly that key in |
| `LazyListHeap.ReachUnlinked` | DistributedKeyValueStore/Persistence/KeyValueStore/ConcurrentList.cpp:45 | Unlinking a node loses no other node from any chain |
| `LazyListHeap.UnlinkedIsGone` | DistributedKeyValueStore/Persistence/KeyValueStore/ConcurrentList.cpp:45 | Unlinking a node takes it off every chain that led through its predecessor |
| `LazyListHeap.ReachLinked` | DistributedKeyValueStore/Persistence/KeyValueStore/ConcurrentList.cpp:78-80 | Linking a new node neither loses nor adds any other reachability |
| `SerialLazyList.SerialLazyList.Contains` | DistributedKeyValueStore/Persistence/KeyValueStore/ConcurrentList.cpp:13-19 | As one thread runs it: TRUE exactly for the keys of the set and the two reserved ones |
| `SerialLazyList.SerialLazyList.Remove` | DistributedKeyValueStore/Persistence/KeyValueStore/ConcurrentList.cpp:22-52 | Takes the key out and answers whether it was there; it aborts, with heap and lock words unchanged, exactly if the lock of one of the two nodes around the key is held |
| `SerialLazyList.SerialLazyList.Add` | DistributedKeyValueStore/Persistence/KeyValueStore/ConcurrentList.cpp:55-87 | Puts the key in and answers whether it was absent; it aborts exactly if the lock of one of the two nodes around the key is held; FALSE and ABORT_FAILURE leave the heap as it was |
| `SerialLazyList.SerialLazyList.Size` | DistributedKeyValueStore/Persistence/KeyValueStore/ConcurrentList.cpp:96-104 | Counting nodes from -2 gives the number of keys |
| `ReplicaRuns.ReplicasAgree` | ReplicatedKeyValueStoreRDMA/App/Remote.cpp:203-226 | Any two replicas are delivered the same writes of an index in the same order, but for at most the last, which belongs to the one client that owns all lock words of the index; with nobody sending they are equal |
| `ReplicaRuns.TrueInsertIsEverywhere` | ReplicatedKeyValueStoreRDMA/App/Remote.cpp:203-226 | Per call of a single insert, from its invocation to its answer: its own send steps deliver its element to every replica exactly once if it answers TRUE, and nothing to any replica if it aborts |
| `ReplicaRuns.TrueInsertAddsOne` | ReplicatedKeyValueStoreRDMA/App/Remote.cpp:210-225 | So between the invocation and TRUE every replica has got the element once more than it had, even if an equal pair was inserted before |
| `ReplicaRuns.AbortsExactly` | ReplicatedKeyValueStoreRDMA/App/Remote.cpp:173-200 | A finished insert has aborted if and only if one of its own swaps met a lock word that was 1 |
| `ReplicaRuns.WordsMatchOwners` | ReplicatedKeyValueStoreRDMA/App/Remote.cpp:173-200 | A lock word is 1 exactly when a client owns it, and an owner is always inside a call |
| `ReplicaRuns.OneHolderPerIndex` | ReplicatedKeyValueStoreRDMA/App/Remote.cpp:173-200 | At most one client owns all lock words of an index, and every sender does |
| `ReplicaRuns.ReleasesFindOne` | ReplicatedKeyValueStoreRDMA/App/Remote.cpp:155-171 | Every release CAS finds 1 in a word its own client set |
| `ReplicaRuns.QuietMeansUnlocked` | ReplicatedKeyValueStoreRDMA/App/Remote.cpp:193-196 | With no call under way every lock word is 0: aborts and multi-key back-outs leak nothing |
| `ReplicaRuns.SharedIndexAborts` | ReplicatedKeyValueStoreRDMA/App/Remote.cpp:228-239 | A multi-element insert with two keys of one index never returns TRUE |
| `ReplicaProgress.CompletesExactly` | ReplicatedKeyValueStoreRDMA/App/Remote.cpp:228-265 | From any reachable state with all lock words free, an insert can be carried through to TRUE by steps of its client alone if and only if its keys have pairwise different indices; if they have, no such steps lead to an abort, whatever is drawn at random |
| `ReplicaLocks.SharesIndex` | ReplicatedKeyValueStoreRDMA/App/Remote.cpp:71-78 | Two keys share an index if and only if they differ by a multiple of 125000 and, unless they are multiples of it, have one sign; different keys from 0 to 124999 never do |
| `ReplicaRuns.RunsExtend` | ReplicatedKeyValueStoreRDMA/App/Remote.cpp:173-265 | Every enabled step addresses an existing replica and extends the run |
| `ReplicaSteps.StepInv` | ReplicatedKeyValueStoreRDMA/App/Remote.cpp:155-265 | Every step keeps lock words, owners and delivery logs consistent |
| `OneSidedGet.GetNeverMisses` | ReplicatedKeyValueStoreRDMA/App/Remote.cpp:80-113 | A get that reads the primary and then the secondary bucket finds a key that is in the store throughout, whatever displacements, inserts and removes overlap it |
| `OneSidedGet.GetIsRightAtSomeMoment` | ReplicatedKeyValueStoreRDMA/App/Remote.cpp:80-113 | Every get answer agrees with the store at some moment of the call |
| `OneSidedGet.SecondaryKept` | ReplicatedKeyValueStoreRDMA/Persistence/KeyValueStore/Cuckoo.hpp:473-497 | A key that stays in the store is never written out of its secondary bucket: hops land there only |
| `OneSidedGet.StepInv` | ReplicatedKeyValueStoreRDMA/Persistence/KeyValueStore/Cuckoo.hpp:465-509 | Every guarded write keeps a key under displacement in both its cells, and locks exclusive |
| `CuckooRuns.Linearizable` | CuckooHash/Cuckoo.hpp:127-183 | At a fixed bucket count, for any number of threads and any path the unlocked search may return, every completed insert, remove and contains takes effect on a multiset at one step inside its interval |
| `CuckooRuns.EffectIsPoint` | CuckooHash/Cuckoo.hpp:147-173 | A step of a call that changes the multiset belongs to a TRUE insert or remove and is its linearization point |
| `CuckooRuns.OneEffectPerCall` | CuckooHash/Cuckoo.hpp:147-173 | No call changes the multiset twice |
| `CuckooRuns.SetWhenInsertsDoNotOverlap` | CuckooHash/Cuckoo.hpp:403-478 | If no two inserts of one value overlap, no value is ever stored twice and an insert answers TRUE exactly when its value was absent |
| `CuckooOverlap.OverlappingInsertsStoreTwice` | CuckooHash/Cuckoo.hpp:466-473 | That condition is needed: a reachable state, from tables that store every value once, with one value stored twice by two overlapping inserts |
| `CuckooRuns.AlwaysPlaced` | CuckooHash/Cuckoo.hpp:480-533 | In every reachable state each value is in its hash-1 bucket of table 1 or its hash-2 bucket of table 2 |
| `CuckooRuns.Conservation` | CuckooHash/Cuckoo.hpp:403-536 | Whenever no bucket lock is held, occupied cells are the initial ones plus successful inserts minus successful removes |
| `CuckooRuns.NoOverwrite` | CuckooHash/Cuckoo.hpp:147-152 | A cell occupied before and after a step keeps its value, so no write lands on an occupied cell |
| `CuckooRuns.LocksAtExits` | CuckooHash/Cuckoo.hpp:403-536 | A successful inner insert exits holding exactly {idx1, idx2}; every other exit and every start of an acquisition phase holds nothing |
| `CuckooRuns.TakesAscending` | CuckooHash/Cuckoo.hpp:223-337 | The lock a thread asks for is above all it owns, so no thread asks for its own spinlock |
| `CuckooRuns.DeadlockFree` | CuckooHash/Cuckoo.hpp:127-157 | As long as some call is under way some thread can take its next step, and the run goes on |
| `CuckooRuns.DeadlockFreeWithWriterPreference` | CuckooHash/Cuckoo.hpp:538-540 | The same when a waiting resize holds back new readers of the global lock |
| `CuckooRuns.RunsExtend` | CuckooHash/Cuckoo.hpp:403-536 | Every enabled step extends the run: no index is ever out of range |
| `CuckooOutcomes.LookOutcome` | CuckooHash/Cuckoo.hpp:403-421 | At every first look of an insert in a run: FALSE if and only if the value is in one of its two buckets; else the first empty slot of its table-1 bucket, then of its table-2 bucket; the search if and only if both are full |
| `CuckooOutcomes.HopOutcome` | CuckooHash/Cuckoo.hpp:480-521 | At every hop in a run: the insert starts over if and only if the target is taken, the source empty or its value belongs elsewhere; otherwise the target gets the value |
| `CuckooOutcomes.DirectOutcome` | CuckooHash/Cuckoo.hpp:466-473 | A path of no hops starts the insert over if and only if its cell has been taken |
| `CuckooAbstract.StepEffect` | CuckooHash/Cuckoo.hpp:403-536 | Each step changes the multiset by what its operation says and by nothing else; a displacement changes nothing |
| `CuckooAbstract.LookupIsExact` | CuckooHash/Cuckoo.hpp:176-180 | With both bucket locks held a value is found exactly when the multiset has it, even during displacements elsewhere |
| `CuckooSteps.StepInv` | CuckooHash/Cuckoo.hpp:403-536 | Every step keeps placement, lock ownership and the global lock consistent |
| `CuckooCore.LockOrder` | CuckooHash/Cuckoo.hpp:223-235 | `lock_two` and `lock_three` take each distinct index once, in ascending order |
| `CuckooCore.UnlockOrder` | CuckooHash/Cuckoo.hpp:255-282 | `unlock_two` and `unlock_three` release each distinct index once |
| `CuckooCore.HashDigits` | CuckooHash/Cuckoo.hpp:214-221 | The two hashes for ten buckets: the last digit of a value and the one before it, negative values as unsigned |
| `PathSearch.Search` | CuckooHash/Cuckoo.hpp:362-394 | The search ends however its reads come out; any code it returns is in bounds and, for the widths and depth limits of the two stores, below 2^31; in a table that stands still it is a shortest eviction path, and the search comes back with nothing only if every bucket within the depth limit is full, or if it takes a place for a loop because another place, full and no deeper, is remembered by the same value while all buckets nearer are full |
| `PathSearch.ScanBucket` | CuckooHash/Cuckoo.hpp:378-391 | One bucket from a random slot on: the queue weight drops, an empty slot ends it, else the bucket is done and its occupants wait |
| `PathSearch.DecodePath` | CuckooHash/Cuckoo.hpp:423-443 | The decoding loop recovers the root choice and all slots, inside the path array |
| `PathSearch.DecodeEncode` | CuckooHash/Cuckoo.hpp:423-427 | Decoding is the inverse of packing a root choice and slots |
| `PathSearch.BucketsDistinct` | CuckooHash/Cuckoo.hpp:424-464 | The buckets of a shortest path are pairwise distinct |
| `CuckooSet.CuckooSet.InsertAttempt` | CuckooHash/Cuckoo.hpp:127-157 | One pass of the insert loop: DUPLICATE exactly if stored, SUCCESS adds one copy, in the first empty cell of the two buckets if there is one, RESIZE and RETRY leave the contents alone even after a partial displacement; if the table stands still it is never RETRY, and RESIZE only if every bucket that six hops lead to is full or two ways of at most six hops see one value |
| `CuckooReach.GivesUpWithinSix` | CuckooHash/Cuckoo.hpp:362-394 | A search that gives up in a quiet table has no room within six hops of its two buckets, or sees one value twice within six hops |
| `CuckooDepth.TwoHopExample` | CuckooHash/Cuckoo.hpp:362-394 | By inserts and removes alone, a table of eight buckets in which neither the buckets of 64 nor any one hop away have room, and the insert of 64 succeeds, over two hops |
| `CuckooSet.CuckooSet.InnerInsert` | CuckooHash/Cuckoo.hpp:403-536 | The inner insert for any two indices its caller computed: DUPLICATE exactly if found there, SUCCESS has written one cell of those two buckets, in table 1 if its bucket had room, else in table 2 if that one had; if the table stands still it is never RETRY, and RESIZE only where the search gives up |
| `CuckooSet.CuckooSet.StaleInsert` | CuckooHash/Cuckoo.hpp:127-128 | After any number of resizes an insert with its old indices stores its value, and a lookup finds it if and only if the hash used is the same for both bucket counts; which hash is used follows from the two buckets before the call if one of them has room |
| `CuckooSet.CuckooSet.Displace` | CuckooHash/Cuckoo.hpp:480-533 | However far the loop gets the contents stay the same; along an evictable path it succeeds and frees the first cell |
| `CuckooSet.CuckooSet.Hop` | CuckooHash/Cuckoo.hpp:488-521 | The hop is made exactly when the target is free, the source occupied and its value hashes to the target bucket |
| `CuckooSet.CuckooSet.Rewalk` | CuckooHash/Cuckoo.hpp:429-464 | Re-walking decoded slots gives in-range cells from idx1 or idx2; in a quiet table it gives back the path found |
| `CuckooSet.CuckooSet.FindPath` | CuckooHash/Cuckoo.hpp:418-464 | In a quiet table a path found can be carried out |
| `CuckooSet.CuckooSet.Remove` | CuckooHash/Cuckoo.hpp:159-173 | Takes out one copy and answers whether there was one |
| `CuckooSet.CuckooSet.Contains` | CuckooHash/Cuckoo.hpp:175-183 | TRUE exactly for stored values |
| `CuckooSet.CuckooSet.Size` | CuckooHash/Cuckoo.hpp:185-194 | The number of occupied cells |
| `CuckooSet.CuckooSet.Resize` | CuckooHash/Cuckoo.hpp:538-577 | With the loop bound as written: succeeds exactly if the first half of the old buckets fits, and then holds exactly the contents of that half, placed by the new hashes; the whole contents survive exactly if nothing was stored in the second half |
| `CuckooSet.CuckooSet.CopyTables` | CuckooHash/Cuckoo.hpp:551-567 | The copy loop over any number of old buckets: it fails exactly on an overfull new table-2 bucket; over all buckets doubling keeps the whole multiset and the placement exactly if every new table-2 bucket can hold what is bound for it |
| `CuckooContents.FoundIffStored` | CuckooHash/Cuckoo.hpp:53-61 | A value is found in its two buckets exactly when it is stored |
| `CuckooContents.MoveKeepsContents` | CuckooHash/Cuckoo.hpp:502-503 | A hop changes no value's count |
| `CuckooRehash.Table1Source` | CuckooHash/Cuckoo.hpp:214-221 | Doubling: a value in new table-1 bucket j was in old bucket j mod b |
| `CuckooRehash.Table2Source` | CuckooHash/Cuckoo.hpp:214-221 | Doubling: a value in new table-2 bucket j was in old bucket 2j mod b or (2j + 1) mod b |
| `CuckooRehash.Table1Fits` | CuckooHash/Cuckoo.hpp:553-558 | Table 1 never overflows in a resize |
| `CuckooRehash.Table2Overflows` | CuckooHash/Cuckoo.hpp:560-565 | A full new table-2 bucket means more values are bound for it than it can hold |
| `CuckooRehash.CopiedFits` | CuckooHash/Cuckoo.hpp:560-565 | Conversely a completed copy means every new table-2 bucket could hold what was bound for it |
| `CuckooRehash.PrefixKeepsContentsExactly` | CuckooHash/Cuckoo.hpp:551 | Copying the first n old buckets keeps the contents if and only if nothing is stored in the buckets after them |
| `CuckooRehash.PrefixLosesExample` | CuckooHash/Cuckoo.hpp:551 | A well-placed table of two buckets that a resize empties |
| `CuckooRehash.OverflowExample` | CuckooHash/Cuckoo.hpp:560-565 | A well-placed table of four buckets in which a resize finds no slot for a value |
| `CuckooRehash.StaleIndexExactly` | CuckooHash/Cuckoo.hpp:128 | A value in one cell only, at an index computed for b buckets, is found in a table of n if and only if the hash is the same for b and n; for table 1 and n a multiple of b, if and only if the value mod n is below b |
| `CuckooExamples.StaleExample` | CuckooHash/Cuckoo.hpp:127-157 | Inserting 15 in a full set of one bucket: the pass fails, the resize loses all twelve values, the next pass stores 15 with the old index, and `contains` does not find it |
| `FlatCuckoo.FlatCuckoo.InsertAttempt` | ReplicatedKeyValueStoreRDMA/Persistence/KeyValueStore/Cuckoo.hpp:391-510 | One pass: DUPLICATE exactly if the key is present, DUPLICATE and SUCCESS put the pair into the map, in the first empty entry of the two buckets if there is one, RESIZE and RETRY leave the map alone even after a partial displacement; in a table that stands still it is RETRY exactly if a value on the path found would hop out of table 2 with unequal hashes, and RESIZE only if every bucket that four hops lead to is full or two ways of at most four hops see one key |
| `FlatReach.GivesUpWithinFour` | ReplicatedKeyValueStoreRDMA/Persistence/KeyValueStore/Cuckoo.hpp:358-389 | A search that gives up in a quiet table has no room within four hops of its two buckets, or sees one key twice within four hops |
| `FlatCuckoo.FlatCuckoo.Displace` | ReplicatedKeyValueStoreRDMA/Persistence/KeyValueStore/Cuckoo.hpp:465-508 | However far it gets the map is unchanged; it gets through exactly where the guards let it, over distinct cells exactly if the last is free and every hop leads to its value's hash-2 bucket, along a path of a quiet table exactly if all values hopping out of table 2 have equal hashes |
| `FlatPaths.PathFitsExactly` | ReplicatedKeyValueStoreRDMA/Persistence/KeyValueStore/Cuckoo.hpp:465-508 | The displacement loop gets through a path of a quiet table if and only if every value that would hop out of table 2 has two equal hashes, even if the path comes back to a cell |
| `FlatPaths.ShortestIsSearchPath` | ReplicatedKeyValueStoreRDMA/Persistence/KeyValueStore/Cuckoo.hpp:418-452 | What the search finds and the re-walk decodes in a quiet table is such a path |
| `FlatExample.RetryExample` | ReplicatedKeyValueStoreRDMA/Persistence/KeyValueStore/Cuckoo.hpp:473-475 | With the mixing function of the store and by inserts and removes alone, a table of eight buckets in which the room nearest to 128 is two hops away: the insert of 128 comes back with RETRY whatever the random numbers |
| `FlatExample.StoreMixSuits` | ReplicatedKeyValueStoreRDMA/Persistence/KeyValueStore/Cuckoo.hpp:200-208 | Where `secondary_hash`, on 32-bit words that wrap around, sends the keys of that run |
| `FlatCuckoo.FlatCuckoo.Rewalk` | ReplicatedKeyValueStoreRDMA/Persistence/KeyValueStore/Cuckoo.hpp:424-452 | Re-walking decoded slots gives in-range cells from idx1 or idx2; in a quiet table it gives back the path found |
| `FlatCuckoo.FlatCuckoo.Hop` | ReplicatedKeyValueStoreRDMA/Persistence/KeyValueStore/Cuckoo.hpp:473-497 | The hop is made exactly when the target is free, the source occupied and its hash 2 names the target bucket: hash 2 is tested whichever way the path goes |
| `FlatCuckoo.FlatCuckoo.SetElement` | ReplicatedKeyValueStoreRDMA/Persistence/KeyValueStore/Cuckoo.hpp:90-92 | Writing an entry puts exactly its pair into the map |
| `FlatCuckoo.FlatCuckoo.ClearKey` | ReplicatedKeyValueStoreRDMA/Persistence/KeyValueStore/Cuckoo.hpp:94-96 | Clearing a key takes exactly that key out of the map, though the value stays in the array |
| `FlatCuckoo.FlatCuckoo.WriteEntry` | ReplicatedKeyValueStoreRDMA/Persistence/KeyValueStore/Cuckoo.hpp:90-92 | A write to an entry changes no other entry and no lock word behind the entries |
| `FlatCuckoo.FlatCuckoo.Remove` | ReplicatedKeyValueStoreRDMA/Persistence/KeyValueStore/Cuckoo.hpp:148-160 | Removes the key from the map, by clearing its one entry, and answers whether it was there; lock words stay |
| `FlatCuckoo.FlatCuckoo.Contains` | ReplicatedKeyValueStoreRDMA/Persistence/KeyValueStore/Cuckoo.hpp:163-167 | TRUE exactly for keys of the map |
| `FlatCuckoo.FlatCuckoo.Size` | ReplicatedKeyValueStoreRDMA/Persistence/KeyValueStore/Cuckoo.hpp:169-177 | The cardinality of the map |
| `FlatCuckoo.FlatCuckoo.FindPath` | ReplicatedKeyValueStoreRDMA/Persistence/KeyValueStore/Cuckoo.hpp:413-452 | Any path is in range, within the depth limit and starts in a bucket of the key; in a quiet table it leads over occupied cells to a free one, each in the other bucket of the value before it, no bucket twice by the same hash |
| `FlatStore.FoundIffInMap` | ReplicatedKeyValueStoreRDMA/Persistence/KeyValueStore/Cuckoo.hpp:62-70 | A key is in the map exactly when one of its two buckets has it |
| `FlatStore.HashOfInt` | ReplicatedKeyValueStoreRDMA/Persistence/KeyValueStore/Cuckoo.hpp:210-217 | Hash 1 is the key modulo the bucket count, a negative key as unsigned |
| `FlatStore.RepresentsOne` | ReplicatedKeyValueStoreRDMA/Persistence/KeyValueStore/Cuckoo.hpp:35-42 | The entries determine the map |
| `KMeans.KMeans.Run` | K-Means/kmeans475-serial.cpp:189-263 | For every choice of K distinct first points the whole history: the first centres are the picked points, each iteration puts every point with its lowest-index nearest centre and every centre that has points at their mean, and the run stops at the first iteration that moves no point or at the bound; the costs never rise, each point is in exactly the list its cluster number names, and with a bound above K^n the run always settles; K above the number of points changes nothing |
| `KMeansCost.RoundAt` | K-Means/kmeans475-serial.cpp:218-254 | Each configuration in that history comes from the one before by one iteration, and all but the last have moved a point |
| `KMeans.KMeans.Iterate` | K-Means/kmeans475-serial.cpp:216-263 | From clusters at their means: the costs never rise, and the loop settles at a fixed point or uses up its iterations, of which at most K^n can move a point |
| `KMeans.KMeans.Round` | K-Means/kmeans475-serial.cpp:218-254 | One iteration from assigned points does not raise the distortion; it keeps it if and only if every move is between centres equally far from the point and no centre moves; nothing moves if and only if every point already is with its nearest centre |
| `KMeans.KMeans.Again` | K-Means/kmeans475-serial.cpp:216-254 | An iteration after another one either changes nothing or lowers the distortion, or keeps it and lowers the sum of the cluster numbers |
| `KMeansCost.DescentBound` | K-Means/kmeans475-serial.cpp:216-263 | So no assignment of n points to K clusters comes twice, and at most K^n iterations move a point |
| `KMeansExample.MovesWithoutGain` | K-Means/kmeans475-serial.cpp:218-254 | An iteration may move points and keep the distortion even if no two centres are equal: six points and four centres, four moves between equally far centres, no centre moves |
| `KMeans.KMeans.NearestCenter` | K-Means/kmeans475-serial.cpp:145-179 | The lowest-index nearest centre, on squared distances |
| `KMeans.KMeans.AssignPoint` | K-Means/kmeans475-serial.cpp:223-237 | One point moves to its nearest centre and the cluster lists follow |
| `KMeans.KMeans.AssignAll` | K-Means/kmeans475-serial.cpp:222-237 | After the pass every point is with its nearest centre and the clusters partition the points; `done` if and only if no point has changed its cluster |
| `KMeans.KMeans.RecenterAll` | K-Means/kmeans475-serial.cpp:239-254 | After the pass the non-empty clusters' centres are means, and either no centre has moved or the distortion is strictly lower; means stay where they are |
| `KMeans.KMeans.Seed` | K-Means/kmeans475-serial.cpp:196-213 | Each cluster holds its picked point, is centred on it and is its point's cluster; no other point has changed |
| `KMeans.Cluster.RemovePoint` | K-Means/kmeans475-serial.cpp:96-109 | Removes the first entry of that id and answers whether there was one |
| `KMeansCost.RecenterLowers` | K-Means/kmeans475-serial.cpp:247-251 | Setting one coordinate to the mean lowers the distortion by exactly the cluster size times the square of the move |
| `KMeansCost.NearestIsBest` | K-Means/kmeans475-serial.cpp:223-237 | No assignment to the same centres has a smaller distortion than the nearest-centre one |
| `KMeansCost.MeansAreBest` | K-Means/kmeans475-serial.cpp:239-254 | For the same assignment no other centres have a smaller distortion than the means |
| `KMeansCost.NearestStays` | K-Means/kmeans475-serial.cpp:171-175 | The lowest-index nearest centre is unique: points that are all with it have nowhere else to go |
| `KMeansCost.ListIsTotal` | K-Means/kmeans475-serial.cpp:249-250 | Summing along a cluster's list is summing over the points assigned to it |
| `KMeansCost.ReassignKeepsPartition` | K-Means/kmeans475-serial.cpp:228-236 | Moving a point keeps every id in exactly the list its cluster number names, once |
| `BankerRuns.BalanceIsExact` | Banker/bankers-map/src/tests.cc:95-107 | With any number of depositing and balancing threads, every locked balance returns exactly the initial total, also with source equal to target or a missing account; the total is the running sum of the accounts from zero |
| `BankTotals.TotalOfNone` | Banker/bankers-map/src/tests.cc:99-103 | The total of no accounts is 0 and nothing else |
| `BankTotals.TotalWithOneMore` | Banker/bankers-map/src/tests.cc:99-103 | With one account more the total is more by exactly what it holds |
| `BankTotals.TotalOfEqual` | Banker/bankers-map/src/tests.cc:99-103 | n accounts of one balance have n times that: ten of 100 make 1000 |
| `BankTotals.LedgerLaws` | Banker/bankers-map/src/tests.cc:138-151 | A posting takes exactly its amount from its source and gives it to its target |
| `BankerRuns.BalanceSeesOneMoment` | Banker/bankers-map/src/tests.cc:96-102 | While a balance adds up no account changes and no deposit is half made |
| `BankerRuns.Conservation` | Banker/bankers-map/src/tests.cc:109-151 | Between calls every account holds its first balance plus deposits in minus deposits out, no account came or went, and the total is the initial one |
| `BankerRuns.DepositPostsOnce` | Banker/bankers-map/src/tests.cc:138-151 | Per call, from its start to its return: a deposit answers true if and only if both accounts exist, and it is posted exactly once if and only if it answers true |
| `BankerRuns.DeadlockFree` | Banker/bankers-map/src/locks.cc:36-60 | In no reachable state are all unfinished calls stuck, even if waiting writers hold back new readers |
| `BankerRuns.QuietMeansUnlocked` | Banker/bankers-map/src/locks.cc:42-60 | With all threads idle every lock is free |
| `BankerSteps.StepInv` | Banker/bankers-map/src/tests.cc:95-151 | Every step keeps lock words and money consistent |
| `BankerSteps.Alone` | Banker/bankers-map/src/tests.cc:116-134 | While a deposit is applied no other deposit touches its accounts and no balance is adding up |
| `Banker.Exclusion` | Banker/bankers-map/src/locks.cc:36-60 | A write lock excludes every other holder of that bucket |
| `SerialBank.ApplyDeposit` | Banker/bankers-map/src/tests.cc:138-151 | On the bucket-list map: the source has the amount less and the target the amount more exactly when both accounts exist, else the map is as before, even after the source was written |
| `SerialBank.Balance` | Banker/bankers-map/src/tests.cc:95-107 | The total of the accounts in the key range, by the same laws, missing accounts counting 0 |
| `SerialBank.DepositKeepsTotal` | Banker/bankers-map/src/tests.cc:138-151 | A deposit keeps the total over the key range |
| `SimpleMap.SimpleMap.Insert` | Banker/bankers-map/src/simplemap.h:53-69 | Adds the pair exactly if the key is absent, by splicing a node into its sorted list |
| `SimpleMap.SimpleMap.Update` | Banker/bankers-map/src/simplemap.h:74-87 | Replaces the value exactly if the key is present |
| `SimpleMap.SimpleMap.Remove` | Banker/bankers-map/src/simplemap.h:91-107 | Cuts the key's node out and answers whether there was one |
| `SimpleMap.SimpleMap.Lookup` | Banker/bankers-map/src/simplemap.h:114-126 | The value and whether the key is present; 0 if not |
| `SimpleMap.SimpleMap.Seek` | Banker/bankers-map/src/simplemap.h:54-60 | The loop of all four stops between the smaller keys and the others |
| `SimpleMap.SimpleMap.constructor` | Banker/bankers-map/src/simplemap.h:27-32 | One sentinel a bucket stands for the empty map |
| `Wire.RoundTrip` | DistributedKeyValueStore/App/Remote.cpp:44-57 | A printed line is accepted and well separated, and parses to its message if and only if the verb is GET or PUT and both numbers are non-negative |
| `Wire.RoundTripOverSocket` | DistributedKeyValueStore/Common/Connection.cpp:132-169 | The reader takes exactly the printed line off the socket, whatever follows |
| `Wire.PrintedLines` | DistributedKeyValueStore/App/Remote.cpp:44-57 | Lines as they look on the wire |
| `Wire.PrintedWithin32Bits` | DistributedKeyValueStore/Common/Message.cpp:6-14 | Reading a printed number back stays within 32 bits at every intermediate step if and only if it is at most 2^31 - 49 |
| `Wire.DecimalReadsBack` | DistributedKeyValueStore/Common/Message.cpp:6-14 | The digit loop gives back a printed number if and only if it is not negative |
| `Wire.Deserialize` | DistributedKeyValueStore/Common/Message.cpp:18-31 | The message is the parse of the whole buffer after its cut, also of a line without a separator if a NUL ends it; exactly two characters become NUL |
| `Wire.Receive` | DistributedKeyValueStore/Persistence/Server.cpp:43-49 | A line taken off the socket, checked and parsed: accepted exactly if well formed, and then the message of its digits |
| `Wire.GetTwoNumbers` | DistributedKeyValueStore/Common/Message.cpp:4-16 | The values of the digits before the separator and of the characters after it up to the NUL |
| `Wire.Verify` | DistributedKeyValueStore/Common/Message.cpp:33-49 | Accepts exactly lines of at least 8 characters with a space at index 3 |
| `Wire.GetLine` | DistributedKeyValueStore/Common/Connection.cpp:132-169 | The first line of the stream, or nothing if there is none |
| `Wire.Buffer.Add` | DistributedKeyValueStore/Common/Connection.cpp:27-38 | Appends one character, growing when full |
| `Wire.SendMessage` | DistributedKeyValueStore/App/Remote.cpp:44-57 | What goes to the socket is the printed line |

## Left out

- LazyListRuns.Linearizable: assumes sequential consistency; weak memory and `volatile` are not modelled, in the list and in the cuckoo set alike.
- ReplicaRuns.ReplicasAgree: about delivery to the replicas; the worker threads that apply received writes run unordered and are not modelled.
- ReplicaRuns.SharedIndexAborts: the lock phase and the releases of a multi-element insert only; its sends, which reach replicas 0 to |elements| - 1, are not modelled.
- ReplicaProgress.CompletesExactly: TRUE means past the lock phase and the releases; the sends of a multi-element insert are left out as above.
- OneSidedGet.GetNeverMisses: writers are any code that makes each write under the locks and tests of the store, which allows more runs than the store has; a bucket read is one step.
- OneSidedGet.GetIsRightAtSomeMoment: `secondary_hash` takes an unsigned on one side and a signed int on the other; one abstract function on both sides is an assumption.
- CuckooRuns.DeadlockFree: in the concurrent cuckoo set a resize gives the write lock back without doubling, as at Cuckoo.hpp:541-544; what doubling does is modelled in one thread only.
- FlatCuckoo.FlatCuckoo.InsertAttempt: one pass of the retry loop; that some later pass succeeds is not claimed, and by `RetryExample` it need not. The mixing function is a parameter of the store.
- PathSearch.Search: reads answer one at a time and may all differ; the shortest-path claim is for a table that does not change during the search.
- CuckooSet.CuckooSet.Resize: the write at index -1 is reported as failure instead of being carried out; the value it loses is not modelled.
- FlatCuckoo.FlatCuckoo.Displace: spinlocks are left to the concurrent models; two threads inserting one key at once are not modelled for this store.
- KMeans.KMeans.Run: distances and means are over the reals, so rounding is not modelled; the rejection loop that picks distinct points is a parameter.
- BankerRuns.BalanceIsExact: amounts are reals instead of floats; accounts are within the key range, as `rand_integer` picks them.
- SimpleMap.SimpleMap.Remove: destructor, `apply` and the unused vector version are not modelled; freed nodes are dropped.
- Wire.Deserialize: a line of BUFFER_SIZE or more characters without a separator, where no NUL need follow and the original reads past the buffer, is outside its precondition.
- Wire.Receive: the same lines are outside its precondition; applying the message to the store and answering are not modelled.
- Wire.RoundTrip: the numbers parsed are unbounded integers; which of them fit 32 bits is stated separately.
- SerialLazyList.SerialLazyList.Remove: the retry loop runs once, because alone the validation cannot fail; the concurrent model has the retries.
- `TMCuckoo.hpp`, the parallel k-means, sockets, verbs, master election, benchmarks, option parsing, statistics and thread barriers are not modelled.
