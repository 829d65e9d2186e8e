# goveto-edge: a verified model of the edge cache and its neighbours

goveto-edge is an HTTP edge proxy written in Go. This project models the parts of it whose
correctness is hardest to see from the code, and proves what they promise.

* **The disk cache engine** (`caddy/simplefs`). A provider keeps an index of cached bodies and of
  mapping records (which list the variants of a resource), surrogate-key groups in both directions, a
  reverse index from variants to mappings, a recency list, a heap of expiry entries with back
  pointers, two usage counters, a database copy of the index and a directory of body files. A batch is
  a copy-on-write overlay over all of that: it sweeps what has expired, admits writes against two
  budgets, evicts by recency, installs files, persists and then applies the overlay, or rolls back.
  `CacheModel` is the abstract cache (a map from keys to records and tags) with a closed form `Purged`
  for every kind of deletion; `Index` and `Batch` hold the concrete structures; `Committing`,
  `Deletions`, `Admission`, `Writes`, `Install`, `Flush` and `Maintenance` are the operations; `Runs`
  and `Consequences` are about whole runs, and `Restart` is about what a later start finds on disk.
* **The object format** (`ObjectFormat`, `ObjectLayout`, `ObjectReading`): chunked writer, layout
  parser, random-access reader.
* **The capture pipeline**: the streaming encoder (`EncodeSession`), the write queue (`WriteQueue`),
  byte reservations (`Reservations`), the response writer between origin and client (`Capture`), and any
  number of captures on one ledger (`CaptureRuns`).
* **Serving ranges and making keys**: `RangeRequest`, `RangeServing`, `Sorting`, `Query`, `CacheKey`,
  `KeyDecoding`, with `Text` for splitting and decimal numbers.
* **State machines beside the cache**: the rate-limit circuit breaker (`CircuitBreaker`), the
  fixed-window limiter (`RateLimiter`, and `LimiterSweep` for its periodic sweep) and the alert lifecycle (`Alerts`, `AlertEngine`).

Objects that the program changes in place are classes here, with the same fields. Goroutines are
modelled by their atomic steps: the encoder as a transition function whose runs are all interleavings,
the write queue and the breaker as objects whose methods are the critical sections, called in any
order. What comes from outside (clocks, disk usage, iteration order of maps, the outcome of renames,
syncs and transactions, the codec, percent-encoding) is a parameter or a free choice.

`Provider.Valid` is the agreement of all structures: groups and item groups are inverse to each other,
the reverse index is the exact inverse of the mapping contents, the recency list holds each live body
once, the heap has one correctly placed entry of the right generation per expiring item, the database
agrees with memory outside the dirty keys, physical use is the exact sum of the live bodies, accounted
use never exceeds its sum, and the body files are the ones live items name, with intact contents, plus
files that earlier faults left behind (`orphans`, empty in a run without such a fault). `Provider.Exact`
says that accounted use equals its sum, and `Provider.Shortage` how far it is below.

## Where a promise does not hold as stated

* A mapping record deleted by its own key is subtracted from the accounted use twice
  (`caddy/simplefs/batch.go:188` and `245`). `Consequences.MappingDeletedByKey` says exactly when that still
  gives the right sum, and `Consequences.TooSmallExample` is a cache for which it does not. It happens
  exactly when a mapping key that is deleted still has its record when its turn comes: deleting a body first
  takes the mapping along if it was the last variant. `CacheModel.Lost` sums the sizes of the records met in
  this way, and `CacheModel.LostByOwnKey` says when that is nothing. No operation lets the account fall further
  behind than that, and none of the others lets it fall behind at all: `Runs.Run` bounds the shortage after every
  operation of every run by the sum of these losses, and a batch exceeds the accounted budget by no more than
  the shortage (`Flush.FlushBatch`). `Deletions.EntryByOwnKey` and `Consequences.SweepMeetsMapping` say when
  the deletion of an entry and a sweep meet a mapping by its own key.
* The mapping of a write is computed before the evictions of the same write and stored after them, so a
  mapping can list a variant that is gone. Which bodies a write evicts is determined by the state before it
  (`Admission.AdmitsUnique`), and so is the exact condition in `Consequences.DanglingSiblings`;
  `Consequences.DanglingExample` is a write that is admitted by evicting its only sibling.
* A batch keeps the disk within the permitted percentage only if the cache then uses any blocks
  (`Flush.FlushBatch`). When others use that much already the budget is zero, and a write of no blocks is
  still stored: `Admission.FullDisk` says that exactly these are.
* A body file whose stat fails right after its rename stays behind after the rollback:
  `Install.RollbackRestores` gives the exact condition and `Install.LeakExample` a case.
* The object header has 32 bits for the number of chunks, so the parser refuses what the writer leaves
  for larger objects: `ObjectLayout.WrittenAccepted` gives the exact condition and
  `ObjectLayout.RefusedExample` a length.
* A failed chunk load has overwritten the reader's buffer but not its index. A later read is right, also when
  the failing one is tried again, unless its position is in the chunk of the last byte that was delivered
  and a read has failed since that byte; a caller can tell from what it asked and what it was answered
  (`ObjectReading.Trusted`, `ObjectReading.Serve`). In that one case the read hands out the bytes of the
  chunk that failed, loops for ever where that chunk ends, and panics beyond
  (`ObjectReading.ObjectReader.Read`), and is right only by chance (`ObjectReading.RightByChance`).
  `ObjectReading.ReadAfterFailure` is a file with all three outcomes.
* The limiter's search for the key seen longest ago takes an empty key for "none yet", and an empty cookie is
  such a key (`caddy/waf/handler.go:874-877`). In a given iteration order it finds a key seen first if and
  only if the empty key is not strictly the oldest or comes last (`RateLimiter.Oldest`); in every order, if
  and only if the empty key is not strictly the oldest of several (`RateLimiter.SeenFirstInEveryOrder`).
  `RateLimiter.WrongVictim` is a full table and an order that drops another key.
* The limiter is meant to answer as if it were never swept. By the same treatment of the empty key it does not
  always: where only the table without sweep is full, that one drops a swept key if and only if the empty key is
  not strictly its oldest, comes last, or has a swept key behind it (`LimiterSweep.DropsSwept`); in every order,
  if and only if the empty key is not strictly the oldest or nothing is left of the swept table
  (`LimiterSweep.DropsSweptInEveryOrder`). As long as that holds all answers agree (`LimiterSweep.SweepUnnoticed`),
  in particular when no request has an empty key (`LimiterSweep.NoEmptyKey`). `LimiterSweep.SweepNoticed` is a run
  from an empty table whose last request is refused with the sweep and admitted without it. Both limiters go
  through tables with the same keys in the same order; for ties two limiters with different orders differ anyway.
* A stored body that is positioned after something was read from it counts the place from its beginning and the
  rest from where it is. `RangeServing.PooledBody.SeekBody` says that they fit if and only if nothing was read
  before, as is the case where the program uses it.

## Model

| member | source | states |
|---|---|---|
| `ExpirationHeap.RootIsEarliest` | caddy/simplefs/batch.go:59-62 | in a heap-ordered slice no entry is due before the first |
| `ExpirationHeap.Heap.Push` | caddy/simplefs/batch.go:63-72 | adds exactly the entry; heap order and every back pointer hold again |
| `ExpirationHeap.Heap.Pop` | caddy/simplefs/batch.go:63-81 | takes out an entry with the earliest time, marks it as out of the heap, and keeps order and back pointers of the rest |
| `ExpirationHeap.Heap.Remove` | caddy/simplefs/simplefs.go:1783-1785 | takes out the entry at a position and keeps order and back pointers of the rest |
| `Index.Provider.constructor` | caddy/simplefs/simplefs.go:573-619 | a provider over an empty directory is valid and exact |
| `Index.Provider.AddReverseMapping` | caddy/simplefs/batch.go:736-746 | the reverse index gains exactly the variants of the mapping |
| `Index.Provider.RemoveReverseMapping` | caddy/simplefs/batch.go:748-758 | the reverse index loses exactly the variants of the mapping and keeps no empty set |
| `Index.Provider.DropItem` | caddy/simplefs/batch.go:690-697 | the key leaves items, recency list, reverse index and heap together, and nothing else does |
| `Index.Provider.AddItem` | caddy/simplefs/batch.go:698-709 | the item joins items, reverse index and, as it needs, recency list and heap; all still agree |
| `Index.Provider.ApplyItem` | caddy/simplefs/batch.go:689-709 | replaces what is stored under one key in all four structures, leaving other keys alone |
| `Index.Provider.ApplyGroup` | caddy/simplefs/batch.go:710-728 | the group has the staged members, no other group changes, and both directions are still inverse |
| `Batch.BatchState.constructor` | caddy/simplefs/batch.go:100-110 | a new overlay shows the provider's cache and counters |
| `Batch.BatchState.GetItem` | caddy/simplefs/batch.go:120-126 | a lookup through the overlay finds exactly what the merged view has |
| `Batch.BatchState.RemoveItemGroups` | caddy/simplefs/batch.go:155-161 | the key loses all tags in both directions of the overlay, and no other key does |
| `Batch.BatchState.AddItemGroup` | caddy/simplefs/batch.go:163-166 | the key gains one tag in both directions of the overlay |
| `Batch.BatchState.StageMapping` | caddy/simplefs/batch.go:186-206 | staging or removing a mapping changes that record of the merged view, its reverse links and the accounted use, and keeps the overlay consistent |
| `Batch.BatchState.RemoveVariantFromMapping` | caddy/simplefs/batch.go:208-237 | the mapping forgets the variant, or goes when it was the last one; sizes follow |
| `Batch.BatchState.ForgetVariant` | caddy/simplefs/batch.go:249-252 | every mapping that lists the body forgets it, and accounting stays a lower bound that falls no further behind |
| `Batch.BatchState.DeleteItem` | caddy/simplefs/batch.go:239-257 | the merged view becomes `Purged` by the key; physical use drops by its blocks; a body's file becomes obsolete; accounted use stays a lower bound and falls behind only by the size of a mapping record, which goes twice |
| `Batch.BatchState.StageExpired` | caddy/simplefs/batch.go:259-269 | pops exactly the due entries, earliest first, and purges exactly their keys; the account falls behind by no more than the sizes of the mapping records met by their own keys in that order |
| `Batch.BatchState.RestoreExpiry` | caddy/simplefs/batch.go:271-277 | the heap has the popped entries again and tracks the items |
| `Batch.BatchState.EvictionCandidates` | caddy/simplefs/batch.go:534-560 | the shortest prefix of the unprotected live bodies in recency order that frees enough of both kinds, or nothing when all of them together do not |
| `CacheModel.PurgedTwice` | caddy/simplefs/batch.go:239-257 | deleting one set of keys and then another is deleting their union |
| `CacheModel.PurgeStep` | caddy/simplefs/batch.go:239-257 | deleting one more key after a purge is the purge of the larger set |
| `CacheModel.PurgedAccounted` | caddy/simplefs/batch.go:208-237 | purging bodies never raises the accounted total |
| `CacheModel.MappingSizeMeaning` | caddy/simplefs/batch.go:764-770 | a mapping record counts for 512 bytes, its key and the length of its text, in whatever order the variants are written |
| `CacheModel.PurgedPhysical` | caddy/simplefs/batch.go:246 | purging takes exactly the blocks of the purged keys off the physical total |
| `CacheModel.SumIsTotal` | caddy/simplefs/batch.go:534-560 | the sizes of distinct keys add up to what their removal takes off the total |
| `CacheModel.VictimsAreShortest` | caddy/simplefs/batch.go:534-560 | there is only one shortest prefix that frees enough, and going through the list from the front finds it |
| `CacheModel.ByOwnKeyStep` | caddy/simplefs/batch.go:239-257 | one more deletion meets a mapping by its own key exactly when its record has survived the deletions before it |
| `CacheModel.LostByOwnKey` | caddy/simplefs/batch.go:186-257 | something is lost of the account if and only if a mapping record is met by its own key |
| `Committing.PersistBatch` | caddy/simplefs/batch.go:621-686 | the database has under every key of the overlay its value, expiry and last access, and of a body its length and checksum, and no other key, given it agreed with memory in this way outside the dirty keys; a failed transaction changes nothing |
| `Committing.ApplyItems` | caddy/simplefs/batch.go:689-709 | items equal the overlay's view key by key; recency list, reverse index and heap agree with them; the staged bodies end up last in the recency list |
| `Committing.ApplyGroups` | caddy/simplefs/batch.go:710-728 | every group has the members the overlay shows, in both directions |
| `Committing.ApplyBatch` | caddy/simplefs/batch.go:688-734 | memory equals the overlay's view, the database agrees with it on every key, the counters are the overlay's and nothing is dirty |
| `Committing.Commit` | caddy/simplefs/batch.go:502-516 | commit refinement: the cache becomes the staged cache in memory, and in the database with every value, expiry, last access, length, checksum and group; what stays live keeps its order in the recency list and the staged bodies follow; or a failed transaction leaves memory, database and heap as they were |
| `Restart.RestartKeeps` | caddy/simplefs/simplefs.go:1914-2024 | after a commit a restart finds exactly the entries that have not expired, each with its value, expiry, last access, tags, length and checksum; only the blocks of a file are taken from the file system |
| `Deletions.CommitDeletion` | caddy/simplefs/simplefs.go:745-754 | a committed deletion leaves the purged cache, a valid provider, the rest of the recency list in its order and no file of a purged body |
| `Deletions.DeleteItemIf` | caddy/simplefs/simplefs.go:734-755 | deletes the item exactly when it is still the one the caller saw and the transaction succeeds; the account falls behind by no more than a mapping record that was there |
| `Deletions.Delete` | caddy/simplefs/simplefs.go:1284-1301 | the cache is purged by the key, or unchanged when the transaction fails; the account falls behind by no more than a mapping record that was there |
| `Deletions.PruneExpired` | caddy/simplefs/simplefs.go:757-778 | a committed sweep purges exactly the expired keys, earliest first, so that nothing is due; a failed one leaves every structure and the same heap contents; the account falls behind by no more than the mapping records met by their own keys |
| `Deletions.DeleteKeys` | caddy/simplefs/simplefs.go:1455-1474 | the cache is purged by the keys and the count is the number of bodies deleted; the account falls behind by no more than the mapping records met by their own keys |
| `Deletions.PurgeTags` | caddy/simplefs/simplefs.go:1391-1400 | exactly the keys with one of the tags are purged, each once, and no key with one of them is left; the account falls behind by no more than the mapping records met by their own keys |
| `Deletions.DeleteEntry` | caddy/simplefs/simplefs.go:1197-1241 | the mapping of a base key goes with every variant it lists, variants first; the account falls behind by no more than the mapping records met by their own keys |
| `Deletions.EntryByOwnKey` | caddy/simplefs/simplefs.go:1197-1241 | deleting an entry meets its mapping by its own key if and only if the mapping lists a variant that is no live body |
| `Deletions.EvictForBudget` | caddy/simplefs/simplefs.go:1711-1748 | evicts the shortest recency prefix that frees both amounts, or everything, reports exactly what it freed, and lets the account fall no further behind |
| `Admission.AccountedBound` | caddy/simplefs/batch.go:438-457 | evicting what the need asks for leaves the written cache within the accounted budget but for what the account was behind |
| `Admission.PhysicalBound` | caddy/simplefs/batch.go:438-457 | evicting what the need asks for leaves the written cache within the physical budget |
| `Admission.AdmitsUnique` | caddy/simplefs/batch.go:416-481 | whether a write is accepted, what it evicts and what it leaves are determined by the state before it, and with exact counters so are the counters after it; a write that is not accepted evicts nothing |
| `Admission.AmpleRoom` | caddy/simplefs/batch.go:438-481 | a write that needs no more than both budgets have is stored and evicts nothing |
| `Admission.ByteLimit` | caddy/simplefs/simplefs.go:1643-1661 | a byte limit counts exactly when it is set and sizing is not automatic; otherwise only the disk bounds the cache |
| `Admission.DiskShare` | caddy/simplefs/simplefs.go:1647-1658 | on the disk the cache may use what keeps all use within the permitted percentage, 80 when none is given and at most 90, where its own use and the new files are not use of others |
| `Admission.FullDisk` | caddy/simplefs/simplefs.go:1653-1658 | when others use the permitted percentage or more, exactly what has no blocks still fits |
| `Admission.RoomForAll` | caddy/simplefs/batch.go:416-481 | a write whose mapping can be encoded is stored and evicts nothing when the cache with it stays within the byte limit, if there is one, and the disk with it within the permitted percentage |
| `Admission.StoredBody` | caddy/simplefs/batch.go:433-434 | a stored body has file, length, blocks, checksum and tags of the write and was used just now, counts for 512 bytes, key, path and blocks, and is due exactly when duration and stale window have passed |
| `Admission.StoredMapping` | caddy/simplefs/batch.go:418-437 | the mapping of a stored write is due at the same time, lists the variant as fresh for its duration and as stale until the body is due, lists every other variant as before, and has the tags of the write besides those it had |
| `Admission.StoredRest` | caddy/simplefs/batch.go:454-481 | besides body and mapping a stored write changes only what its evictions take with them |
| `Admission.RefusedForTimes` | caddy/simplefs/batch.go:421-425 | a write is refused for its mapping exactly when one of its three times or one of another listed variant is outside what JSON can carry |
| `Admission.JsonYears` | caddy/simplefs/batch.go:421-425 | the times that can be encoded are those of the years 0 to 9999 |
| `Writes.StageWrite` | caddy/simplefs/batch.go:416-481 | a write is admitted exactly as `Admits` says: rejected ones change nothing; accepted ones evict the shortest unprotected recency prefix that fits both budgets, never a key accepted before, end within the physical budget, and within the accounted one but for what the account was behind, which does not grow, and leave a body that is due exactly when duration and stale window have passed |
| `Install.InstallBatchFiles` | caddy/simplefs/batch.go:562-597 | the directory and the set of installed paths after any pattern of rename and stat failures |
| `Install.InstallFacts` | caddy/simplefs/batch.go:562-597 | installing only adds files of the batch, each with its contents, and never touches one that was there |
| `Install.RollbackRestores` | caddy/simplefs/batch.go:504-508 | deleting the installed paths restores the directory if and only if no stat failed after its rename |
| `Install.LeakExample` | caddy/simplefs/batch.go:573-584 | a batch whose stat fails leaves a file that the rollback does not delete |
| `Flush.StageBatch` | caddy/simplefs/batch.go:412-481 | the writes are processed one after the other from the real counters, each step an `Admits` from the stage before it that keeps physical use exact and lets the account fall no further behind; the bodies staged are exactly those accepted |
| `Flush.StagesCounted` | caddy/simplefs/batch.go:412-481 | at every stage of a batch physical use is exact, and accounted use not too high and no further behind than at the start |
| `Flush.ProcessedUnique` | caddy/simplefs/batch.go:412-481 | from exact counters a batch can be processed in one way only: results, evictions and every stage are determined |
| `Flush.InstallAndCommit` | caddy/simplefs/batch.go:495-531 | succeeds exactly when every file got into place, the directory was synced and the transaction succeeded; then the body files are the ones live items name and the stored bodies are last in the recency list; otherwise index, heap and counters are unchanged, and everything is if and only if no stat failed after its rename |
| `Flush.FlushBatch` | caddy/simplefs/batch.go:389-532 | a batch is the sweep followed by its writes, from no accepted key and counters that stand for the swept cache, each admitted or not under the budget of the batch; it takes effect exactly when a write was accepted, the files got into place and the transaction succeeded, and then ends in the last stage with the accepted bodies last in the recency list, within a byte limit that is set but for what the account is behind, and, if any blocks are used, with the cache and all other use of the disk within the permitted percentage; otherwise nothing but leftover files can change, and nothing at all if and only if no stat failed after its rename |
| `Flush.TransientSum` | caddy/simplefs/batch.go:399-405 | the new files of a batch hold the sum of the blocks of its writes |
| `Flush.AcceptedKept` | caddy/simplefs/batch.go:446-457 | a body accepted earlier in the batch is not touched by a later write of another key |
| `Flush.LastWriteWins` | caddy/simplefs/batch.go:459-481 | of several writes of one key in a batch the last stored one decides what the key holds at the end: file, length, blocks, checksum, tags, last access, and an expiry after its duration and the stale window |
| `Maintenance.Refresh` | caddy/simplefs/simplefs.go:1119-1193 | renews the chosen matching variant and its mapping and nothing else, exactly when that variant can be renewed and the transaction succeeds, after which both are due exactly when the new duration and the stale window have passed; moves its body to the end of the recency list, and lets the account fall no further behind |
| `Maintenance.RenewalMeaning` | caddy/simplefs/simplefs.go:1146-1187 | a renewed entry is fresh for the new duration, stale for the stale window after it and then due, mapping and body together; both were used just now, and tags, files and other variants stay |
| `Maintenance.Touch` | caddy/simplefs/simplefs.go:693-717 | a hit stamps the item with its time and moves a body to the end of the recency list exactly when it is still current, its last stamp is at least 1,000,000,000 ns old and the lock is free; the item becomes dirty exactly then or when its file has a new modification time |
| `Maintenance.Reset` | caddy/simplefs/simplefs.go:1476-1505 | a reset leaves an empty, exact provider and database, or everything as it was |
| `Runs.Step` | caddy/simplefs/simplefs.go:693-778 | every operation has exactly its effect on the abstract cache and the recency list, or none when its transaction fails, keeps all structures in agreement, and lets the account fall behind by no more than the mapping records it meets by their own keys |
| `Runs.NothingLost` | caddy/simplefs/batch.go:490-516 | an operation whose transaction fails, or a batch without a stored write, lets the account fall behind by nothing |
| `Runs.Run` | caddy/simplefs/batch.go:389-532 | over every run, with any transactions failing: the provider stays valid, each operation has exactly its effect, physical use is exact and accounted use not too high after each of them, the account is behind by no more than at the start and the losses so far, the recency list is in the order of the operations that wrote, renewed or hit its bodies, and no file is left behind unless a stat failed after its rename |
| `Runs.CalmLosesNothing` | caddy/simplefs/batch.go:186-257 | a run loses nothing of its account if and only if no operation that takes effect meets a mapping by its own key |
| `Runs.RankedStep` | caddy/simplefs/batch.go:689-709 | an operation that moves bodies to the end and drops others keeps the recency list ordered by the last operation on each body |
| `Consequences.SweepIsExact` | caddy/simplefs/batch.go:259-269 | after a sweep nothing is due, other bodies are untouched, and another mapping is gone exactly when all its variants were due bodies |
| `Consequences.SweepMeetsMapping` | caddy/simplefs/batch.go:259-269 | a sweep meets a due mapping by its own key unless its variants are bodies swept before it: never when they all expire before it, always when one is no live body or expires after it |
| `Consequences.MappingDeletedByKey` | caddy/simplefs/batch.go:186-247 | the doubly reduced account is never too high, and exact if and only if nothing else is accounted for |
| `Consequences.TooSmallExample` | caddy/simplefs/batch.go:186-247 | a cache whose only mapping is deleted by its own key, with an account below the sum afterwards |
| `Consequences.DanglingSiblings` | caddy/simplefs/batch.go:420-476 | after an accepted write the mapping lists only live bodies if and only if every sibling listed before it was a live body outside the shortest freeing prefix |
| `Consequences.DanglingExample` | caddy/simplefs/batch.go:420-476 | a write that is accepted by evicting its only sibling and leaves it in its mapping |
| `ObjectFormat.GetPut` | caddy/simplefs/format.go:145-155 | a big-endian field reads back as the number written, if it fits |
| `ObjectFormat.Pack` | caddy/simplefs/format.go:113-127 | a chunk is kept compressed exactly in larger objects when the codec gives bytes and these save an eighth; what is stored never grows and gives the chunk back as it is or through a lawful codec; a codec error fails |
| `ObjectFormat.HeaderLayout` | caddy/simplefs/format.go:15-24 | every object begins with the name of the format, version 1, the chunk size 65536, its length and its number of chunks |
| `ObjectFormat.WriteObject` | caddy/simplefs/format.go:69-170 | an object is written if and only if the source has exactly the declared length, ends cleanly and compresses; the file is then header, table and chunks |
| `ObjectLayout.WrittenTiles` | caddy/simplefs/format.go:87-138 | the chunks of a written object tile the file behind the table and the logical range |
| `ObjectLayout.WrittenDescribes` | caddy/simplefs/format.go:144-156 | header and table of a written object read back as its layout |
| `ObjectLayout.WrittenAccepted` | caddy/simplefs/format.go:148 | a written object has an acceptable layout if and only if its chunk count fits 32 bits |
| `ObjectLayout.RefusedExample` | caddy/simplefs/format.go:148 | an object of one byte more than 2^32 - 1 full chunks has no acceptable layout |
| `ObjectLayout.WrittenDecodes` | caddy/simplefs/format.go:106-138 | every chunk of a written object decodes to the bytes it was made from |
| `ObjectReading.ReadTable` | caddy/simplefs/format.go:203-233 | the table loop accepts exactly the tables that tile |
| `ObjectReading.ReadLayout` | caddy/simplefs/format.go:180-235 | any file the parser accepts tiles both the file and the logical range with chunk i at i times the chunk size, and it accepts every file that does |
| `ObjectReading.FileTiled` | caddy/simplefs/format.go:208-233 | every byte behind the table is stored by exactly one chunk, and chunks store nothing else |
| `ObjectReading.ObjectReader.Load` | caddy/simplefs/format.go:283-315 | a chunk is loaded exactly when it can be read, decodes to its length and has its checksum; a failure keeps the index and leaves as many bytes as the chunk has, its own if they were read; the buffer then fits its index exactly when nothing was buffered or the bytes are the same |
| `ObjectReading.ObjectReader.Read` | caddy/simplefs/format.go:243-262 | a read gives the bytes of the value from its position, as many as asked for and there are, short exactly before the first chunk that cannot be decoded; from a buffer that does not fit its position it hands out what it finds there, never ends, or panics |
| `ObjectReading.ObjectReader.Seek` | caddy/simplefs/format.go:264-281 | a seek goes to the position asked for, or is refused outside the object and moves nothing |
| `ObjectReading.Serve` | caddy/simplefs/format.go:243-315 | in every run of reads and seeks, over any damage, every seek is right and every read is right from a position that the questions and answers so far let the caller trust |
| `ObjectReading.RightByChance` | caddy/simplefs/format.go:248-259 | a read from a buffer that does not fit its position is right only where the bytes happen to be the same |
| `ObjectReading.ReadAfterFailure` | caddy/simplefs/format.go:248-300 | chunk 0 is read, chunk 1 fails, and chunk 0 is read again: a wrong first byte, no end at the second, a panic at any other |
| `ObjectReading.IntactAnswers` | caddy/simplefs/format.go:243-281 | with every chunk intact the answers to any operations are those of the value itself |
| `ObjectReading.ReadBack` | caddy/simplefs/format.go:69-315 | written, parsed and opened, an object answers every sequence of reads and seeks as the original bytes would |
| `EncodeSession.NextKeeps` | caddy/govetocache/encode.go:40-155 | every atomic step of writers, drop, drainer, storage and finish keeps the session's invariant |
| `EncodeSession.CleanEndIsWhole` | caddy/govetocache/encode.go:40-155 | under every interleaving a clean end, a commit and a finish without error each mean that storage read the header and every chunk offered before finish, in order, and a committed object has its declared length |
| `EncodeSession.DroppedNeverCommits` | caddy/govetocache/encode.go:101-120 | a session dropped before finish closes it never commits, and finish never succeeds |
| `EncodeSession.NoStall` | caddy/govetocache/encode.go:49-64 | once finished or stopped, a storage waiting for an open pipe always has an enabled step to wait for |
| `EncodeSession.FreeSlotQueues` | caddy/govetocache/encode.go:76-109 | a write to an open session that is not dropped goes on; with a free slot it can only end in the queue, and without one only by dropping the session |
| `EncodeSession.SuccessInReach` | caddy/govetocache/encode.go:48-155 | every run that is not dropped, whose storage has not failed and whose writes have the declared length can still be committed and answered with success |
| `EncodeSession.DropEnds` | caddy/govetocache/encode.go:49-120 | a dropped session comes to an end by itself: the write that found the queue full returns and the drainer leaves with the pipe closed, whether or not anybody reads |
| `WriteQueue.BatchCount` | caddy/simplefs/batch.go:354-372 | the longest prefix within 64 objects and 64 MiB, or one larger object |
| `WriteQueue.Queue.Enqueue` | caddy/simplefs/batch.go:279-305 | a write is let in exactly within 256 objects and 256 MiB, and starts a flusher exactly when none is active |
| `WriteQueue.Queue.TakeBatch` | caddy/simplefs/batch.go:354-379 | a flusher takes a maximal prefix of the queue, never an empty one in a valid state |
| `WriteQueue.Queue.Committed` | caddy/simplefs/batch.go:338-344 | after its commit a flusher retires exactly when nothing is pending |
| `WriteQueue.Queue.Answer` | caddy/simplefs/batch.go:345-347 | one write of the batch is answered and no longer owed |
| `WriteQueue.Queue.Proceed` | caddy/simplefs/batch.go:345-350 | a flusher that has answered its batch returns if it has retired and takes the next batch otherwise |
| `WriteQueue.Queue.MayReturnFromDrain` | caddy/simplefs/batch.go:381-387 | a drain returns only with nothing pending and no batch taken but not committed |
| `WriteQueue.Run` | caddy/simplefs/batch.go:279-387 | every interleaving keeps one active flusher while writes are pending, both limits, the exact byte count, prefix batches, and every write in exactly one place |
| `WriteQueue.AllAnswered` | caddy/simplefs/batch.go:312-352 | when all flushers have returned, nothing is pending and what was answered is what was let in, as a multiset |
| `WriteQueue.Settle` | caddy/simplefs/batch.go:307-387 | once no more writes arrive, the flushers come to an end in whatever order they go on, and every write let in has been answered exactly as often as it was let in |
| `Reservations.NeededBlocks` | caddy/govetocache/capture_limit.go:32-39 | the reservation is the least whole number of 4 KiB blocks of at least twice the size plus 4096; its computation stays within 64 bits exactly up to one more than the largest size that is not refused |
| `Reservations.Ledger.Reserve` | caddy/simplefs/storage.go:166-189 | a reservation is granted exactly when it is empty or use and all reservations with it stay within both budgets |
| `Reservations.Ledger.Release` | caddy/simplefs/storage.go:191-199 | a capture gives back exactly what it holds |
| `Reservations.Ledger.HandOver` | caddy/govetocache/handler.go:1264-1284 | a capture that closes before its encoder leaves its reservation to the encoder |
| `Reservations.Ledger.EncoderDone` | caddy/govetocache/handler.go:1275-1283 | the encoder's reservation is given back once |
| `Reservations.AllReturned` | caddy/simplefs/storage.go:166-199 | when nobody holds anything, every holder has given back what it was granted, and the sum is zero |
| `Capture.Response.ReserveCapture` | caddy/govetocache/capture_limit.go:32-55 | succeeds exactly when the size is within 64-bit arithmetic and the whole blocks it needs are held already or the missing ones fit under both budgets next to use and all reservations; then what is held is the larger of what it needs and what it had, and otherwise what it had |
| `Capture.Response.Discard` | caddy/govetocache/capture_limit.go:57-68 | the spool is gone and exactly the held bytes are given back |
| `Capture.Response.Prepare` | caddy/govetocache/handler.go:219-243 | whatever the streaming hook decides (spool, encode, give up), the reservation covers the spool or, for an encoder, twice the whole object plus 4096; the response goes to the encoder exactly when that is decided, within the limit and covered, and to the spool exactly when that is decided; giving up holds nothing; and the body is suppressed exactly when the preconditions answer the request |
| `Capture.Response.StopCapture` | caddy/govetocache/capture_limit.go:72-106 | capturing ends, and the client has the header and everything spooled; a refresh without a client fails and keeps its spool |
| `Capture.Response.WriteHeader` | caddy/govetocache/handler.go:1106-1147 | the first final status counts, interim ones (100 to 199 but 101) pass, later ones are ignored; the client's view stays consistent; and capturing goes on unless the hook or the preconditions end it |
| `Capture.Response.Write` | caddy/govetocache/handler.go:1149-1193 | a write adds exactly its bytes to what the client has or will get, only a refresh without a client can fail, and the capture goes on exactly when the limit and the budgets have room for it |
| `Capture.Response.WriteResponse` | caddy/govetocache/handler.go:1244-1262 | afterwards the client has one final header and everything written |
| `Capture.Response.Close` | caddy/govetocache/handler.go:1264-1291 | the reservation is given back, or left to a busy encoder, exactly once |
| `Capture.Relay` | caddy/govetocache/handler.go:1106-1262 | for every sequence of header and body writes, whatever is streamed, spooled, encoded or refused, the client gets one final header and the concatenation of the writes, or no body when its preconditions say so; and with nothing to end it (hook, preconditions, limit, room) the capture is not discarded and its spool is everything written |
| `CaptureRuns.Step` | caddy/govetocache/handler.go:1106-1291 | one event of any capture: the ledger and every capture still agree, closed captures hold nothing, and the others do not notice |
| `CaptureRuns.Run` | caddy/govetocache/handler.go:1106-1291 | over every interleaving of opening, calling, closing and encoders getting done, by any number of captures: the counter is the sum held and what was granted less what was given back, in total and holder by holder; it is zero with all given back once all are closed and no encoder is awaited; and each foreground capture has what its own origin wrote |
| `RangeRequest.ParseInterval` | caddy/cachematch/matcher.go:87-120 | of two numbers written around a dash, exactly the closed ranges in order and the positive suffixes that fit 64 bits are read back |
| `RangeRequest.ParseExactly` | caddy/cachematch/matcher.go:87-120 | every header: it is read as a range if and only if it is the unit in any case, an equals sign and two numbers around a dash, with blanks anywhere between, that denote that range |
| `RangeRequest.SpaceMeaning` | caddy/cachematch/matcher.go:87-120 | white space around the pieces of a range is what has the Unicode property of that name |
| `RangeRequest.Resolve` | caddy/simplefs/simplefs.go:993-1018 | the chosen bytes lie in the representation, and only a start past the end chooses none |
| `RangeRequest.Selects` | caddy/simplefs/simplefs.go:993-1018 | a byte is chosen exactly when it is between the bounds or one of the last N (section 14.1.2 of RFC 9110) |
| `RangeServing.PooledBody.Read` | caddy/simplefs/simplefs.go:345-371 | delivers the next bytes of the stored body from the object, as many as asked for and there are, fewer exactly before a chunk that cannot be decoded, and ends after the last |
| `RangeServing.PooledBody.SeekBody` | caddy/simplefs/simplefs.go:284-299 | positions the object exactly when it can be and the offset is in the body; place and rest fit if and only if nothing was read before |
| `RangeServing.ExtentMeaning` | caddy/simplefs/simplefs.go:1039-1059 | a stored response has an extent exactly when its headers can be true of a body: the whole of a representation that is not empty, or the part they name |
| `RangeServing.RangedBody.Read` | caddy/simplefs/simplefs.go:308-335 | what is delivered and what is left are together what was left before; it ends exactly after the last byte, or at a damaged chunk with a prefix of what was left |
| `RangeServing.ApplyRange` | caddy/simplefs/simplefs.go:988-1037 | 206 with exactly the chosen bytes and their number as length, 416 exactly for a start past the end, and the stored response as it is when it does not hold the chosen bytes |
| `RangeServing.Drain` | caddy/simplefs/simplefs.go:308-335 | draining with any read sizes gives the chosen bytes in order, all of them unless the object is damaged |
| `RangeServing.Serve` | caddy/simplefs/simplefs.go:988-1037 | header to bytes over an open object: an empty 416 exactly for a start past the end, otherwise 206 with the size of the selected slice as length and that slice as body, of which damage can only cut off the end |
| `RangeServing.ServeStored` | caddy/simplefs/simplefs.go:919-1037 | end to end: of a response written as an object, parsed and opened again, every range gets exactly the selected bytes of the body, however it is read |
| `Sorting.SortStrings` | caddy/govetocache/handler.go:1043-1049 | sorts in place: sorted, and a rearrangement |
| `Sorting.SortedUnique` | caddy/govetocache/handler.go:1043-1049 | there is only one sorted arrangement |
| `Sorting.OneOrder` | caddy/govetocache/handler.go:650-654 | the sorted names of a map do not depend on its iteration order |
| `Query.ParseQueryPairs` | caddy/govetocache/handler.go:755-786 | the loop yields the decoded elements between the separators, in order, skipping empty ones |
| `Query.ParseSeparated` | caddy/govetocache/handler.go:755-786 | whatever the elements of a query are, parsing gives the decoded non-empty ones |
| `Query.ElementMeaning` | caddy/govetocache/handler.go:755-786 | an element is cut at its first equals sign; one without is a name with no value |
| `Query.ParseJoin` | caddy/govetocache/handler.go:729-786 | parsing an encoded parameter list gives the list back |
| `Query.KeptValues` | caddy/govetocache/handler.go:707-727 | filtering keeps the ordered values of every parameter that counts and no other |
| `Query.KeepsMeaning` | caddy/govetocache/handler.go:707-727 | a parameter counts when an included pattern (a name, or a prefix with a star) fits its name, without regard to case, or, with none given, when no excluded one does |
| `Query.StableSort` | caddy/govetocache/handler.go:740-742 | sorts by name and keeps the order of values under each name |
| `Query.Group` | caddy/govetocache/handler.go:743-746 | parameters by name, each with its values in order |
| `Query.EncodeValues` | caddy/govetocache/handler.go:747 | names in sorted order, values in theirs |
| `Query.Normalize` | caddy/govetocache/handler.go:700-748 | the query text: unchanged, filtered in order, or the normal form of the parameters that count |
| `Query.JoinInjective` | caddy/govetocache/handler.go:729-738 | encoded parameter lists can be told apart |
| `Query.NormalUnique` | caddy/govetocache/handler.go:740-748 | parameters with the same values in the same order under each name have one normal form |
| `Query.NormalDecodes` | caddy/govetocache/handler.go:740-748 | the normal form determines the values under each name |
| `Query.NormalisedEqual` | caddy/govetocache/handler.go:695-748 | with sorting on, two queries have the same text exactly when every parameter that counts has the same values in the same order |
| `Query.NormalTwice` | caddy/govetocache/handler.go:695-748 | normalising a normalised query changes nothing |
| `CacheKey.SchemeMeaning` | caddy/govetocache/handler.go:625-634 | a stated scheme counts; without one it is https over TLS and http otherwise |
| `CacheKey.PartNames` | caddy/govetocache/handler.go:619-645 | the fields of the parts of a key have their names from the configuration alone |
| `CacheKey.SizedPrefix` | caddy/govetocache/handler.go:678-685 | a text written with its length can be told from what follows |
| `CacheKey.FieldsInjective` | caddy/govetocache/handler.go:678-685 | the text of a sequence of fields determines the fields |
| `CacheKey.GroupsInjective` | caddy/govetocache/handler.go:687-693 | fields of headers and cookies with their counts determine names and ordered values |
| `KeyDecoding.BuildKey` | caddy/govetocache/handler.go:612-676 | the builder writes exactly the fields of the configuration and the request, varied names sorted |
| `KeyDecoding.VariedEqual` | caddy/govetocache/handler.go:650-657 | varied headers are equal exactly when their sorted fields are |
| `KeyDecoding.BaseAndVaried` | caddy/govetocache/handler.go:643-657 | a base key has the header fields of a varied key if and only if its header names are the varied names in order, with the same values |
| `KeyDecoding.EqualKeys` | caddy/govetocache/handler.go:612-693 | under one configuration two keys, base or varied, are equal exactly when the requests agree on every configured part and on the ordered values of every header and cookie in the key |
| `KeyDecoding.ReorderedQuery` | caddy/govetocache/handler.go:612-748 | with sorting on, requests that differ only in the query share a key exactly when the key has no query or every parameter that counts has the same ordered values |
| `CircuitBreaker.Backoff` | caddy/waf/handler.go:476-482 | the delay is the smaller of 2^(failures-1) and 30 seconds |
| `CircuitBreaker.Breaker.constructor` | caddy/waf/handler.go:211-222 | a breaker starts closed, or open with one failure and a second of delay |
| `CircuitBreaker.Breaker.Acquire` | caddy/waf/handler.go:418-433 | a request is admitted when the circuit is closed, or as the only probe once the delay is over |
| `CircuitBreaker.Breaker.Fail` | caddy/waf/handler.go:435-454 | a failure counts exactly when its generation is current, and then opens the circuit for the delay and ends the generation |
| `CircuitBreaker.Breaker.Succeed` | caddy/waf/handler.go:456-474 | a probe's success always closes the circuit; any other success changes nothing |
| `CircuitBreaker.Breaker.Current` | caddy/waf/handler.go:435-474 | a live probe always carries the current generation, so its result is never discarded |
| `CircuitBreaker.Run` | caddy/waf/handler.go:378-474 | over every interleaving at most one probe is out, the flag is set exactly while it is, and no generation counts two failures |
| `RateLimiter.TwiceTheLimit` | caddy/waf/handler.go:955-963 | no interval of one window's length has more than twice the limit of admissions |
| `RateLimiter.RetryAdmitted` | caddy/waf/handler.go:955-962 | a refused request that returns after the delay it was given is admitted |
| `RateLimiter.PickSeenFirst` | caddy/waf/handler.go:945-954 | the victim was seen first if and only if the empty key was not strictly the first, or comes last in the order |
| `RateLimiter.Oldest` | caddy/waf/handler.go:945-954 | in any iteration order the victim is in the table, and seen first if and only if the empty key was not strictly the first, or comes last |
| `RateLimiter.SeenFirstInEveryOrder` | caddy/waf/handler.go:945-954 | the victim is seen first in every order if and only if the empty key is not strictly the oldest of several |
| `RateLimiter.WrongVictim` | caddy/waf/handler.go:945-954 | a full table and an order that drops a key other than the oldest |
| `RateLimiter.Sweep` | caddy/waf/handler.go:966-972 | removes exactly the counters not seen for two windows |
| `RateLimiter.AdmitsByHistory` | caddy/waf/handler.go:940-963 | a request is admitted exactly when fewer than the limit have been in the window it falls into, whether its counter is there or was swept |
| `RateLimiter.CounterStore.Allow` | caddy/waf/handler.go:940-974 | for any iteration order the new table and count are those of the specification with its sweep, the answer and the delay those of the key's counter, and a key is dropped exactly when the table is full and the request is for a new one |
| `RateLimiter.Serve` | caddy/waf/handler.go:940-974 | for non-decreasing times and any iteration orders the table never has more than 4096 keys, the answers are those of the specification, and of the requests of a key that was not dropped for space at most twice the limit are admitted in any interval of one window |
| `LimiterSweep.SameAnswer` | caddy/waf/handler.go:955-972 | a table of at most 4096 keys that is never swept gives the same answer and the same next counter |
| `LimiterSweep.DropsSwept` | caddy/waf/handler.go:945-972 | where only the table without sweep is full, it drops a swept key if and only if the empty key is not strictly the oldest, comes last, or has a swept key behind it |
| `LimiterSweep.DropsSweptInEveryOrder` | caddy/waf/handler.go:945-972 | it drops a swept key in every order if and only if the empty key is not strictly the oldest or the swept table is empty |
| `LimiterSweep.LagsStep` | caddy/waf/handler.go:940-974 | a harmless request to both is answered alike and leaves the tables as they were to each other |
| `LimiterSweep.SweepUnnoticed` | caddy/waf/handler.go:940-974 | in every run, as long as every request is harmless, all answers are those of the same limiter without its sweep |
| `LimiterSweep.NoEmptyKey` | caddy/waf/handler.go:940-974 | in every run without an empty key, whatever the iteration orders, all answers are those of the same limiter without its sweep |
| `LimiterSweep.SweepNoticed` | caddy/waf/handler.go:940-974 | a run of 4098 requests from an empty table whose last one is refused with the sweep and admitted without it |
| `Alerts.FiringKeeps` | internal/alerting/engine.go:366-381 | a firing notice after the cooldown keeps all firing notices of an instance the cooldown apart |
| `Alerts.RecoveryKeeps` | internal/alerting/engine.go:388-411 | a recovery notice goes to a resolved instance that had fired |
| `Alerts.Snapshot` | internal/alerting/engine.go:284-308 | active and suppressing instances by fingerprint, each exactly once |
| `Alerts.RowAfter` | internal/alerting/state.go:41-84 | what an evaluation does to a row, in the fields of the row before: status, firing time, last notice, suppression, and which notice it gets |
| `Alerts.FiringApart` | internal/alerting/state.go:55-57 | the firing notices of an instance are at least the cooldown apart |
| `AlertEngine.Table.Observe` | internal/alerting/engine.go:310-382 | an observed condition updates its active instance, leaves a suppressed one alone, or creates one, and unless muted sends the firing notice, with the time given, exactly when it is due |
| `AlertEngine.Table.Evaluate` | internal/alerting/engine.go:283-429 | in fields of the row before: a pending row fires exactly when its condition has been there for the for-duration, a row whose condition is gone is resolved, exactly the conditions seen for which nothing was live get a new row; unless muted a firing notice goes out exactly when a row begins to fire, or fires on and was never notified or not for the cooldown, and a recovery notice exactly when it had fired and its condition is gone, with the time the clock is read for it |
| `AlertEngine.NoSilence` | internal/alerting/engine.go:333-382 | after an evaluation that is not muted every firing row it has seen has a firing notice that is new or younger than the cooldown |
| `AlertEngine.Table.Acknowledge` | internal/alerting/ops.go:19-30 | acknowledges exactly firing or acknowledged instances |
| `AlertEngine.Table.Resolve` | internal/alerting/ops.go:34-55 | resolves exactly instances that are not resolved, and suppresses their fingerprint |
| `AlertEngine.EvaluationIsFinal` | internal/alerting/engine.go:310-429 | an evaluation leaves resolved instances resolved, and creates none for a suppressed condition it sees |
| `AlertEngine.Run` | internal/alerting/engine.go:283-476 | over every interleaving: one live instance per fingerprint, firing notices a cooldown apart, notices only to instances that fired, every event with exactly its effect, no firing instance seen by an unmuted evaluation without a notice for a cooldown, resolved is final, and a manually resolved fingerprint gets no new instance while every evaluation sees it |

## Left out

- Restart.RestartKeeps: loading is modelled for records that can be decoded and up to the repair of mappings that list a variant without a body; legacy directories, index rebuild and removal of stray files are recovery from damaged files, and runs start from a provider that needed none of it.
- `Set`, `DeleteMany`, `MapKeys`, `ListKeys`, statistics and metrics counters: off the serving path, and `Set` over a body key breaks the accounting in the same way as a mapping deleted by its own key.
- Purging by URL or prefix: only the choice of keys differs from `DeleteKeys`.
- 64-bit wrap-around of usage counters, versions and generations: they are natural numbers here; sums of sizes of files on one disk stay far below 2^64.
- Files: a checksum stands for the bytes of a body, the file name of a body is injective in key and checksum, and removing a file succeeds.
- Mapping records that cannot be decoded: encoding and decoding are exact inverses here, and encoding fails exactly for times JSON cannot carry.
- Original sizes and cached response templates of items, and the modification time beyond whether it changed: they do not take part in any of the structures above.
- Recency list elements are the keys themselves, not pointers into a linked list.
- LZ4, CRC, SHA-256, percent-encoding, canonical header names and lower case: functions with only the laws used (decompressing undoes compressing, unescaping undoes escaping, and escaping leaves no separators).
- A source whose read returns neither a byte nor an error where the writer looks for the end of the object is not modelled.
- Capture.Relay: I/O errors of the spool and of the client connection are not modelled, nor are trailers and header contents.
- Concurrency slots of captures and the bounded wait of an abandoned encoder: a semaphore and a timer.
- Admission.AdmitsUnique: once the account is behind its sum, what a write leaves of it can depend on the order in which mappings are gone through, because subtractions stop at zero; then only the bound of `Carries` is stated.
- RangeServing.PooledBody.Read: a read of a body after it has reported an error is not modelled; `RangedBody` never does it.
- RangeServing.ApplyRange: the length headers of a stored response agree with its stored body; a response stored with wrong lengths is not modelled.
- AlertEngine.Table.Evaluate: one rule at a time, with distinct observation keys (they identify nodes, sites, jobs and the like); severities, titles, channels and delivery retries are not modelled.
- A request that panics between asking the breaker and reporting back: every admitted request reports.
- Caddy registration, header plumbing, precondition evaluation, matching by regular expression or country, proof of work, tokens, sessions, certificates, DNS, analytics and configuration loading: plumbing, cryptography or code that is not part of this model.
