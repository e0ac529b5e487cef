# RocketFS namenode metadata: a verified model

RocketFS's namenode keeps a directory tree in a key-value store. This project
models that path from the store upwards and proves what each layer gives the next:

- **Optimistic transactions** (`TxnStore`, `StoreRuns`, `Serializability`,
  `StoreDriver`): snapshots, read and write sets, the conflict detector, and runs
  with any number of live transactions whose calls interleave freely. Each call is
  one atomic step, as on the single-context server.
- **The directory table** (`Serde`, `DirTable`, `TableRefinement`): four column
  families maintained by incremental deletes and puts, refining a table of rows
  with unique id and unique (parent, name).
- **Ordered keys, listing and paging** (`ByteStrings`, `Listing`, `Paging`).
- **The readdir cursor** of the FUSE client (`ReadDirStream`).
- **The ID generator and mkdir runs** (`IdGen`, `Mkdirs`, `MkdirLedger`), and mkdirs as the calls
  they make on the store (`MkdirsOverStore`): any interleaving of those calls, with
  listings and the detector's bookkeeping in between, shows as a mkdir run.

What the source updates in place is a class here, with the source's fields; each
method is specified by a function on the object's value (`View()`), and the theorems
about whole runs are about those functions. A CHECK is a precondition where the
model proves that it always holds, and a result (`CheckFailed`, `None`, `failed`)
where it can fail. The one exception is the constructor of `IDGen`, which has no
result to report a failed CHECK in: its precondition is the CHECK itself, and
`ConstructibleIff` says exactly when it holds.

## Where the code does less than intended

Each of these is a lemma with the exact condition beside it.

- Nothing inserts into `committed_txns_`. The serializability theorem
  (`CommitOrderSerializable`) therefore takes "the log holds every commit above the
  purge mark whenever a commit consults it" as a named hypothesis. As written every
  commit is accepted (`AsWrittenAcceptsAll`), write skew gets through
  (`AsWrittenWriteSkew`), and a run is serializable in commit order exactly when no
  tracked read was overwritten with another value between its transaction's start and
  commit (`SerializableIffWindowsClean`). Adding the insertion is enough
  (`RecordingSerializable`).
- A missing key enters the read set as "exists, any value" (`Txn.Get`).
- `MkdirsOp` never looks at the dent it writes, so re-creating a name leaves no valid
  table: exactly when the name was taken (`CreateKeepsTableIff`), and over a whole run
  exactly when some name was created twice (`TableSurvivesIff`,
  `SameNameLeavesNoTable`). Recording commits would not help: mkdirs have no
  conflicting keys (`MkdirsDoNotConflict`).
- The acl is not stored, so under a stored directory only uid 0 can create
  (`OnlyUidZeroBelowStored`), and only the invented root passes on its set-group-ID
  bit (`SetGroupIdInherited`).
- A generator whose word nothing has touched yet hands out the root's id, also while
  its first update is between its load and its store (`RootIdIff`,
  `EarlyMkdirBecomesRoot`). One can be constructed only for node 0 and clock
  sequence 0 (`ConstructibleIff`).
- The comment above `struct ID` lists the timestamp first, and on a little-endian
  ABI the first bit-field is in the low bits. There, Next calls inside an update
  return an id twice (`LowInterleavedDuplicate`); ids are distinct exactly when each
  was drawn while the word was ahead (`LowDistinctIff`). What is missing is a guard
  against a store that moves the word back: with it ids increase
  (`GuardedIncreasing`), and without it the next id is a repeat (`StoreBackRepeats`).
- There, too, Next counts in the timestamp field, so the generator's time runs ahead of
  the clock and later updates are ignored (`LowRunsAhead`). With the timestamp in the
  high bits a second has 9,999,999 ids, one short of the "over 10,000,000" of the
  comment (`HighCapacity`).
- `ListDirOp` passes S_IRUSR where `CheckPermission` expects a bit in "other" position,
  so the owner of a directory would need a bit that no mode has (`ListBit`). It shows
  only once acls are stored (`WhoMayList`).
- `start_after` is inclusive, so a limit of 1 never advances
  (`LimitOneNeverAdvances`), and `has_more` is compared with the limit as sent
  (`HasMoreForDefaultLimit`).

## Model

| member | source | states |
|---|---|---|
| Serializability.CommitOrderSerializable | src/namenode/table/kv/rocksdb_kv_store.cc:162-181 | In every interleaved run whose log is complete whenever a commit consults it, running the committed transactions alone in commit-version order gives every tracked point read the value it saw and ends in the same database |
| Serializability.SerializableIffWindowsClean | src/namenode/table/kv/rocksdb_kv_store.cc:151-181 | With no hypothesis on the log: a run is serializable in commit order if and only if, for every tracked read of a committed transaction, the last earlier commit that wrote the key does not exist, precedes the reader's start, or wrote the value read |
| Serializability.SerializableIffCurrent | src/namenode/table/kv/rocksdb_kv_store.cc:247-270 | The same commit by commit: if and only if at each accepted commit the tracked reads still equalled the database |
| Serializability.VerdictExact | src/namenode/table/kv/rocksdb_kv_store.cc:157-211 | With a complete log, after any purges, a commit is accepted if and only if its start is not below the purge mark and no commit after its start wrote a key it read |
| Serializability.RecordingSerializable | src/namenode/table/kv/rocksdb_kv_store.cc:151-211 | If every commit were followed by the missing insertion, every run would be serializable and its log always complete above the purge mark |
| Serializability.AsWrittenAcceptsAll | src/namenode/table/kv/rocksdb_kv_store.cc:147-188 | Without insertions and purges the log stays empty, no commit is ever refused, and the database is the replay of the committed write sets |
| Serializability.AsWrittenWriteSkew | src/namenode/table/kv/rocksdb_kv_store.cc:247-258 | As written, two transactions that each read what the other writes both commit, and neither serial order explains their reads |
| Serializability.ChecksAlwaysPass | src/namenode/table/kv/rocksdb_kv_store.cc:155-193 | In every run the CHECKs on versions hold for whichever live transaction commits next, for every log entry the scan can reach |
| Serializability.VersionsHandedOutOnce | src/namenode/table/kv/rocksdb_kv_store.cc:242-252 | Every version below the next one was handed out exactly once: the start and commit versions of live, committed and refused transactions are all different, and together they are as many as were taken |
| Serializability.RepeatableReads | src/namenode/table/kv/rocksdb_kv_store.cc:39-84 | Every Get of a live transaction returned what replaying exactly the commits older than its start gives, whatever was committed or buffered since |
| Serializability.LastWriteWins | src/namenode/table/kv/rocksdb_kv_store.cc:259-268 | In a replay each key holds the Put or Del of the last commit that wrote it, or its initial value |
| Serializability.PurgeMarkIsGreatest | src/namenode/table/kv/rocksdb_kv_store.cc:203-211 | In every run the purge mark is the greatest version purged to, or 0 |
| Serializability.LogIsAboveMark | src/namenode/table/kv/rocksdb_kv_store.cc:203-211 | If commits are recorded as they happen, the log holds exactly the commits above the purge mark, after any purges |
| StoreDriver.Perform | src/namenode/table/kv/rocksdb_kv_store.cc:57-270 | Performing any call on the store and transaction objects keeps them equal to the run's state and returns what the run records: a Get's value and CommitTxn's verdict; every CHECK is discharged |
| TxnStore.Txn.Get | src/namenode/table/kv/rocksdb_kv_store.cc:57-84 | Returns the snapshot's value and tracks the key with it, or leaves the read set alone if excluded; a missing key is tracked like "exists, any value" |
| TxnStore.Txn.AddReadConflictKey | src/namenode/table/kv/rocksdb_kv_store.cc:86-97 | Adds the key to the read set and nothing else, losing the difference between absent and any value |
| TxnStore.Txn.GetRange | src/namenode/table/kv/rocksdb_kv_store.cc:99-126 | The values of exactly the first `limit` snapshot keys in [start, end) in byte order; the read set does not change |
| TxnStore.Txn.Put | src/namenode/table/kv/rocksdb_kv_store.cc:133-139 | The write set, and only it, maps the key to the value |
| TxnStore.Txn.Del | src/namenode/table/kv/rocksdb_kv_store.cc:141-145 | The write set, and only it, maps the key to a deletion |
| TxnStore.ConflictDetector.IsConflictFree | src/namenode/table/kv/rocksdb_kv_store.cc:151-201 | True exactly when the start is not below the purge mark and no logged transaction in the window wrote a key read |
| TxnStore.ConflictDetector.PurgeTo | src/namenode/table/kv/rocksdb_kv_store.cc:203-211 | Keeps exactly the log above the version and never lowers the purge mark |
| TxnStore.KvStore.StartTxn | src/namenode/table/kv/rocksdb_kv_store.cc:242-245 | A fresh transaction on the current database with the next version |
| TxnStore.BuildBatch | src/namenode/table/kv/rocksdb_kv_store.cc:259-267 | In whatever order the write set is visited, applying the batch lays the write set over the database |
| TxnStore.KvStore.CommitTxn | src/namenode/table/kv/rocksdb_kv_store.cc:247-270 | Takes a version, applies the whole write set or none of it, by the detector's verdict |
| Serde.DentKeyOrder | src/namenode/table/kv/serde.cc:263-270 | Byte order of dent keys is the order on (parent, name) for all 64-bit parents and all names |
| Serde.DentKeyInjective | src/namenode/table/kv/serde.cc:263-270 | Different (parent, name) pairs have different keys |
| Serde.ParentInterval | src/namenode/table/kv/kv_dent_view.cc:58-62 | Any byte string between two keys of one parent is a key of that parent |
| Serde.BuildDentKey | src/namenode/table/kv/serde.cc:263-270 | Filling the buffer gives eight big-endian bytes of the parent, then the name |
| Serde.BuildTime | src/namenode/table/kv/serde.cc:172-177 | Eight bytes that, read as one big-endian number, are the time, or the time plus 2^64 if it is negative |
| Serde.TimeRoundTrip | src/namenode/table/kv/serde.cc:172-190 | Every 64-bit time, negative ones included, decodes to itself |
| Serde.RowRoundTrip | src/namenode/table/kv/serde.cc:47-270 | Directory, file and hard-link values decode to the row but for the unstored acl and the times kept apart |
| Serde.KeyChangedExact | src/namenode/table/kv/serde.cc:47-252 | For every encoder and row type IsKeyChanged is inequality of the encoded keys |
| Serde.ValueChangedExact | src/namenode/table/kv/serde.cc:47-252 | Under an unchanged key IsValueChanged is inequality of the encoded values, except that the inode also compares the acl it does not store |
| Serde.WritesOnlyChanges | src/namenode/table/kv/serde.h:72-117 | A write touches no key but the two rows', and nothing at all for an unchanged row |
| Serde.IncrementalIsRewrite | src/namenode/table/kv/serde.h:95-117 | For every encoder and row type the incremental delete and put equal removing the original's entry and storing the modified row's, seen through the transaction's own writes |
| Serde.Write | src/namenode/table/kv/serde.h:72-85 | Applies the delete and then the put to the transaction's write set |
| DirTable.KVDirTable.Read | src/namenode/table/kv/kv_dir_table.cc:46-94 | The row assembled from three families, the invented root, nothing, or a failed CHECK; exactly the keys looked at are tracked |
| DirTable.ReadOutcome | src/namenode/table/kv/kv_dir_table.cc:46-94 | On the stored values: exactly when a read by id finds a directory, the invented root or nothing, with which fields, and when a CHECK fails |
| DirTable.ReadDependsOnKeysRead | src/namenode/table/kv/kv_dir_table.cc:46-94 | The result depends only on the tracked keys |
| DirTable.KVDirTable.ReadByName | src/namenode/table/kv/kv_dir_table.cc:96-116 | The directory the dent names; a hard link reads as nothing |
| DirTable.ReadByNameOutcome | src/namenode/table/kv/kv_dir_table.cc:96-116 | On the stored value: exactly when a read by name finds a directory, nothing, or fails a CHECK |
| DirTable.CreateBit | src/namenode/table/dir_table_base.h:58-85 | Creating is allowed if and only if uid is 0 or the write bit of the class that applies is set |
| DirTable.ListBit | src/namenode/table/dir_table_base.h:58-85 | Listing is allowed if and only if uid is 0 or, by class, bit 040000, the set-user-ID bit or the owner's read bit is set |
| DirTable.KVDirTable.Write | src/namenode/table/kv/kv_dir_table.cc:118-124 | The four encoders' writes in order |
| DirTable.WriteSwapsEntries | src/namenode/table/kv/kv_dir_table.cc:118-124 | Seen through the transaction's writes, one Write exchanges the old row's four entries for the new row's |
| TableRefinement.WritesRefine | src/namenode/table/kv/kv_dir_table.cc:118-124 | After any sequence of Writes with the stored original and a free or unchanged id and name, the overlaid database is exactly the four-index image of the updated rows, beside everything else stored |
| TableRefinement.ImageDetermined | src/namenode/table/dir_table_base.h:97-106 | Rows and remaining entries determine the database |
| TableRefinement.NamesUnique | src/namenode/table/dir_table_base.h:97-106 | A represented table satisfies UNIQUE (parent_id, name) |
| TableRefinement.CreateKeepsTableIff | src/namenode/service/operation/mkdirs_op.cc:56-72 | Creating under a fresh id leaves the image of some table if and only if the (parent, name) was free |
| TableRefinement.RoundTrip | src/namenode/table/kv/kv_dir_table.cc:46-124 | A created row reads back by id with every field but the acl, and by name with parent, name and id, after any later transactions on other ids and names |
| Listing.KVDEntView.List | src/namenode/table/kv/kv_dent_view.cc:53-77 | Exactly the first `limit` names of this parent with start_after <= name < FF, ascending, each decoded from its stored dent |
| Listing.ListDir | src/namenode/service/operation/list_dir_op.cc:37-120 | Which error, or which page with which "." and ".." entries; has_more is equality with the limit as sent |
| Listing.WhoMayList | src/namenode/service/operation/list_dir_op.cc:54-63 | A directory may be listed if and only if it is stored and uid is 0, or it is the root and not stored |
| ByteStrings.FirstOfUnique | src/namenode/table/kv/rocksdb_kv_store.cc:113-118 | Keys, range and limit determine the result of a range read |
| Paging.HasMoreForPositiveLimit | src/namenode/service/operation/list_dir_op.cc:94-118 | has_more if and only if at least `limit` entries were there; false means all were returned |
| Paging.HasMoreForDefaultLimit | src/namenode/service/operation/list_dir_op.cc:94-118 | With limit <= 0 has_more means an empty listing and limit 0; entries are left unannounced if and only if there are more than the default |
| Paging.PagingWhileGrowing | src/namenode/service/operation/list_dir_op.cc:94-118 | While entries are added between pages, names read are strictly ascending and in the directory, and a name there from the first page on is read unless beyond a full last page |
| Paging.ListAll | src/namenode/service/operation/list_dir_op.cc:37-120 | On an unchanged directory paging with limit >= 2 stops, having read every listable entry exactly once, in order, with its stored id and type |
| Paging.LimitOneNeverAdvances | src/namenode/table/kv/rocksdb_kv_store.cc:113-118 | With limit 1 a page starting at an entry is that entry again |
| Paging.NothingHiddenFromUtf8 | src/namenode/table/kv/kv_dent_view.cc:58-62 | The end bound hides exactly the names beginning with FF, hence no UTF-8 name (section 4 of RFC 3629) |
| ReadDirStream.StreamIsPrefix | src/client/fuse/operation/fuse_read_dir_op.cc:38-104 | Over any calls, buffer sizes and refills the emitted entries are a prefix of the delivered ones, each with its 1-based position, and OnSuccess's cursor CHECKs never fail; the cache is empty if and only if all were emitted |
| ReadDirStream.RefillsWhenDrained | src/client/fuse/operation/fuse_read_dir_op.cc:38-73 | In every run the next call takes in its batch if and only if all delivered entries were emitted, the last batch announced more, the offset is right and the RPC succeeds |
| ReadDirStream.ReadsOn | src/client/fuse/operation/fuse_read_dir_op.cc:38-104 | In every run a call at the right offset emits something if an entry is left or brought in and fits |
| ReadDirStream.CacheDirEntries.Populate | src/client/fuse/operation/fuse_read_dir_op.cc:75-104 | Emits the longest run of unread entries that fits, with offsets, never beyond the buffer; the batch is dropped if and only if it was read to its end |
| ReadDirStream.CacheDirEntries.constructor | src/client/fuse/operation/fuse_open_dir_op.cc:54-65 | The cursor starts at 0 with self, parent and the first batch |
| ReadDirStream.CacheDirEntries.Refill | src/client/fuse/operation/fuse_read_dir_op.cc:64-69 | Takes the new batch and has_more; the offsets stay |
| ReadDirStream.ReadDirOp | src/client/fuse/operation/fuse_read_dir_op.cc:17-73 | One readdir call on the cursor object is one step of the stream, and says when it replies with nothing but an error |
| ReadDirStream.FitsUnique | src/client/fuse/operation/fuse_read_dir_op.cc:76-98 | Buffer size and entries determine how many are emitted |
| ReadDirStream.EmptyReplyIff | src/client/fuse/operation/fuse_read_dir_op.cc:93-95 | A reply is empty if and only if the cache is drained or the next entry does not fit |
| IdGen.HighInterleavedIncreasing | src/namenode/common/id_gen.h:82-105 | With the timestamp in the high bits and one updater, Next calls between an update's load and store leave all returned ids strictly increasing up to the first failed CHECK |
| IdGen.SequentialIncreasing | src/namenode/common/id_gen.h:82-105 | In either placement, over any Next and Update calls with arbitrary timestamps, returned ids strictly increase; in the low placement because the auto-increment field stays zero |
| IdGen.LowDistinctIff | src/namenode/common/id_gen.h:82-105 | In the low placement with split updates, returned ids are distinct if and only if each was drawn with the word at or past all earlier ones |
| IdGen.StoreStaysAheadIff | src/namenode/common/id_gen.h:94-104 | A pending store keeps it so if and only if it does not move the word back |
| IdGen.StoreBackRepeats | src/namenode/common/id_gen.h:82-105 | After a store that moves the word back, the very next id is a repeat |
| IdGen.GuardedIncreasing | src/namenode/common/id_gen.h:82-105 | If no pending store of a run moves the word back, ids strictly increase with split updates in either placement |
| IdGen.LowInterleavedDuplicate | src/namenode/common/id_gen.h:82-105 | Two Next calls inside one update make the next id a repeat |
| IdGen.RootIdIff | src/namenode/common/id_gen.h:73-105 | For every sequence of calls, split updates included: the root's id is handed out if and only if some Next comes before any Next, any store of a positive load, and any positive update not kept out by such a load |
| IdGen.IdsNotBeforeUpdate | src/namenode/common/id_gen.h:82-105 | After an undisturbed update to t every id returned by any further calls, split updates included, carries a timestamp of at least t and the generator's node and clock sequence |
| IdGen.HighCapacity | src/namenode/common/id_gen.h:82-89 | With the timestamp in the high bits exactly 9,999,999 calls of Next succeed after an update that moved the word |
| IdGen.LowRunsAhead | src/namenode/common/id_gen.h:82-105 | With the timestamp in the low bits n calls of Next move the timestamp n seconds on, and an update to no more is ignored |
| IdGen.GeneratedIds | src/namenode/common/id_gen.h:73-105 | For every run of a constructed generator, exactly when its ids are distinct and exactly when the root's is among them |
| IdGen.ConstructibleIff | src/namenode/common/id_gen.h:73-98 | The constructor's CHECKs pass if and only if node and clock sequence are 0 |
| IdGen.Pack | src/namenode/common/id_gen.h:43-48 | Packing is undone by unpacking, in both placements |
| IdGen.WordLayout | src/namenode/common/id_gen.h:43-48 | Every word is the sum of its fields, each at its place in either placement |
| IdGen.UpdateFields | src/namenode/common/id_gen.h:93-105 | An update makes the timestamp the later of the two, clears the counter if and only if it moves, and keeps node and clock sequence |
| IdGen.IDGen.constructor | src/namenode/common/id_gen.h:73-78 | The word carries the given timestamp and zeros |
| IdGen.IDGen.Next | src/namenode/common/id_gen.h:82-89 | The word advances by one modulo 2^64 and is returned if it passes the CHECKs |
| IdGen.IDGen.Update | src/namenode/common/id_gen.h:93-105 | The word takes a later timestamp with the auto-increment cleared and node and clock sequence kept, or stays |
| Mkdirs.TreeInvariant | src/namenode/service/operation/mkdirs_op.cc:32-72 | However mkdirs interleave and whichever commits are accepted, given distinct ids every readable directory's parent is readable and climbing parents reaches the root within the number of directories; reading the root gives the invented one if and only if no mkdir committed under its id |
| Mkdirs.NoDanglingDents | src/namenode/table/kv/kv_dir_table.cc:46-116 | In every such state a directory found by name is readable by id with that parent and name, and no read fails a CHECK, even after a name is created again |
| Mkdirs.NoDanglingListings | src/namenode/table/kv/kv_dent_view.cc:53-77 | The same for every entry of every listing page |
| Mkdirs.DotDotIsParent | src/namenode/service/operation/list_dir_op.cc:66-91 | The ".." of a first page is the directory one step up, absent if that is not readable; the root is its own |
| Mkdirs.DotDotInRuns | src/namenode/service/operation/list_dir_op.cc:66-91 | In every mkdir run every readable directory has a ".." that is readable and has a dent of the directory's name, and no listing fails a CHECK on its reads |
| Mkdirs.TreeWithGenerator | src/namenode/service/operation/mkdirs_op.cc:56-56 | The tree invariant with the ids of a generator from its construction on, with split updates, in the low placement whenever its ids are distinct; the root stays the invented one unless a Next came first |
| Mkdirs.TableSurvivesIff | src/namenode/service/operation/mkdirs_op.cc:56-72 | Over any run the four families are the image of some table if and only if no (parent, name) was created twice |
| Mkdirs.SameNameLeavesNoTable | src/namenode/service/operation/mkdirs_op.cc:56-72 | For every name the root accepts there is a run that creates it twice and leaves no table |
| Mkdirs.EarlyMkdirBecomesRoot | src/namenode/namenode_ctx.cc:18-22 | With the generator as constructed with timestamp 0, the first mkdir takes the root's id and replaces what reading the root gives |
| Mkdirs.Mkdirs | src/namenode/service/operation/mkdirs_op.cc:32-84 | Which request is refused, and otherwise which row, with the requested parent and name, the id drawn and the time, is written and committed; the response reports success whatever the commit said |
| Mkdirs.SetGroupIdInherited | src/namenode/service/operation/mkdirs_op.cc:57-61 | The group and set-group-ID bit come from a set-group-ID parent, else from the caller, and the other eleven bits from the mode; the only such parent is the root while it is not stored, whose children get group 0 |
| Mkdirs.WhoMayCreate | src/namenode/service/operation/mkdirs_op.cc:32-54 | On the stored values: exactly which request is refused for a missing parent, which for permission, and which is granted |
| Mkdirs.OnlyUidZeroBelowStored | src/namenode/service/operation/mkdirs_op.cc:49-54 | Under a stored directory the permission check passes if and only if uid is 0 |
| MkdirLedger.ReadsFollowLedger | src/namenode/service/operation/mkdirs_op.cc:32-72 | Over any database and interleaving, a read by id gives the last creation granted under that id, as requested and with the time drawn; a read by name the id of the last creation of that name; other reads are unchanged |
| MkdirLedger.CreateReadsBack | src/namenode/service/operation/mkdirs_op.cc:56-72 | One create reads back as requested by id and by name and changes no other read |
| MkdirsOverStore.CallsOfTheTable | src/namenode/table/kv/kv_dir_table.cc:46-124 | The calls an op makes read exactly the keys the table's Read looks at and leave exactly the write set of its Write |
| MkdirsOverStore.Projects | src/namenode/service/operation/mkdirs_op.cc:32-74 | Every interleaving of mkdirs' store calls with each other and with transactions that do not commit shows as a mkdir run with the same database, ids and verdicts |
| MkdirsOverStore.TreeOverStore | src/namenode/service/operation/mkdirs_op.cc:32-74 | The tree invariant of the store's database over such interleavings, with any recording and purging and a generator with split updates |
| MkdirsOverStore.LedgerOverStore | src/namenode/service/operation/mkdirs_op.cc:32-74 | The same of the store's database over interleavings of the ops' store calls |
| MkdirsOverStore.MkdirsDoNotConflict | src/namenode/table/kv/rocksdb_kv_store.cc:151-201 | Even with every commit logged, a mkdir is refused if and only if it started below the purge mark, or creates under the root while a logged later commit stored the root; if the root's id was not drawn, the purge mark alone decides |
| MkdirsOverStore.PagingDuringMkdirs | src/namenode/service/operation/list_dir_op.cc:94-118 | Pages listed at any moments of a mkdir run read strictly ascending names of the directory, and every name there at the first page unless it lies beyond a full last page |

## Left out

- RocksDB, FlatBuffers, libfuse and gRPC internals: RocksDB is an ordered map with snapshots and atomic batches, a FlatBuffers value the record of the fields set in it, a directory entry's size an arbitrary function.
- RocksDB I/O errors, and the SystemError paths they lead to.
- Preemption inside StartTxn and CommitTxn: each call is one atomic step.
- Range reads and reads excluded from the read set: they are not tracked, so serializability is about tracked point reads.
- `DEntSerde::DeKey`: its size check admits only empty names, and nothing calls it.
- Overlapping readdir calls on one handle, and client paging end to end: the client never sets id or start_after in its ListDir request.
- Swapping two rows' names in one transaction: the free-or-unchanged condition on Write excludes it.
- File and hard-link tables beyond their row encodings: only their interfaces exist, and no operation writes them.
- The lookup, get-inode and ping-pong operations: each is one read and a copy of its fields, with no state of its own.
- `Mutation`, Status texts, logging, flags and clocks: no modelled result depends on them; a time is a parameter.
- The datanode protocol document: it describes a program that is not in this repository.
- Operations that remove or rename directories do not exist yet, and mkdir is the only operation that commits; so mkdir runs have only creations, and other transactions in them never commit.
- IdGen.HighInterleavedIncreasing: claims nothing past the first failed CHECK, which throws while the word has already moved.
