# A verified model of the storage engine

This project models the stack under the SQL front end of a small relational engine, and proves
what each part promises the part above it. `dafny verify dfyconfig.toml` checks all of it.

The layers, bottom to top:

- **Disk** (`Disk.dfy`): three files - heap pages, index pages and the log. Pages past the end of a
  file read as zeros. Every state the disk passes through is recorded, so that "a crash at any
  moment" is a statement about every one of them.
- **Buffer pool** (`PoolSpec.dfy`, `BufferPool.dfy`, `PoolOrder.dfy`, `PoolFlush.dfy`): 50 frames, a table, pin
  counts, dirty bits and a rotating queue. Each operation works in place and equals a function on
  pool values; all of them together are indistinguishable from a flat store of pages.
- **B+ tree** (`BPlusTree.dfy`, `SortedEntries.dfy`, the `Index*.dfy` files, `NodePages.dfy`,
  `EqualKeys.dfy`, `HiddenKeys.dfy`, `EqualKeysAsWritten.dfy`, `StrayedRuns.dfy`,
  `EqualScans.dfy`):
  the tree as a function on values, the pages it is stored in as arrays that are shifted and split
  in place, and the recursive insert and the scan over fetched pages. The tree function is related
  to a sorted list of entries, the pages to the tree, and whole runs to a map; with equal keys, to
  the multiset of entries and to the keys a scan still finds.
- **Rows and heap pages** (`Bytes.dfy`, `HeapRows.dfy`, `HeapSpec.dfy`, `HeapPages.dfy`): the row
  codec at byte level and the slotted page.
- **Log and recovery** (`LogFormat.dfy`, `Redo.dfy`, `Recovery.dfy`, `Wal.dfy`, `InsertEntry.dfy`,
  `Interleaving.dfy`, `Statements.dfy`, `Reopen.dfy`, `KeptRows.dfy`, `CrashRun.dfy`, `LogTail.dfy`,
  `TornTail.dfy`, `HeapGrowth.dfy`): the log at byte level, commit as a sequence of disk steps,
  replay, inserts, one insert at a time among the steps of other threads, sessions that may stop
  anywhere, and how far the heap grows.
- **Locks** (`LockManager.dfy`, `LockRuns.dfy`): the two lock tables, and a transition system over
  whole runs of scans.
- **Queries** (`SelectSpec.dfy`, `Pipeline.dfy`, `SelectFilled.dfy`, `SelectMeaning.dfy`): scan,
  filter and projection as iterators with cursors, against a comprehension over the page's rows, and
  what its comparisons mean.
- **Text and catalog** (`Lexer.dfy`, `Parser.dfy`, `Catalog.dfy`): lexing, parsing and printing
  CREATE TABLE, and the catalog file.
- **Layouts** (`Layouts.dfy`): where every byte of rows, log and catalog lies, in plain numbers.

## Where the code does less than it means to

The code is modelled as it stands. Where a promise fails, a lemma shows an input on which it
fails and another says exactly when it holds.

- The internal split copies the promoted key into the right node
  (`src/storage_manager/access_methods.cpp:209`). The model carries the copy as written and the
  copy from one place further on (`SplitCopy`); the map theorems are about the second. With distinct
  keys the first is right exactly while no internal node splits; with equal keys exactly while every
  internal split has equal third and fourth pending separators (`EqualKeysAsWritten.dfy`).
- Equal keys can break the index in both forms, because the insert descends by `>` and the scan by
  `>=`: when a child splits at a key equal to the separators on its right, the new child lands behind
  the last of them. `EqualKeys.dfy` and `HiddenKeys.dfy` say which keys no scan finds any more: with
  the split repaired, every scan of a run is right until that happens behind a child with larger
  keys, and at that insert it stays right exactly when no key lies where the scan no longer looks.
  `StrayedRuns.dfy` says for whole runs, in both forms of the split, which keys are found at the end.
  The map theorems and those about pages and the leaf chain are about distinct keys.
- A log record without its header update is left behind by a crash, whole or torn. Reopened as it is,
  the log goes on behind it: a whole one is adopted by the next session (`LogTail.dfy`), and behind a
  torn one the next record is never read where it starts (`TornTail.dfy`). `TailMode` carries both
  forms of reopening. The recovery theorems for more than one crash are about dropping the tail.
- Redo restores a row's bytes and the page number, not the slot. A row that was logged, but whose page
  was not yet written when the machine stopped, is therefore written over by the next one its page
  takes, but for equal ends. Acknowledged rows have their slots on disk and are never written over
  (`KeptRows.dfy`, `CrashRun.dfy`).
- A row turned away for space leaves a slot behind, and its page changed but unmarked and pinned.
  The pool stays sound because the change is in the header and slots of a page that is never
  evicted; two such slots on a page share a name, and scans of it can deadlock.
- The scan of the index leaves a pin on the root; the scan of the heap leaves one for each deleted slot.
- The last write of the pool leaves the emptied frames in the replacement queue.
- Transaction numbers repeat after 256 draws, and statements that share one share their locks: two
  statements can hold a row together exactly when their draws are a multiple of 256 apart.
- Closing the catalog appends it to itself.
- A row the log has no number left for stays in its page, which is pinned for ever and never written.
- A SELECT reports the operation as incomplete whatever happens.
- The page to insert into is chosen by "any free byte at all", which every page has for ever.

## Model

| member | source | states |
|---|---|---|
| `IndexSessions.InsertRunAndScan` | src/storage_manager/index_writer.cpp:24-93 | end to end through the 50-frame pool: after any run of distinct 32-bit keys from an empty index, a point scan answers exactly as the list of inserted pairs does |
| `IndexSessions.InsertRun` | src/storage_manager/index_writer.cpp:24-93 | starting with no pins, no insert of the run ever finds all frames pinned, none leaves a pin behind, and the pages hold the tree the run builds |
| `IndexRuns.IndexIsMap` | src/storage_manager/access_methods.cpp:252-278 | with the split repaired, the index after any run of distinct keys is the map of the run: each key gives its own RID, no other key is found |
| `IndexRuns.AsWrittenRightIff` | src/storage_manager/access_methods.cpp:191-219 | with the split as written, every scan at every moment of a run is right if and only if no insert of the run splits an internal node |
| `IndexSplitAsWritten.InsertAsWrittenIff` | src/storage_manager/access_methods.cpp:191-219 | one insert of a new key, as written, leaves an index that answers every scan correctly if and only if no full internal node takes a separator |
| `IndexSplitAsWritten.OverflowLoses` | src/storage_manager/access_methods.cpp:209 | when a full internal node splits as written, some key that was in the tree is found by no scan afterwards |
| `IndexCounterexample.AscendingLosesSix` | src/storage_manager/access_methods.cpp:209 | inserting 0 to 9 and scanning for 6 finds nothing with the split as written |
| `IndexDuplicates.DuplicatesLoseSeven` | src/storage_manager/index_writer.cpp:53-56 | a run on which an equal key hides another: after 4, 5, 5, 7, 5, 5 a scan for 7 finds nothing, in either form of the split |
| `HiddenKeys.InsertFindsIff` | src/storage_manager/index_writer.cpp:24-93 | one insert of any key, new or not, into a tree in weak order: a scan finds a key if and only if it was there or is the new one and the insert does not hide it; hidden are the keys above a promoted separator and below the next one in the last child before the new one, when equal separators lie between that child and the split one |
| `HiddenKeys.RightUntilStray` | src/storage_manager/index_writer.cpp:24-93 | over any run, equal keys or not, every scan finds a row inserted under its key and misses no key, as long as no insert has put a child behind one with larger keys; which of several rows it finds is said by `EqualScans.ScanFirst` |
| `HiddenKeys.RightAtStrayIff` | src/storage_manager/index_writer.cpp:72-85 | at the first insert of a run that may do so, every scan is right if and only if the insert hides no key; `StrayedRuns` goes on after it |
| `StrayedRuns.FoundIff` | src/storage_manager/index_writer.cpp:24-93 | after any run of any keys, in either form of the split and however often it has strayed or lost keys: a scan finds a key if and only if some insert left it where its scan comes and none since has turned the scan to a child without it |
| `StrayedRuns.RightIff` | src/storage_manager/index_writer.cpp:24-93 | so the end of any run is answered rightly if and only if that holds of every key of the run |
| `StrayedRuns.AlwaysRightIff` | src/storage_manager/index_writer.cpp:24-93 | and every moment of it if and only if no insert turns the scan of a key already there to a child without it, and each leaves a key new to the index where its scan comes |
| `StrayedRuns.RepairedLosesNoneIff` | src/storage_manager/access_methods.cpp:209 | with the copy repaired the second half of that always holds |
| `StrayedRuns.InsertFindsNew` | src/storage_manager/index_writer.cpp:24-93 | as then a row is found right after its insert, whatever tree the run has led to |
| `StrayedRuns.InsertDecides` | src/storage_manager/index_writer.cpp:58-89 | one insert into any such tree: the scan of a key finds it afterwards if it came to the leaf that took it, or was turned to a new child or past its own and finds it there, or stayed where it was and found it before; and not otherwise |
| `StrayedRuns.InsRises` | src/storage_manager/access_methods.cpp:142-250 | whatever the keys, an insert keeps separators in order and nothing to the right of one below it, in either form; with the copy repaired, each is the first key to its right |
| `StrayedRuns.HiddenIffTurned` | src/storage_manager/index_writer.cpp:53-56 | in a tree in weak order the keys whose scans are turned away are the hidden ones |
| `EqualScans.ScanFirst` | src/storage_manager/access_methods.cpp:252-278 | of several rows under one key a scan returns the first in the leaf its descent ends in, and fails exactly when that leaf has none |
| `EqualScans.LeafScan` | src/storage_manager/access_methods.cpp:252-278 | while the root is a leaf that is the row inserted first under the key |
| `EqualScans.OneKeyAnswer` | src/storage_manager/index_writer.cpp:24-93 | for a run of n rows under one key, in either form of the split: the first row while n is at most 3; then, with h levels above the leaves, that of insert q * 2^h - 4 counted from 0, where q * 2^h is the largest multiple of 2^h not above n + 2 and q is 3, 4 or 5 |
| `HiddenKeys.HiddenStrays` | src/storage_manager/index_writer.cpp:53-56 | a key is hidden only by an insert that puts a child behind one with larger keys |
| `HiddenKeys.DistinctNeverStrays` | src/storage_manager/index_writer.cpp:53-56 | a run of distinct keys never does |
| `HiddenKeys.EqualNeverStrays` | src/storage_manager/index_writer.cpp:53-56 | nor does a run of one key, however long |
| `EqualKeysAsWritten.InsertAsWrittenFindsIff` | src/storage_manager/access_methods.cpp:191-219 | one insert of any key, as written, into a tree in weak order: every key is found afterwards if and only if no internal node splits with different third and fourth pending separators, and nothing is hidden behind equal keys |
| `EqualKeysAsWritten.AsWrittenAnswersIff` | src/storage_manager/access_methods.cpp:191-219 | over a run that never strays, equal keys or not: as written it is answered rightly at every moment if and only if every internal split has equal third and fourth pending separators |
| `EqualKeysAsWritten.RightAtNextIff` | src/storage_manager/access_methods.cpp:191-219 | the same for the next insert of such a run, which may stray: right if and only if it neither splits otherwise nor hides a key |
| `EqualKeysAsWritten.SpoilLoses` | src/storage_manager/access_methods.cpp:209 | a split with different ones loses a key: the promoted one is found by no scan, on whatever level the node is |
| `EqualKeysAsWritten.CopiesAgree` | src/storage_manager/access_methods.cpp:209 | without such a split both forms of the copy do the same |
| `EqualKeysAsWritten.CopiesTwin` | src/storage_manager/access_methods.cpp:191-219 | with it they still put the same entries into the same halves under the same separator |
| `EqualKeysAsWritten.OneKeyAnswers` | src/storage_manager/access_methods.cpp:191-219 | a run of one key, however long, is answered rightly as written; with which row, `EqualScans.OneKeyAnswer` says |
| `HiddenKeys.InsertConserves` | src/storage_manager/index_writer.cpp:24-93 | whatever the keys and the form of the split, an insert adds its entry to the multiset of entries and drops none |
| `EqualKeys.InsWeak` | src/storage_manager/index_writer.cpp:58-89 | an insert that does not stray keeps the weak order in both halves and between them: no key is followed by a smaller one |
| `EqualKeys.InsFenced` | src/storage_manager/index_writer.cpp:58-89 | whatever it does to the order, an insert keeps every separator the first and least key of the subtree to its right, and every key in the tree |
| `EqualKeys.WeakFinds` | src/storage_manager/access_methods.cpp:252-278 | in a tree in weak order the descent by `>=` finds every key |
| `IndexInsertion.InsertAddsOneEntry` | src/storage_manager/index_writer.cpp:24-93 | an insert of a new key keeps the whole tree ordered and makes its list of entries the old sorted list with the new pair in place |
| `IndexInsertion.InsInserted` | src/storage_manager/index_writer.cpp:58-89 | the same for every subtree, split or not: the two halves hold the sorted insertion, and the key handed up is the least key of the right one |
| `BPlusTree.Insert` | src/storage_manager/index_writer.cpp:72-85 | the tree stays shaped (2 to 3 keys per leaf, 1 to 3 per inner node, one more child than keys, leaves at one depth), grows by at most a level, and fetches at most height + 2 pages |
| `BPlusTree.Absorb` | src/storage_manager/access_methods.cpp:142-219 | a parent that takes a split child's sibling splits exactly when it was full, and both halves keep the occupancy bounds |
| `BPlusTree.PagesTaken` | src/storage_manager/index_writer.cpp:34-69 | an insert splits exactly the full nodes from the leaf up, and fetches a page for each of them and a spare one for the node above them that has room |
| `IndexOrder.LookupIsFind` | src/storage_manager/access_methods.cpp:252-278 | in an ordered tree the descent by `>=` returns what the sorted list of all entries associates with the key |
| `IndexOrder.SeparatorEntry` | src/storage_manager/access_methods.cpp:248 | every separator is the key of an entry, the least one of the subtree to its right |
| `IndexOrder.HeightBound` | src/storage_manager/index_writer.cpp:72-85 | a tree with h internal levels holds at least 2^(h+1) entries |
| `IndexRuns.HeightFitsPool` | src/storage_manager/buffer_manager.cpp:93-119 | 32-bit keys allow at most 31 internal levels, so one insert pins fewer pages than the pool has frames |
| `IndexPids.InsertKeepsPages` | src/storage_manager/index_writer.cpp:11-22 | every page is reached once in the tree, before and after an insert, and new nodes take only newly fetched pages |
| `IndexChain.InsertKeepsChain` | src/storage_manager/access_methods.cpp:242-243 | an insert of a new key keeps each leaf linked to the next leaf of the tree and the last one to the invalid id |
| `IndexChain.BuildChained` | src/storage_manager/access_methods.cpp:242-243 | so the chain is right after any run of distinct keys |
| `IndexChain.WalkIsEntries` | src/storage_manager/headers/types.hpp:130-158 | following `next_leaf` through the stored pages from the leftmost leaf visits the leaves left to right, ends there, and reads off the sorted list of all entries |
| `NodePages.NodePage.LeafInsert` | src/storage_manager/access_methods.cpp:90-140 | in place on the page's arrays: the entries become the sorted insertion, or, when full, the two halves of it with the link moved |
| `NodePages.NodePage.LeafSplit` | src/storage_manager/access_methods.cpp:221-250 | copies the pending entries into the two pages, links them, and hands up the right page's first key |
| `NodePages.NodePage.InternalInsert` | src/storage_manager/access_methods.cpp:142-189 | in place on the page's arrays: separator and child go to the place a shift from the right finds, or the full node splits around them |
| `NodePages.NodePage.InternalSplit` | src/storage_manager/access_methods.cpp:191-219 | copies separators and children into the two pages, in the form as written or repaired, and hands up the middle separator |
| `NodePages.ShiftLeaf` | src/storage_manager/access_methods.cpp:107-115 | the shifting loop over keys and values is insertion at the place after the last key not above the new one |
| `NodePages.ShiftInternal` | src/storage_manager/access_methods.cpp:177-185 | the shifting loop over keys and children, children one place further on |
| `IndexStore.AbsorbStored` | src/storage_manager/access_methods.cpp:142-219 | the images an internal insert leaves on its pages are those of the tree function's nodes |
| `IndexWriters.IndexWriter.Insert` | src/storage_manager/index_writer.cpp:24-93 | the recursive insert over fetched pages stores exactly the tree the tree function gives, changes no page outside the tree and its new pages, returns every pin, moves the root exactly when it splits, and succeeds while height + 2 frames are left |
| `IndexWriters.IndexWriter.FetchPage` | src/storage_manager/index_writer.cpp:11-22 | fetches the page past the end of the index file, emptied and written out, pinned once |
| `IndexWriters.IndexWriter.CreateRoot` | src/storage_manager/insert.cpp:25-29 | an index starts as one empty leaf on a newly fetched page |
| `IndexWriters.IndexWriter.Scan` | src/storage_manager/access_methods.cpp:252-278 | the scan over fetched pages finds what the tree function finds and changes no page; it leaves the root with one pin more than before |
| `PoolSpec.MakeKeyInjective` | src/storage_manager/headers/buffer_manager.hpp:37-39 | packing type and page id into one number loses nothing |
| `Layouts.KeyPacks` | src/storage_manager/headers/buffer_manager.hpp:37-39 | the key has the page id in its low 32 bits and, above them, 0 for a heap page and 1 for an index page |
| `PoolSpec.AccessKeeps` | src/storage_manager/buffer_manager.cpp:37-75 | a fetch changes no page's value, pins the fetched page once more, moves no pinned page, keeps table and queue exact, and writes out at most one page, not a pinned one |
| `PoolSpec.AccessFails` | src/storage_manager/buffer_manager.cpp:37-119 | a fetch of a valid page fails if and only if the page is not resident and every frame holds a pinned page |
| `PoolSpec.ReplaceKeeps` | src/storage_manager/buffer_manager.cpp:93-119 | replacement frees the first unpinned frame in queue order, keeps the bookkeeping exact and every page's value, and fails only when all are pinned |
| `PoolSpec.InstallKeeps` | src/storage_manager/buffer_manager.cpp:47-71 | loading a page into a free frame changes no page's value and pins just that page |
| `PoolOrder.LastFifty` | src/storage_manager/buffer_manager.cpp:37-119 | any number of different pages fetched and let go one after the other in an empty pool: every fetch succeeds, and the pages there are exactly the last 50, page i in frame i modulo 50 |
| `PoolOrder.RunEvictsOldest` | src/storage_manager/buffer_manager.cpp:93-119 | in any run from an empty pool, with any pins: the page that makes room is, of those not pinned, the one whose frame has waited longest since it was loaded or last passed over, and no other page leaves |
| `PoolOrder.MarkedIsWritten` | src/storage_manager/buffer_manager.cpp:102-106 | it is written out exactly if it is marked |
| `PoolSpec.UnPinKeeps` | src/storage_manager/buffer_manager.cpp:77-92 | an unpin succeeds exactly for resident pages and lowers one pin count and nothing else; the pool stays sound exactly when the page is still held or its frame is marked or as on disk |
| `PoolSpec.StoreKeeps` | src/storage_manager/insert.cpp:16-18 | a write marked dirty changes the value of one page and no pin |
| `PoolSpec.StoreThroughKeeps` | src/wal/wal.cpp:101-104 | a write written out at once does the same and puts the value on disk |
| `PoolSpec.ScribbleSoundIff` | src/storage_manager/heap_writer.cpp:27-42 | a change left unmarked by a failing writer is harmless if and only if the frame was dirty already, the bytes are those on disk, or the page is pinned and differs from the disk in header and slots only |
| `PoolSpec.PinUpDown` | src/storage_manager/buffer_manager.cpp:77-92 | an unpin undoes a pin |
| `BufferPools.BufferPool.constructor` | src/storage_manager/headers/buffer_manager.hpp:45-50 | an empty pool answers for every page with its bytes on disk |
| `BufferPools.BufferPool.PageReplacementPolicy` | src/storage_manager/buffer_manager.cpp:93-119 | the rotating loop in place is the replacement function; when it fails the queue is back in its old order and nothing was written |
| `BufferPools.BufferPool.Fetch` | src/storage_manager/buffer_manager.cpp:37-75 | fetching in place is the access function; on failure nothing changed |
| `BufferPools.BufferPool.PageAccess` | src/storage_manager/buffer_manager.cpp:37-75 | what a fetch means for the flat store, the pins and the disk; it succeeds for every resident page and while a page frame is unpinned |
| `BufferPools.BufferPool.Unpin` | src/storage_manager/buffer_manager.cpp:77-92 | unpinning in place is the unpin function |
| `BufferPools.BufferPool.WriteFrame` | src/storage_manager/insert.cpp:16-18 | a caller's in-place change, marked dirty, is a write to the flat store |
| `BufferPools.BufferPool.WriteThrough` | src/wal/wal.cpp:101-104 | a caller's in-place change, written out, is a write to the flat store and to the disk, in one disk step |
| `PoolFlush.FinalWrite` | src/storage_manager/buffer_manager.cpp:149-159 | afterwards the disk holds every page's value, but for the header and slots of pages still pinned after a rejected row, and exactly the changed pages have left their frames |
| `PoolFlush.QueueStaleIff` | src/storage_manager/buffer_manager.cpp:149-159 | the replacement queue is exact after the last write if and only if no page had changed |
| `Disks.ReadAfterWrite` | src/storage_manager/headers/disk_operator.hpp:78-127 | a written page is read back, and every other page, past the end or not, reads as before |
| `Disks.WriteAt` | src/storage_manager/headers/disk_operator.hpp:106-127 | writing past the end of a file fills the gap with zero pages |
| `Disks.Disk.Write` | src/storage_manager/headers/disk_operator.hpp:106-127 | one page write is one state of the disk |
| `Bytes.Int32RoundTrip` | src/wal/wal.cpp:27-29 | four bytes of a 32-bit integer give it back |
| `HeapRows.SerializeRow` | src/wal/wal.cpp:18-43 | the growing byte vector is the row's fixed-width encoding, strings cut at 500 bytes or filled with zeros |
| `HeapRows.RowRoundTrip` | src/storage_manager/access_methods.cpp:43-63 | the scan decodes what was encoded, wherever the row lies, for rows typed as the table with strings shorter than 500 and free of zero bytes |
| `HeapRows.TextRoundTripIff` | src/storage_manager/access_methods.cpp:50-52 | a string of at most 500 bytes comes back if and only if it has no zero byte and one follows it: always below 500, at 500 only by luck of the next byte |
| `HeapRows.TypedSize` | src/query_manager/planner.cpp:25-38 | a row typed as its table takes the sum of the column widths |
| `Layouts.RowLies` | src/wal/wal.cpp:18-43 | where each column of a row lies and what its bytes are: 500 for a string, filled with zeros, four for a number, an integer's low byte first and in two's complement |
| `HeapSpec.RegionsTile` | src/storage_manager/heap_writer.cpp:37-46 | the rows of a page tile the payload from the free space to the end: no gap, no overlap |
| `HeapSpec.WritePacks` | src/storage_manager/heap_writer.cpp:11-73 | an accepted row joins the packed rows; every earlier row keeps slot and bytes, and the new region holds the row's encoding |
| `HeapSpec.AcceptedIff` | src/storage_manager/heap_writer.cpp:27-42 | a row is accepted if and only if a slot and enough bytes are left; the page number is not touched |
| `Layouts.FreshTakes` | src/storage_manager/headers/types.hpp:59-90 | a page never used takes any row of up to 4015 bytes, which ends where its payload ends |
| `Layouts.PastEndIsZero` | src/storage_manager/headers/disk_operator.hpp:78-104 | a page past the end of its file has every field zero: a heap page not in use, a node that is no leaf |
| `HeapSpec.PackedAfterIff` | src/storage_manager/heap_writer.cpp:27-42 | a page stays packed if and only if the row is not turned away for space: such a row leaves a slot behind |
| `HeapSpec.ReadsBack` | src/storage_manager/access_methods.cpp:43-63 | the scan reads every packed row back as it was written |
| `HeapPages.HeapPageBuffer.HeapWrite` | src/storage_manager/heap_writer.cpp:11-73 | the writer in place is the page function: same page, same slot, same error |
| `HeapPages.HeapPageBuffer.WriteValues` | src/storage_manager/heap_writer.cpp:50-70 | the loop over the values lays down the row's encoding and nothing else |
| `HeapPages.TypedRowFits` | src/query_manager/planner.cpp:25-38 | the widths the planner hands over add up to the row's encoded size |
| `LogFormat.EntryRoundTrip` | src/storage_manager/headers/types.hpp:112-118 | the 24 bytes of a log entry give back number, page, slot and row size |
| `Layouts.EntryLies` | src/storage_manager/headers/types.hpp:112-118 | where the fields lie in those 24 bytes: the number in bytes 0 to 7, the page in 8 to 11, the slot's size, offset and flag in 12 to 15, 16 to 17 and 18, the row size in 20 to 23, low bytes first |
| `Layouts.LogLies` | src/storage_manager/headers/disk_operator.hpp:131-160 | a log file is eight bytes with the place of its last record, and the records one after the other from byte 8 on |
| `Layouts.ReadIff` | src/wal/wal.cpp:152-178 | of any bytes, exactly when a record is read from them, and with which fields |
| `Layouts.HeaderIff` | src/wal/wal.cpp:138-148 | and when the header is taken to name a record |
| `LogFormat.RecordAtFits` | src/wal/wal.cpp:164-178 | whatever the bytes, a record that passes the checks fits the heap payload and the file |
| `LogFormat.LogRoundTrip` | src/wal/wal.cpp:133-196 | a log file is read back as the records its header covers; what follows them is not looked at |
| `Redo.ReplayMonotone` | src/wal/wal.cpp:180-194 | replay of any records lowers no page's number, and only a negative page id stops it |
| `Redo.ReplayIdempotent` | src/wal/wal.cpp:133-196 | a second replay changes nothing |
| `Redo.RedoneIff` | src/wal/wal.cpp:112-131 | redo leaves a page with the record's number or a later one as it is, and gives an older one the row's bytes in their place and the number |
| `Redo.RecordsFit` | src/wal/wal.cpp:152-178 | every record read from any log bytes copies inside the payload |
| `Redo.RedoComplete` | src/wal/wal.cpp:133-196 | from any heap in which each page is the image of a prefix of its own records, replay gives every page all of its logged rows |
| `Redo.RowSurvives` | src/wal/wal.cpp:112-131 | a row no later record overlaps is on its page byte for byte |
| `Recovery.Recovers` | src/wal/wal.cpp:133-196 | replaying what the log of a recoverable disk holds gives exactly the logged records and every page all of their rows |
| `Recovery.AppendRecoverable` | src/storage_manager/headers/disk_operator.hpp:131-160 | a crash after any byte of an append finds the old log, and after the header update the new one; both are recoverable |
| `Recovery.EvictionRecoverable` | src/storage_manager/buffer_manager.cpp:98-114 | an eviction never takes the disk out of the recoverable states: a page with an unlogged row is pinned |
| `Recovery.FetchKeeps` | src/storage_manager/buffer_manager.cpp:37-75 | a page access by anyone, with its eviction, at any moment of an insert keeps the guarantee |
| `Interleavings.StepKeeps` | src/storage_manager/buffer_manager.cpp:37-119 | one step of anyone - a fetch of any page, an unpin by a thread that holds one, a change of an index page in its frame or through to disk, or the next step of the one insert under way - keeps everything crash safety needs, and the log only grows; an insert that finds no number left in the log leaves its row in a page pinned for ever, and the next insert begins |
| `Interleavings.SettledBegins` | src/storage_manager/headers/buffer_manager.hpp:45-50 | a pool that holds every row of its log and no pins is where such a run can begin |
| `Interleavings.RunRecovers` | src/wal/wal.cpp:73-196 | stop in any state of any run of such steps, over any number of inserts: the disk is recovered as exactly the records logged by then |
| `Interleavings.RunGrows` | src/wal/wal.cpp:73-110 | and a record once logged stays logged |
| `Interleavings.NodeKeeps` | src/storage_manager/index_writer.cpp:24-93 | a change of an index page, in its frame or through to disk, keeps the guarantee whatever heap page is busy |
| `Recovery.UnpinKeeps` | src/storage_manager/buffer_manager.cpp:77-92 | so does an unpin while the busy pages stay pinned |
| `Interleavings.InsertGoesOn` | src/storage_manager/insert.cpp:12-21 | and an insert under way can always take its next step, with numbers left in the log or not |
| `Recovery.LoggedSettles` | src/storage_manager/headers/disk_operator.hpp:131-160 | once the record and header are down the pool is as the longer log says, but for the row's page |
| `Recovery.WrittenKeeps` | src/wal/wal.cpp:98-104 | writing the numbered page out completes the commit |
| `Wals.LastLsnCounts` | src/wal/wal.cpp:45-71 | reopening recovers the number of records, whatever follows the last one, so the k-th record carries number k |
| `Wals.Wal.constructor` | src/wal/wal.cpp:45-71 | the log manager continues from the number of the record the header names, or from zero |
| `Layouts.ContinuesFrom` | src/wal/wal.cpp:45-71 | whatever the bytes: that number is read from the entry the header names, unchecked, and is zero if there is none |
| `Wals.Wal.WriteToWal` | src/storage_manager/headers/disk_operator.hpp:131-160 | the disk passes through exactly these states: the record byte by byte, then the header |
| `Wals.Wal.LogRecord` | src/wal/wal.cpp:88-95 | the append, with every state on the way recoverable as the old records or the old and the new, and the record's page waiting for its number only |
| `Wals.Wal.CommitTransaction` | src/wal/wal.cpp:73-110 | refuses a row of the wrong size, past the payload, or numbered past 16 bits, changing nothing; else logs it and then writes the numbered page, every state on the way being recoverable as the old records or the old and the new |
| `Layouts.RefusedIff` | src/wal/wal.cpp:77-86 | a row is refused for its size, for its place past byte 4015, or when 65535 numbers are in use, the first of these that holds |
| `Wals.Wal.ApplyRedo` | src/wal/wal.cpp:112-131 | copies the row and number into the page and writes it out |
| `Wals.Wal.RedoRecord` | src/wal/wal.cpp:180-194 | redo of one record happens exactly when the page's number is lower |
| `Wals.Wal.ReplayTransaction` | src/wal/wal.cpp:133-196 | for any log bytes the loop ends and its effect is the fold of the records read; it fails only for a negative page; from a crashed disk every page gets all of its rows, and a crash during replay is recoverable too |
| `InsertEntry.Inserter.GetLastPid` | src/storage_manager/buffer_manager.cpp:121-136 | the target is the last heap page while it has any free byte, else the page after it |
| `InsertEntry.TargetIs` | src/storage_manager/buffer_manager.cpp:121-136 | the page after the last is targeted exactly when the last has no free byte |
| `Layouts.PageIdWraps` | src/storage_manager/buffer_manager.cpp:121-136 | a page number past 31 bits is cut to its low 32 bits, with a sign |
| `InsertEntry.Inserter.Place` | src/storage_manager/insert.cpp:12-18 | the row is in its pinned page and nowhere on disk; a rejected row may change the page's header and slots, unmarked, leaves the page pinned, and keeps the pool as fit for recovery as it was |
| `InsertEntry.Inserter.WriteInto` | src/storage_manager/insert.cpp:16-17 | the fetched page takes the row or turns it away as the page writer does; a page that took it is marked, one that did not is changed unmarked |
| `InsertEntry.Inserter.CreateEntry` | src/storage_manager/insert.cpp:12-21 | an accepted row is on its page in memory and on disk, numbered, with all pins returned; a rejected one leaves the log and all rows alone; at no moment is a row's byte on disk before its record and header are |
| `Sessions.Open` | src/wal/wal.cpp:45-71 | opening on any crashed disk restores every logged row, and with the tail dropped the pool is fit for the next session |
| `Sessions.RunSession` | src/transaction_manager/worker_function.hpp:136-149 | any run of inserts, going on past every one that fails, a full log included: when nothing but its page stands in the way, an insert is acknowledged exactly when the page takes its row, and one that is acknowledged is on its page in memory and on disk; stop anywhere and the disk is recovered as the records before the session and a prefix of its own, with every insert acknowledged by then and its slot on its page; rows of the session overlap neither each other nor any row kept from before |
| `Statements.StatementReadable` | src/storage_manager/heap_writer.cpp:33-46 | after any such insert, acknowledged, turned away or left without a number, every page can take further rows |
| `Sessions.AcknowledgedSurvives` | src/transaction_manager/worker_function.hpp:136-149 | at any disk state from the acknowledgement of an insert on, replay reads its record and puts the bytes of its row in place |
| `Sessions.SurvivesCrash` | src/wal/wal.cpp:133-196 | at any such stop, replay reads a prefix of the session's records and puts the bytes of every row logged by then in place |
| `CrashRuns.CrashRun` | src/wal/wal.cpp:45-196 | one session for each plan, the first opened on the given disk and every other, with the tail dropped, on the state its predecessor was stopped in, be it in its inserts or in its own recovery; each does the plan's inserts, acknowledging as `RunSession` says. The rows acknowledged before their session's stop, over all sessions, are the result: each has its record in the last log, which extends all earlier ones, and after replay of the last disk a live slot on its page and its bytes there |
| `CrashRuns.ListedIsRead` | src/storage_manager/access_methods.cpp:43-63 | so its slot is one the scan of that page comes to and does not pass over, and it is decoded as the row that was inserted |
| `KeptRows.InsertSpares` | src/storage_manager/heap_writer.cpp:37-46 | a row accepted later touches no row whose slot is on its page on disk above the free space |
| `KeptRows.FixedRecoverable` | src/wal/wal.cpp:133-196 | a disk a crash leaves can be recovered with every row kept whose slot it has, and with all that were kept before |
| `Sessions.TrimmedLog` | src/storage_manager/headers/disk_operator.hpp:131-160 | cutting a log off after the record its header names leaves exactly its records |
| `LogTails.OrphanIsAdopted` | src/storage_manager/headers/disk_operator.hpp:132-156 | when the whole record is there: without the cut, a reopened log continues from the number before the orphan and the next commit puts the orphan into the log |
| `LogTails.OrphanLosesIff` | src/wal/wal.cpp:180-194 | the logged row after a whole orphan is recovered if and only if the orphan is of another page or left the row's own bytes there |
| `LogTails.OrphanEndsIff` | src/wal/wal.cpp:180-194 | behind a whole orphan on the same page, where both rows end at one offset: a row no longer than the orphan's is recovered if and only if the orphan's row ends with it; a longer one if and only if it ends with the orphan's row and the page held the rest of it anyway |
| `TornTails.ReadWhereItStartsIff` | src/storage_manager/headers/disk_operator.hpp:132-156 | whatever part of a record a crash leaves after the log, the record committed next without the cut is read where it starts if and only if none of it is there or all of it |
| `TornTails.TornReads` | src/wal/wal.cpp:133-178 | behind a torn record replay reads the old records and at most one more, the one its bytes and the next ones are misread as |
| `TornTails.TornEntry` | src/wal/wal.cpp:152-178 | once its first 24 bytes are there, that is the torn record with the bytes after it as the rest of its row, or nothing if they are too few |
| `TornTails.TornLosesIff` | src/wal/wal.cpp:180-194 | replay then fails if and only if the misread page is negative, and brings the next row back if and only if its page held the bytes already or the misread record puts them there |
| `TornTails.TornElsewhere` | src/wal/wal.cpp:180-194 | behind a torn record of another page the next row is recovered only if its page held the bytes already |
| `TornTails.TornEndsIff` | src/wal/wal.cpp:180-194 | behind one of the same page it is recovered if and only if the misread row ends with it, or it with the misread row and the page held the rest |
| `TornTails.TornLosesARow` | src/storage_manager/headers/disk_operator.hpp:139-156 | a concrete torn record of page 1 behind which a committed row of page 0 is lost |
| `LogTails.OrphanLosesARow` | src/storage_manager/headers/disk_operator.hpp:139-156 | a concrete log whose last committed row is lost |
| `LogTails.RedoForgetsSlot` | src/wal/wal.cpp:119-123 | redo gives back the payload but not the slot: the page lists only the rows before, and the next row accepted ends where the redone one ends |
| `LogTails.RedoneSurvivesIff` | src/wal/wal.cpp:119-123 | the redone row outlives that next row if and only if the shorter of the two is the end of the longer |
| `LogTails.RedoneRowIsLost` | src/wal/wal.cpp:119-123 | two different rows of one integer: the redone one is lost to the next |
| `LogTails.InterleavedInsertsIff` | src/storage_manager/insert.cpp:12-21 | two inserts into one page at a time: the page the second commit writes is the image of the log if and only if the first row's bytes were there anyway |
| `HeapGrowth.NeverFull` | src/storage_manager/headers/types.hpp:57-76 | free space of a packed page is 3 modulo 4, so it never runs out |
| `HeapGrowth.NeverFullAfter` | src/storage_manager/heap_writer.cpp:33-44 | nor after any accepted or rejected row |
| `HeapGrowth.FillHeap` | src/storage_manager/buffer_manager.cpp:121-136 | from an empty heap every insert of a run of any length, going on past the rows turned away, targets page 0; the file never gets a second page; taken are exactly those of the first ten rows offered that there is room for in their turn, and their bytes lie where their slots say; the log needs ten numbers at most |
| `HeapGrowth.TenFit` | src/storage_manager/headers/types.hpp:57-76 | of rows of up to 401 bytes the page takes exactly the first ten |
| `SelectFilled.SelectAfterFillIff` | src/storage_manager/access_methods.cpp:17-84 | after such a run every SELECT answers from exactly the rows taken if and only if no row was turned away for space: the slot such a row leaves is read as a row |
| `SelectFilled.FilledIsScannable` | src/storage_manager/access_methods.cpp:43-63 | and if none was, every slot of the page can be read |
| `LockTables.LockManager.TryAcquire` | src/transaction_manager/lock_manager.cpp:5-25 | a row is taken exactly when free or owned already; the two tables stay exact inverses |
| `LockTables.LockManager.Release` | src/transaction_manager/lock_manager.cpp:27-44 | all rows of a transaction, and no others, become free; the two tables stay exact inverses |
| `LockTables.LockManager.GetTransactionId` | src/transaction_manager/lock_manager.hpp:23-26 | the number of a draw is the count of draws before it, modulo 256, however many there have been |
| `LockRuns.NoDeadlock` | src/storage_manager/access_methods.cpp:76-81 | in every state of every run with an unfinished scan some scan can move, on pages where slots with one name follow one another, whoever shares whose number, and on every page while active statements have different numbers |
| `LockRuns.NeverStuckIff` | src/storage_manager/access_methods.cpp:76-81 | a page never leads to a deadlock, whoever shares whose number, if and only if its slots with one name follow one another |
| `LockRuns.RejectedRowsGetStuck` | src/storage_manager/heap_writer.cpp:27-42 | an accepted row between two rows turned away for space makes a page on which scans can deadlock |
| `LockRuns.RunsEnd` | src/transaction_manager/worker_function.hpp:136-149 | on every page, however they are scheduled, the statements there are take at most (slots + 1) steps each; and when none can move all are over, under the same condition as above |
| `LockRuns.OneScanAtATime` | src/transaction_manager/lock_manager.hpp:23-26 | while active statements have different numbers, at most one scan has got past the first row, whatever names the slots have |
| `LockRuns.HoldTogetherIff` | src/transaction_manager/lock_manager.hpp:23-26 | two statements ever hold a row together if and only if their draws are a multiple of 256 apart |
| `LockRuns.NeighboursApart` | src/transaction_manager/lock_manager.hpp:23-26 | in no run do two statements fewer than 256 draws apart have the same number or hold the same row |
| `LockRuns.OwnerStays` | src/transaction_manager/lock_manager.cpp:27-44 | a row changes hands only when its owner releases |
| `LockRuns.PackedDifferent` | src/storage_manager/headers/types.hpp:92-99 | the rows of a packed page differ in page or offset, which is all the lock tables compare; so no scans of it ever deadlock |
| `Pipelines.SelectPlan` | src/query_manager/planner.cpp:10-64 | terminates, reads page 0 only, answers with the asked columns of its matching live rows in slot order, asks for every live row's lock in slot order, reports the operation incomplete in every case, and leaves one pin for every deleted slot |
| `Pipelines.SelectOverPacked` | src/query_manager/planner.cpp:42-63 | over a page the heap writer filled the answer is the comprehension over its rows, each once and in order, and no pin is left |
| `SelectMeaning.SelectMeans` | src/query_manager/planner.cpp:10-64 | what those rows are, value by value: one for each live slot whose value in the named column stands to the constant as the operator says - an integer equal, or larger or smaller by some number, a string equal, before or after in byte order - in slot order, each with the values of the asked columns in the order asked |
| `SelectMeaning.LiveSlots` | src/storage_manager/access_methods.cpp:17-84 | the scan reads exactly the slots that are not deleted, in slot order, and asks for the locks of the same |
| `SelectMeaning.MatchesIff` | src/query_manager/headers/planner.hpp:98-116 | each of the five comparisons says that of two values of one type |
| `SelectMeaning.FirstByteDecides` | src/query_manager/headers/planner.hpp:98-116 | of two strings a proper beginning of the other comes first, and else the one with the smaller byte where they first differ |
| `SelectMeaning.PrecedesTotal` | src/query_manager/headers/planner.hpp:98-116 | of two different strings exactly one comes before the other |
| `SelectMeaning.PrecedesTransitive` | src/query_manager/headers/planner.hpp:98-116 | and the order carries on from one to the next |
| `SelectMeaning.KindsCompare` | src/storage_manager/headers/types.hpp:169-172 | values of different types compare by type: strings, integers, floats |
| `Pipelines.HeapScan.Scan` | src/storage_manager/access_methods.cpp:17-84 | one call returns the first live row left or the end of the page, and leaves a pin for every slot it skips |
| `Pipelines.HeapScan.ReadRow` | src/storage_manager/access_methods.cpp:45-63 | the loop over the columns is the row's decoding |
| `Pipelines.Filter.Pull` | src/query_manager/headers/planner.hpp:139-153 | one call returns the first row left that matches, or the end |
| `Pipelines.Projection.Init` | src/query_manager/headers/planner.hpp:170-175 | the index list is the positions of the asked names, name after name |
| `Pipelines.Projection.Pull` | src/query_manager/headers/planner.hpp:177-187 | one call returns the asked columns of the next matching row, or the end |
| `Pipelines.InitFilter` | src/query_manager/headers/planner.hpp:122-137 | finds the first column of the name, or none |
| `SelectSpec.IndicesAre` | src/query_manager/headers/planner.hpp:170-175 | with distinct column names each asked name gives one position, in the order asked |
| `SelectSpec.PackedScans` | src/storage_manager/access_methods.cpp:17-84 | a packed page scans as its rows, none deleted, named in slot order |
| `Lexers.WhitespaceSplit` | src/query_manager/lexer.cpp:15-69 | the loop over the text is the splitting function |
| `Lexers.LexesBackIff` | src/query_manager/lexer.cpp:15-69 | a list of tokens written out with spaces is read back if and only if every token is a word or a table operator, classified as the table says |
| `Lexers.SplitShaped` | src/query_manager/lexer.cpp:15-69 | whatever the text, the lexer produces only words and operators |
| `Lexers.SplitKeepsText` | src/query_manager/lexer.cpp:15-69 | whatever the text, its tokens joined are the text without its spaces and quotes |
| `Lexers.RunBetween` | src/query_manager/headers/types.hpp:21-25 | a run of separators between two words, without any space, is one operator if it is one of the eleven of the table and else one for each character; the word before it is always a name, the one after it a clause if it is one of the nine |
| `Parsers.GrammarCheck` | src/query_manager/parser.cpp:393-416 | the dispatch over the token stream is the grammar function |
| `Parsers.ParseTable` | src/query_manager/parser.cpp:326-347 | so is the head of CREATE TABLE, with each of its errors |
| `Parsers.ParseColumns` | src/query_manager/parser.cpp:349-390 | and the loop over its columns, which stops at the first closing parenthesis |
| `Parsers.TokenIterator.GetNext` | src/query_manager/parser.cpp:19-25 | hands out the tokens one by one and fails past the last |
| `Parsers.PrintsBackIff` | src/query_manager/parser.cpp:326-416 | lexing and parsing a CREATE TABLE printed with spaces, its types in capitals or in small letters, gives the same table if and only if it has a column and all names are words that are none of the lexer's own |
| `Parsers.CompactReadsBackIff` | src/query_manager/parser.cpp:326-416 | printed without spaces around its operators, and closed with a semicolon or not, it is read back if and only if it has a column, its columns' names are such words and its own name is any word |
| `Parsers.ParserStops` | src/query_manager/parser.cpp:326-416 | where the tokens of a table end too soon the parser runs out of tokens, and at the first one that cannot stand in its place it fails with the error of that place, whatever follows |
| `Parsers.SchemaReadsBackIff` | src/query_manager/parser.cpp:311-324 | a CREATE SCHEMA printed with spaces is read back if and only if its name is a word or an operator |
| `Catalogs.RoundTrip` | src/catalog_manager/schema_manager.cpp:47-126 | a catalog is read back as written, and two written one after the other as the two joined |
| `Catalogs.DecodesOn` | src/catalog_manager/schema_manager.cpp:47-126 | an encoded catalog followed by anything decodes to the catalog followed by what that decodes to |
| `Layouts.CatalogLies` | src/catalog_manager/schema_manager.cpp:95-126 | where each name, count, page id and type code of a catalog file lies, in lengths of 8 and 4 bytes, and that the codes are 0, 1 and 2 |
| `Catalogs.SchemaManager.Deserialize` | src/catalog_manager/schema_manager.cpp:47-94 | the nested loops over the file position are the decoding function |
| `Catalogs.SchemaManager.Serialize` | src/catalog_manager/schema_manager.cpp:96-126 | the nested loops append the encoding to the file |
| `Catalogs.ClosingDoubles` | src/catalog_manager/headers/schmea_manager.hpp:194-201 | as the file is appended to, closing an unchanged catalog stores it twice; it is stored as it is if and only if it is empty |
| `Catalogs.RunSessions` | src/catalog_manager/headers/schmea_manager.hpp:74-85 | so n sessions that change nothing store a catalog of 2^n copies |
| `Catalogs.SessionsDouble` | src/catalog_manager/headers/schmea_manager.hpp:74-85 | of exactly that length, with no schema that was not there |

## Left out

- Page bytes: frames and files hold typed pages (a node, or a heap page with its payload as bytes); only the log, the rows and the catalog are modelled as raw bytes. A page that fills the wrong type of file is ruled out by the types.
- IndexWriters.IndexWriter.Insert: asks for page ids below 2^31 for the pages it may fetch; past that the source cuts the file length to a negative id, and the fetch fails.
- IndexWriters.IndexWriter.FetchPage: asks for the same of its page.
- IndexWriters.IndexWriter.CreateRoot: asks for the same of the root's page.
- IndexSessions.InsertRun: asks for the same over the whole run, and for no pinned page at the start, as the promise it proves does.
- InsertEntry.Inserter.CreateEntry: stops before the index, as the source does for its one caller; where `use_index` is set the source also inserts the row there under the key 0, a run of one key (`EqualKeysAsWritten.OneKeyAnswers`).
- HeapPages.HeapPageBuffer.HeapWrite: asks for strings of at most 500 bytes; for longer ones the source computes a negative fill length and writes past the page.
- HeapPages.HeapPageBuffer.WriteValues: asks for the same.
- InsertEntry.Inserter.Place: asks for the same.
- InsertEntry.Inserter.WriteInto: asks for the same.
- HeapGrowth.FillHeap: asks for ten numbers left in the log, so that every row the page takes is logged; `Sessions.RunSession` has no such condition.
- Interleavings.StepKeeps: has one insert under way at a time; two at once in one page are the subject of `LogTails.InterleavedInsertsIff`.
- Wals.Wal.CommitTransaction: the 8 bytes of the log header are written in one step; a crash inside them is not modelled. The error when the log cannot be opened is not either.
- Sessions.Open: the daemon empties all four files when it starts and never calls the replay or the last write of the pool; the session model is of the library, not of that program.
- Pipelines.SelectPlan: table lookup, number parsing and the conversion of the constant are done before it; a column list shorter than the sizes, an operator outside the five and a live slot whose bytes do not decode as the table's types, such as a string that no zero byte ends, are ruled out by its precondition. Float comparison is a parameter.
- LockTables.LockManager.TryAcquire: is one look at the tables; the wait between looks is the transition system's scheduling.
- The moment between reading a row and locking it: a scan locks a row after it was read, and the step of the lock model is the lock.
- Parsers.GrammarCheck: gives one result for SELECT and for INSERT, whose statements are not parsed further.
- Catalogs.SchemaManager.Deserialize: asks for bytes that decode; the source does not notice when a file ends early.
- The queued reader/writer lock of the pool: it is unfinished, and its callers still use it as a mutex. Each pool operation is one step.
- Sockets, polling, framing, generated message code and the text interface: no logic of the engine.
- File handles, seeking and flushing, and their I/O errors: the disk is a page map with a log.
- Parsing of SELECT and INSERT, other DDL, `entity_find`, worker dispatch and shutdown: they would add easy members only.
- `delete_slot`: nothing calls it, and it marks row bytes instead of the slot.
