# Bolt, modelled and proved in Dafny

Bolt is a key/value store kept in one file: a copy-on-write B+tree with one writer and any number of
readers, each of which sees the version that was current when it began. This project models the code that
makes that work and proves what it is for:

- **The tree in a transaction.** `Buckets` has the nodes and the bucket as classes whose methods update
  `inodes`, `children`, `parent`, `nodes` and `freed` in place, over pages that do not change. `Levels`,
  `Tree`, `Arena` and `Steps` say which tree the nodes and pages stand for: a stack of levels, one node per
  page, with the separators that bound each node (the leftmost child inherits the bound of its parent).
  Rebalancing every node, in any order, keeps the entries, frees exactly the pages it takes out, and leaves no
  node too empty. Spilling writes every cached node to new pages, splitting as it goes up to new roots, keeps
  the entries, and writes to no page that is in use; `Accounts` says which pages it takes and frees.
- **Reading and changing.** `Cursors` is the cursor as an explicit stack; its walks agree with the sorted
  entries, empty leaves included. `Updates` and `Simulation` prove that puts, deletes and gets answer as a map
  does. `Transactions` puts the parts together: open, change, rebalance, spill, ready to be opened again.
- **Pages, versions and crashes.** `Freelists` is the freelist with its loops. `Protocol`, `Safety` and `Runs`
  are a state machine over begin, free, allocate, write, sync, publish, roll back, close and crash, with an
  invariant for every run; `Databases` is the code whose methods take those steps. `Overflows` builds the
  states in which a long freelist loses a page. `Checks` is the consistency check, as a walk over the pages.
- **Both together.** `Durability` follows the tree that a transaction leaves through the steps of its commit:
  after a stop at any point the file reads as the map from before or as the map with the transaction done.
- **Beside the tree.** `Splits`, `Codecs` and `Inlines` (pages as bytes), `Batches`, `Spaces` (how map and
  file grow) and `Compaction`.

Every lemma turns automatic induction off, so that its body is its proof. Predicates such as `InStep`,
`Runs.Sound`, `Bytes.IsRank` and `Codecs.ElementAt` are sealed behind a trigger so that the solver meets them
as single facts.

## Where the code departs from its comments

The code is followed; each departure is stated exactly.

- `freelist.read` takes one id too few once the count overflows (freelist.go:166-176): `Freelists.ReadBackIs`.
  What that costs a rollback is `Safety.RollbackRestores`. A step loses a page for good exactly under
  `Runs.Loses`: reopening a version that stores 0xFFFF ids or more, or rolling back on one whose largest id was
  free (`Runs.CoversKeeps`); over a run, exactly if some step did (`Runs.RunCovers`). It happens:
  `Overflows.OverflowLosesPage`, for every such length.
- `Bucket.Delete` looks at the bucket flag of whatever entry the cursor landed on (bucket.go:326-331):
  `Updates.DeleteAsMeant` says exactly when that differs from the comment, `Updates.DeleteRefusesMissingKey`
  is a bucket in which it does.
- `Last` and `Prev` do not skip empty leaves (cursor.go:55-68, 85-111): `Cursors.Cursor.BackwardScan` says what
  they yield, and that it is everything exactly if no entry comes before an empty leaf.
  `Updates.LastAfterDelete` is the general way to get there, `Updates.LastMissesEntry` a bucket on pages.
- The second result of `splitIndex` counts one element too many when its loop falls through
  (node.go:319-334): `Splits.SplitIndex`.
- `sizeLessThan` answers yes for a node without entries whatever the bound (node.go:52-62):
  `Splits.SizeLessThan`.
- `Commit` compares the high-water mark with its value after the spill (tx.go:169-194), so when only the tree
  took pages `grow` is not called and `filesz`, which starts at 0, stays behind. The file itself does not:
  `writeAt` extends it. `Spaces.Space.Commit` has both, exactly; `Spaces.TreeAloneIsNotRecorded` is the case.

## Model

| member | source | states |
|---|---|---|
| Bytes.Compare | node.go:592 | -1, 0 or 1 as the first key is before, equal to or after the second, in a total order |
| Bytes.LtIs | node.go:592 | a key is before another exactly if it is a proper prefix of it, or less at the first byte that differs |
| Pgids.MergePgids | page.go:180-218 | two ascending lists fill the buffer with an ascending list holding both, each element as often as in both; nothing else in the buffer changes |
| Pgids.Merge | page.go:165-176 | the merged list of two ascending lists, with the elements of both |
| Pgids.Advance | page.go:200-213 | each round of the swap loop copies at least one element, so the loop ends |
| Freelists.Freelist.Size | freelist.go:26-33 | the bytes the list takes on a page, with the extra slot when its count overflows |
| Freelists.Freelist.Copyall | freelist.go:56-63 | all free and pending ids, ascending, each once |
| Freelists.Freelist.Allocate | freelist.go:67-107 | the start of the lowest run of n free ids, and exactly that run leaves the list; 0 exactly when there is no such run |
| Freelists.LowestRun | freelist.go:73-91 | the first streak of n ids that the scan meets is the lowest run of n ids |
| Freelists.Freelist.Free | freelist.go:111-129 | the page and its overflow pages become pending for the transaction; ids stay apart and the cache is their union |
| Freelists.Freelist.Release | freelist.go:132-144 | the pending ids of all transactions up to the given one become free, and no others |
| Freelists.Freelist.Rollback | freelist.go:147-155 | the pending ids of one transaction are forgotten and leave the cache |
| Freelists.Freelist.Read | freelist.go:163-186 | the ids read are those stored, in any order, or all but the last when the count overflows; they end up sorted |
| Freelists.Freelist.Write | freelist.go:191-212 | the page holds the sorted union of free and pending ids |
| Freelists.ReadBackIs | freelist.go:166-176 | reading gives back what was written exactly below 0xFFFF ids; from there on exactly the largest id is lost |
| Freelists.Freelist.Reload | freelist.go:215-239 | the free ids are those read without those that are pending, sorted; distinct ids above the meta pages give a valid freelist |
| Freelists.Freelist.Reindex | freelist.go:242-252 | the cache becomes the union of free and pending ids |
| Safety.BeginReadKeeps | db.go:570-615 | beginning a reader keeps the invariant; it pins the version that a crash would reopen, or the one just written |
| Safety.MinIdIs | db.go:647-654 | the least transaction id among the readers, or the greatest 64-bit number if none is less |
| Safety.BeginWriteKeeps | db.go:618-663 | beginning a writer, with the release below the oldest reader, keeps the invariant |
| Safety.BeginWriteReleases | db.go:647-660 | when a writer begins, exactly the lists that every open reader began after leave the pending lists, and their pages are free; with no reader, all of them |
| Safety.CloseReaderKeeps | db.go:667-697 | closing a reader keeps the invariant |
| Safety.FreePageKeeps | node.go:554-559 | freeing a page of the tree keeps the invariant: it waits as pending |
| Safety.AllocatePageKeeps | tx.go:457-471 | allocating a run of pages for a node keeps the invariant |
| Safety.BuildListKeeps | tx.go:169-186 | replacing the freelist page at commit keeps the invariant |
| Safety.WritePageKeeps | tx.go:474-544 | writing a dirty page keeps the invariant: it is in no version that anyone can see |
| Safety.SyncPagesKeeps | tx.go:513-518 | syncing the pages keeps the invariant |
| Safety.WriteMetaKeeps | tx.go:547-567 | writing the meta page to slot txid % 2 keeps the invariant |
| Safety.SyncMetaKeeps | tx.go:555-560 | syncing the meta page makes the new version the durable one |
| Safety.RollbackKeeps | tx.go:249-258 | rolling back keeps the invariant |
| Safety.RollbackRestores | tx.go:249-258 | after a rollback free and pending ids are as they were when the writer began, except exactly when the stored list overflows its count and its largest id was free |
| Safety.NeverHandedOut | freelist.go:67-144 | the allocator hands out no page of the committed version or of a reader's |
| Safety.CrashAtomic | tx.go:144-236 | after a stop at any point, with any unsynced writes lost and a torn meta page, the database opens in the old or the new version, every page of which is intact |
| Runs.ApplyKeeps | tx.go:144-258 | every step that the code allows keeps the invariant |
| Runs.AlwaysDefined | db.go:963-984 | in every state the meta page and the freelist that a step reads can be read |
| Runs.RunSafe | db.go:570-697 | the invariant holds at every point of every run of readers, writers and crashes |
| Runs.SnapshotStable | tx.go:44-62 | as long as a reader stays open it sees the same pages with the same contents |
| Runs.RunNeverHandsOut | freelist.go:65-155 | in every run, the writer is given no page, for a node or for its freelist, that any open reader or the durable version can see |
| Runs.CoversKeeps | freelist.go:111-186 | from a state in which every page below the mark is in use, free or pending, a step leads to one such exactly unless it reopens a version that stores 0xFFFF ids or more, or rolls back on one whose largest id was free |
| Runs.RunCovers | db.go:987-1016 | at any point of any run, every page below the mark is in use, free or pending exactly if no step before it was one of those; a lost page never comes back |
| Overflows.RestingLoses | freelist.go:166-176 | between transactions, with all stored ids free and at least 0xFFFF of them, beginning a writer and rolling it back loses the largest |
| Overflows.OverflowLosesPage | freelist.go:166-176 | for every length from 0xFFFF on there is a state of the protocol with a list that long, no page lost, that loses one by a rollback |
| Checks.Check | tx.go:383-416 | the check reports nothing exactly if the visited pages are apart, in bounds, not free and branches or leaves, no id is free twice, and with the meta, freelist and free pages they are all pages below the mark; else it reports exactly the problems there are, each of its kind and page |
| Checks.CheckBucket | tx.go:418-454 | the visits to the pages of a bucket, and then of the buckets in it, give no report exactly if each is right and none overlaps another or what came before |
| Checks.CheckPage | tx.go:424-442 | what is reported of a page: out of bounds, each of its pages met before, free, or of no valid type; all of its pages count as met |
| Checks.ForEachPage | tx.go:583-599 | the same for a page and, if it is a branch, everything its entries lead to |
| Checks.TwiceReported | tx.go:427-434 | a page that is reached twice is always reported |
| Checks.CheckClean | tx.go:383-416 | in any state before a meta page is written, checking the tree about to be published reports nothing exactly if every page is in use, free or pending |
| Checks.CommitChecks | tx.go:383-454 | a commit checks out exactly if the state it started from had lost no page |
| Checks.RunChecks | tx.go:383-454 | in any run, a commit checks out exactly if no step before lost a page |
| Databases.DB.Open | db.go:963-984 | opening after a crash reads the meta page with the higher valid transaction id and its freelist, and is the reopening step of the protocol |
| Databases.DB.Meta | db.go:963-984 | of the valid meta pages the one with the higher transaction id |
| Databases.DB.BeginTx | db.go:570-615 | the reader-begin step; an error, and nothing else, exactly if the database is not open |
| Databases.DB.RemoveTx | db.go:667-697 | the reader-close step: exactly that transaction goes, and the last takes its place |
| Databases.DB.MinTxid | db.go:647-654 | the least transaction id among the open readers, or the greatest 64-bit number if none is less |
| Databases.DB.BeginRWTx | db.go:618-663 | the writer-begin step: exactly the pending lists that no open reader can see become free ids, the others stay as they are; the errors for a read-only and a closed database, in that order, change nothing |
| Databases.DB.FreeNode | node.go:554-559 | the free step for a page with its overflow |
| Databases.DB.AllocateNode | db.go:987-1016 | the allocate step: the lowest run of free pages that is long enough or, exactly if there is none, new pages at the high-water mark |
| Databases.DB.StartCommit | tx.go:167-186 | the list step: the old freelist page is freed before its size is taken, size / pageSize + 1 pages are reserved for it, and the new list fits them |
| Databases.DB.NewList | tx.go:174-186 | the list written fits the pages that were reserved before they were allocated |
| Databases.DB.Write | tx.go:474-544 | all dirty pages reach the file and are synced |
| Databases.DB.WriteMeta | tx.go:547-567 | the publish step |
| Databases.DB.FinishCommit | tx.go:547-567 | the step that makes the new version durable and ends the writer |
| Databases.DB.Rollback | tx.go:249-258 | the abort step: the lists are rolled back and reloaded from the durable freelist page |
| Tree.DropLeafWF | node.go:469-477 | taking an emptied leaf and its entry out of a tree keeps it in order, and its contents |
| Tree.JoinNodesWF | node.go:479-505 | moving a node's entries into its left sibling keeps the tree in order, and its contents |
| Tree.CollapsedWF | node.go:430-452 | a root that takes over its only child keeps the tree in order, and its contents |
| Tree.SpliceNodeWF | node.go:339-405 | replacing a node by its pieces, and its entry by theirs, keeps the tree in order, and its contents |
| Tree.SetLeafWF | node.go:116-158 | other entries within the bounds of a leaf keep the tree in order |
| Buckets.NodeSize | node.go:40-47 | the bytes of the node on a page: 16 for the header, 16 for each element, and its keys and values |
| Buckets.LowerBound | cursor.go:318-337 | the first entry not before the key, by binary search |
| Buckets.Node.Put | node.go:116-141 | an entry under the old key is replaced, else one is inserted in its place; it panics exactly for a page at or above the high-water mark or an empty key |
| Buckets.Node.Del | node.go:144-158 | the entry under the key goes, and the node is marked; a missing key changes nothing |
| Buckets.Node.RemoveChild | node.go:512-519 | the first occurrence of the child goes |
| Buckets.Bucket.Open | bucket.go:130-156 | a bucket of pages only, with nothing cached and nothing freed |
| Buckets.Bucket.ChildAt | node.go:73-78 | the node of an entry, read from its page when it is not cached; the tree stays the same |
| Buckets.Bucket.RootNode | bucket.go:643-673 | the root as a node; the tree stays the same |
| Buckets.Bucket.Merge | node.go:479-505 | the right sibling's entries and cached children move to the left one; it leaves its parent, the cache and the tree |
| Buckets.Bucket.Sibling | node.go:464-468 | the right sibling exactly for a first child, else the left one |
| Buckets.Bucket.CollapseRoot | node.go:430-452 | the root takes over its only child, whose page is freed; the tree keeps its contents |
| Buckets.Bucket.Rebalance | node.go:409-508 | terminates; a marked node of a quarter page or less, or with too few entries, goes or takes in its neighbour, whose page is freed, and a root branch with one entry collapses; for any other node nothing happens but that the mark goes; contents and pages are kept, and every node is as full as it must be if all others were |
| Buckets.Bucket.RebalanceAll | bucket.go:632-640 | visiting all nodes in any order keeps the entries, loses no page, leaves no empty leaf but the root and no branch with fewer than two entries; of every marked leaf of a quarter page or less, or with one entry or none, and its right neighbour one page is freed; the assertion on the number of children always holds |
| Steps.DropStep | node.go:469-477 | what removing an empty leaf keeps, which node may be too empty next, and that every other leaf keeps its entries, its right neighbour and its mark, or loses that neighbour |
| Steps.JoinStep | node.go:479-505 | the same for merging siblings |
| Steps.CollapseStep | node.go:430-452 | the same for a root that collapses |
| Steps.ParentWide | node.go:479 | the parent of a node to be merged has another child |
| Steps.EntryIndex | node.go:81-84 | the key of a cached node finds its own entry in its parent |
| Steps.HealthyUnmarked | node.go:409-413 | without marked nodes the tree is balanced |
| Arena.JoinTied | node.go:479-505 | after a merge, nodes and pages make up the merged tree, and every parent and child link is right |
| Arena.DropTied | node.go:469-477 | the same after an empty leaf is removed |
| Arena.CollapseTied | node.go:430-452 | the same after the root collapses |
| Arena.MaterialiseTied | bucket.go:643-673 | reading a page into a node changes nothing about the tree |
| Paths.Descend | cursor.go:274-315 | the child that a search descends to is the one that bounds the key |
| Paths.LeafSearch | cursor.go:318-337 | searching the leaf that a key belongs to is searching all entries |
| Cursors.BranchIndex | cursor.go:274-315 | the child a search goes to; the flag set inside the binary search is true exactly when the found entry has the key |
| Cursors.Cursor.First | cursor.go:31-50 | the first entry of the bucket, past empty leaves |
| Cursors.Cursor.Advance | cursor.go:218-250 | the entry after the current one, past empty leaves; it terminates, and at the end stays where it is |
| Cursors.Cursor.Next | cursor.go:73-80 | the next entry, each once, then none for ever |
| Cursors.Cursor.Last | cursor.go:55-68 | the last entry of the last leaf, or none if that is empty |
| Cursors.Cursor.Prev | cursor.go:85-111 | the entry before the current one, or none if the leaf before is empty or there is none; past the beginning it stays at none |
| Cursors.Cursor.BackwardScan | cursor.go:55-111 | Last and then Prev yields the reverse of the entries that come after the last empty leaf, which is all of them exactly if no entry comes before an empty leaf |
| Cursors.BackwardComplete | cursor.go:85-111 | nothing is skipped exactly if every leaf before an empty leaf is empty |
| Cursors.Cursor.Search | cursor.go:253-272 | the stack leads to the leaf that the key belongs to |
| Cursors.Cursor.SeekLeaf | cursor.go:154-169 | the place of the key in its leaf |
| Cursors.Cursor.Seek | cursor.go:117-131 | the least entry at or after the key, or none |
| Cursors.Cursor.Node | cursor.go:358-377 | the leaf under the cursor as a node of the bucket; the tree stays the same |
| Updates.Get | bucket.go:266-279 | the value under the key; none for a missing key or a nested bucket |
| Updates.Put | bucket.go:285-312 | each error in its order, closed and read-only transactions included, else exactly the entry under the key is set |
| Updates.Delete | bucket.go:317-337 | the errors for closed and read-only transactions; else exactly the entry under the key goes, from its leaf, unless the entry at its place there is a nested bucket |
| Updates.DeleteAsMeant | bucket.go:315-331 | Delete fails exactly for a nested bucket under the key, if and only if the first entry at or after the key in its leaf is not a nested bucket under another key |
| Updates.DeleteRefusesMissingKey | bucket.go:326-331 | a bucket on a page in which deleting a missing key fails |
| Updates.ForEach | bucket.go:384-395 | the function is called with exactly the entries in order, or with those up to the first call that fails; the error for a closed transaction |
| Updates.LastAfterDelete | cursor.go:55-68 | in any bucket, once the only key of the last leaf is deleted Last finds nothing |
| Updates.LastMissesEntry | cursor.go:55-68 | a bucket on pages in which First then finds an entry and Last does not |
| Simulation.PutMap | simulation_test.go:229-254 | setting an entry is updating the map |
| Simulation.DelMap | bucket.go:317-337 | deleting an entry is removing the key from the map |
| Simulation.PerformAll | simulation_test.go:195-254 | any sequence of puts, deletes and gets answers as a map would and leaves what the map holds |
| Splits.SizeLessThan | node.go:52-62 | whether the node is smaller than the bound, and yes for a node without entries |
| Splits.SplitIndex | node.go:315-335 | after two entries at least, before the entry that would take the page over the threshold, leaving three at least; the second result as the code leaves it |
| Splits.SplitTwo | node.go:273-310 | the entries whole if they are four at most or less than a page; else cut where the first page is filled to its share |
| Splits.Split | node.go:250-269 | the pieces are cut off the front one by one, each where the next entry would take it over the fill percentage of a page, until the rest is four entries at most or less than a page |
| Splits.SplitFacts | node.go:250-310 | the pieces are the entries in order; of several each has two or more, any but the last is within the fill percentage unless it has only two, and each goes on a page unless it has four at most |
| Splits.Threshold | node.go:281-288 | the fill percentage of the page size in whole bytes: exactly that for a tenth to all of it, a tenth below and all of it above |
| Spills.SpliceTied | node.go:367-394 | after a node's pieces are on pages and its parent's entries follow, nodes and pages make up the same contents |
| Spills.SplitRootTied | node.go:298-304 | the same when the root is split below a new root |
| Spills.RenameTied | node.go:350-380 | the same when the root is written whole |
| Commits.PutPiece | node.go:383-390 | putting the entry of each piece in turn into the parent replaces the old entry by those of the pieces |
| Commits.Spiller.WriteNode | node.go:369-382 | the node is on a new page; exactly size / pageSize + 1 pages are taken, and hold it |
| Commits.Spiller.WritePieces | node.go:361-394 | all pieces are on new pages, exactly the pages they take are taken, the old page is freed, and the entries of the parent follow |
| Commits.Spiller.SpillChildren | node.go:347-353 | the loop over the children terminates, in any order; no child stays cached |
| Commits.Spiller.SpillNode | node.go:339-394 | a node and all below it go to pages; exactly their old pages are freed |
| Commits.Spiller.SpillSelf | node.go:355-394 | the node is split to the fill percentage of the bucket and exactly those pieces are written |
| Commits.Spiller.SpillTop | node.go:339-405 | the root is split to the fill percentage and written, through as many new roots as it takes |
| Commits.FewerHeads | node.go:396-402 | each new root has at most half as many entries, so the cascade ends |
| Commits.Spiller.Spill | bucket.go:526-582 | everything cached goes to pages: the entries stay, the tree stays balanced, exactly the pages of the cached nodes are freed, every page taken belongs to a node written, which fits a page unless it has four entries at most, and no page in use is written to |
| Accounts.MovedTwice | node.go:339-405 | what holds of the pages in two parts of spilling holds of both together: what the tree lost, what was freed, and that no page was taken for nothing |
| Commits.AllOnPages | node.go:383-390 | once all is on pages, the key of every entry of a branch is the first key of its child |
| Transactions.SettledTight | bucket.go:643-673 | a tree as commit leaves it is one that puts and deletes may start from |
| Transactions.Run | tx.go:144-167 | a whole transaction: the reads answer as a map, and the new tree on pages holds what the map holds and can be opened again; exactly the pages of the old tree that the new one does not have are freed, and every page taken belongs to a node of the new tree |
| Durability.FreeSeen | node.go:554-559 | freeing a page takes exactly that node out of the writer's tree |
| Durability.AllocateSeen | tx.go:457-471 | allocating for a node adds exactly that node, whichever run of pages the freelist gives |
| Durability.SyncSeen | tx.go:513-518 | syncing the dirty pages does not change the writer's tree |
| Durability.PublishSeen | tx.go:547-567 | the version that is published holds the writer's tree |
| Durability.RunsFollow | freelist.go:111-129 | if each head page of a tree is kept or freed, never both, so is each of its pages with their overflow |
| Durability.CommitRun | tx.go:144-236 | from the start of a commit to its meta page, the durable version stays the old tree and the writer's stays the new one, whatever readers do |
| Durability.CrashReads | db.go:963-984 | after a stop, what the newer valid meta page leads to is the old tree or, if the meta page was being written, the new one |
| Durability.TransactionDurable | tx.go:144-236 | a transaction and a stop at any point of its commit: the file reads as the map from before, or as the map with all operations done |
| Durability.FinishKeeps | tx.go:547-567 | once the meta page is synced, the new tree is the durable one |
| Codecs.Write | node.go:191-246 | every element, key and value at its place; nothing from size() on is touched; it panics exactly for 0xFFFF entries or more, an empty key or a branch that points to itself |
| Codecs.NumIs | page.go:43-49 | numbers are stored with their least significant byte first, cut to the width of the field |
| Codecs.HeaderFormat | node.go:191-205 | of a page that was written, bytes 10 and 11 count the entries, and bytes 8 and 9 have the flag 2 of a leaf or 1 of a branch added |
| Codecs.Format | page.go:115-148 | entry by entry, byte by byte: the four-byte and eight-byte fields of its element, and its key and value after all elements and what comes before |
| Codecs.Read | node.go:161-188 | the entries that the elements point to, and the first key |
| Codecs.EntryBack | page.go:114-148 | an entry that was written is read back |
| Codecs.NodeBack | node.go:161-246 | a node that was written is read back, below 0xFFFF entries and 32-bit offsets |
| Codecs.WriteRead | node.go:367-382 | a node takes size / pageSize + 1 fresh pages; writing it to them and reading gives it back |
| Inlines.Inlineable | bucket.go:586-608 | exactly a single leaf without nested buckets of at most a quarter page |
| Inlines.SmallFew | bucket.go:586-613 | such a bucket never has too many entries for a page count, or too large a value |
| Inlines.WriteBucket | bucket.go:616-630 | the header and the root node as a value |
| Inlines.KeptBack | bucket.go:130-156 | the header and the entries come back when it is opened |
| Inlines.InlineBack | bucket.go:526-540 | a bucket kept inline and opened again has its sequence number and its pairs |
| Batches.Store.Update | db.go:709-739 | the error of the beginning, of the first function that fails, which is named, or of the commit; all functions ran and are durable if there is none, else none is |
| Batches.Batch.Run | db.go:858-900 | terminates after a transaction for each call taken out and one for the rest; every call receives exactly one reply; those not told to try alone receive the result of the last transaction, in which exactly they ran without failing, unless it could not begin |
| Batches.Batcher.Submit | db.go:808-826 | the call joins the open batch, or a new one when that is full; no batch exceeds its maximum |
| Batches.Batcher.Trigger | db.go:851-853 | a batch runs once, every call is answered as a transaction went, and no call joins it afterwards |
| Batches.Outcome | db.go:828-832 | a call that is told to try alone runs in its own transaction, and the result is that of it; any other result is passed on |
| Batches.AmongAll | db.go:880-886 | swapping out the calls that fail keeps exactly the others, whatever their order |
| Batches.Settle | db.go:808-900 | each function is durable exactly once if its submitter sees success, and not at all if it sees an error; every error is that of a transaction it ran in, so if all transactions begin and commit a function that never fails succeeds |
| Spaces.MmapSize | db.go:385-421 | the least power of two from 32 KB to 1 GB, then the next multiple of 1 GB and of the page size, capped; at least the request; an error exactly above the maximum |
| Spaces.Space.Mmap | db.go:307-347 | the size for the request or the file is mapped, whichever is more; it fails exactly for a file below two pages, a size above the maximum, or a failing system call or meta page |
| Spaces.Space.Extend | db.go:1004-1013 | when the mark moves, the page it moves to is mapped whole; it does not move exactly if the map must grow and cannot |
| Spaces.Space.Grow | db.go:1019-1048 | the size recorded covers the request if that much is mapped, also on the branch that ignores it; truncating cuts off nothing asked for |
| Spaces.Space.GrowAtCommit | tx.go:188-194 | if pages for the freelist moved the mark, the size recorded covers all pages below it; else nothing happens |
| Spaces.Space.WritePages | tx.go:474-544 | after the dirty pages are written the file holds them all |
| Spaces.Space.Commit | tx.go:169-236 | after a commit the file holds every page used before and every page written; the size recorded covers the mark exactly if the freelist moved the mark or the size did before |
| Spaces.TreeAloneIsNotRecorded | tx.go:169-194 | on every database just opened, a commit whose freelist fits free pages leaves the recorded size at 0, while the file holds all pages |
| Compaction.Destination.Found | cmd/bolt/main.go:1628-1681 | one entry is added at its path; before it a commit, exactly if the transaction would become larger than the limit and there is one |
| Compaction.Destination.WalkBucket | cmd/bolt/main.go:1702-1722 | an item and all below it are added at the path |
| Compaction.WithWithin | cmd/bolt/main.go:1656-1662 | adding below a bucket that was just added is adding the larger bucket |
| Compaction.Destination.Compact | cmd/bolt/main.go:1619-1688 | whatever the size limit, the copy has every key, value, nested bucket and sequence number, if every transaction can begin and commit, and it succeeds exactly then |
| Compaction.CopiedHas | cmd/bolt/main.go:1714-1722 | every item of a bucket is in its copy |
| Compaction.CopiedIs | cmd/bolt/main.go:1652-1722 | a copy has the sequence number of the bucket, its keys and no others, its values, and copies of the buckets nested in it |

## Left out

- Commits.Spiller.WritePieces: adds only the head page of the old node to the freed pages; freelist.go:111-129
  frees its overflow pages too. `Durability.RunsFollow` says that they follow; `Databases.DB.FreeNode` frees them.
- Commits.Spiller.Spill: leaves out buckets nested in the bucket (bucket.go:526-570: the update of a child's
  header in its parent, and `free` of a bucket that becomes inline), and counts freed pages by head page.
- Buckets.Bucket.RebalanceAll: leaves out the loop over nested buckets (bucket.go:637-639), and counts freed
  pages by head page.
- Transactions.Run: takes a bucket without nested buckets, and gives a node any run of pages not in use;
  `Durability` ties that to what the freelist gives, step by step.
- Commits.Spiller: spills nodes as values named by the page they came from, not as linked objects, so aliasing
  between nodes during the spill is not captured; rebalancing, reading and changing are on objects. The new
  root that a split makes is never in the map of cached nodes, as in the original.
- Commits.Spiller.SpillChildren: the order of the children is left open instead of sorted; the result is proved
  for every order.
- Simulation.PerformAll: takes buckets without nested ones; `Updates` takes any.
- Checks.ForEachPage: the pages below a page are given as what following the entries finds, the same page
  several times if it is reached several times; a branch that leads back to itself, on which the original does
  not return, has no such finite description.
- Databases.DB: page contents are opaque blocks, and the overflow of a page is passed in where the original
  reads it from the page header. A reader is one step, not a walk over pages. Waiting for a lock is not modelled.
- Durability.TransactionDurable: what the bytes of a page decode to is a parameter; `Codecs` proves for the
  bytes of a node that reading undoes writing.
- `CreateBucket`, `NextSequence` and recursive `DeleteBucket`, apart from what `Compaction` needs of them.
- Cursor.Delete and changing a bucket while a cursor walks it.
- `node.dereference`, the page pool, and endianness: numbers on pages are stored least significant byte first.
- Byte contents of a page are tied to entries by `Codecs`; the tree itself is over entries, and the searches
  in `Cursors` read them instead of page elements.
- 64-bit wrap-around of transaction ids, page ids and file sizes. Fields of elements are cut to their width in
  `Codecs`.
- mmap, munmap, file locks, fdatasync and the checksum: the disk is a map from pages to blocks with an explicit
  sync, and a torn meta page is one that is not valid. `NoSync` and a failing meta sync are not modelled.
- Sorting of id lists in `freelist.release`, `read` and `copyall` is a function with the result that a sort has.
- Goroutines, timers and locks: `Batches` and `Runs` take atomic steps.
- Statistics, `Info`, `WriteTo`, `CopyFile`, the rest of the command line tool.
