# Verified model of the database engine's data structures and log

The repository implements an in-memory key-value engine with balanced trees
and skip lists, a write-ahead log, the beginnings of an LSM store and a command
parser.  This project models the parts whose correctness is hardest to see and
proves what they promise.

Trees are classes of nodes whose fields are rewritten in place.  Beside the
pointers runs a ghost tree that names the node at every place; one recursive
predicate (`Rep`) says that the pointers are exactly that tree, parent links
included, and a context with a hole (`Cut`) lets an operation work deep inside
while the rest is untouched.  Each pointer operation is proved to produce the
nodes of a pure operation on the ghost tree, and the laws of order, shape and
keys are proved about the pure operation.  A skip list has a ghost grid in the
same role: its levels as sequences of nodes.

* `SortedEntries`, `Sides`, `Options`: entries in order and the maps they stand
  for, the sides of a binary tree, a value or none.
* `BTreeShape`, `BTreeSteps`, `BTreeEntries`, `BTreeHeap`, `BTreeRebalance`,
  `BTreeDelete`, `BTreeModel`, `BTreeSize`: the B-tree with insertion,
  deletion and range traversal, for every order of at least 3.
* `BPlusRows`, `BPlusSteps`, `BPlusHeap`, `BPlusSearch`, `BPlusSplits`,
  `BPlusWaits`, `BPlusTreeModel`, `BPlusRange`: the B+ tree with insertion and range lookup,
  for every order of at least 2, as rows of nodes over rows of nodes.
* `AvlShape`, `AvlInsert`, `AvlTreeModel`, `AvlRange`: the AVL tree with
  insertion, successor and range traversal.
* `RBShape`, `RBJoin`, `RBInsert`, `RedBlackTreeModel`: red-black join, split,
  union and insertion.  Roots may be red, as the program's own validator
  allows.
* `SkipKeys`, `SkipNodes`, `SkipCuts`, `SkipRanks`, `SkipLists`: the skip list with its gap
  counts: search, insertion, deletion, search by rank and ranges.
* `SortedSets`: the sorted set, a hash of scores beside a skip list.
* `Octets`, `Crc`, `CrcVectors`, `WalCodec`, `WalLog`, `WalBytes`, `WalCrash`, `WalSteps`, `WalModel`,
  `WalRuns`, `WalRows`, `WalReaders`: the write-ahead log, from the checksum to whole runs
  with crashes, readers among writers, and the iterator.  A crash keeps of the
  newest file any prefix at least as long as its last fsync, or loses the file
  if nothing of it was synced, and may strike at every moment an operation
  passes through.  Whatever it leaves is opened again, also when it leaves too
  little.  The sync strategy is the default, `ALWAYS`.
* `BloomFilters`, `SsLayout`, `SsBytes`, `SsIndex`, `SsTables`: writing and
  reading the files of the LSM store.
* `Compaction`: grouping files of overlapping key ranges.
* `RespBytes`, `Resp`: the command parser and the array printer.

## What the proofs found

* The recursive red-black join, called on a red taller tree of the same black
  height as another red tree, leaves two red-red edges
  (`RBJoin.TwoRedEdges`, if and only if), so "at most one red-red edge" is not
  its contract.  The exact one is `RBJoin.Joined`; `JoinOP` never exposes the
  third red node.
* Red-black insertion of a key that is present puts the new leaf in place of
  the key's node and drops its subtrees, against the comment in the source.
  The result is a red-black tree with all keys if and only if the key was
  absent, or its node has no child and is red or the root
  (`RedBlackTree.Insertion`).
* AVL insertion of a present key does the same, and then counts a level that
  did not grow: the result has right factors and all keys if and only if the
  key was absent or the only one (`AvlTree.Insertion`).
* B+ tree insertion stores a key that is present a second time: the leaf chain
  is strictly ascending, and the tree a B+ tree, if and only if the key was
  absent (`BPlusTree.Insertion`).
* AVL range traversal with the lower key above the upper one steps off the last
  node (`AvlRange.InorderRangeTraversal`).
* Grouping overlapping files depends on how the sort orders equal range ends:
  the groups are the chains of overlaps if and only if no group closes between
  two equal ends (`Compaction.GroupsAreChains`).
* Range lookup in the B+ tree begins at the start of a leaf, so it may return
  keys below the lower bound, all from that leaf (`BPlusRange.RangeLookup`).
* Deleting from a skip list gives every left neighbour the gap of the deleted
  node without adding its own.  Exact gaps stay exact if and only if the left
  neighbours on the levels of the deleted tower that keep other nodes are
  adjacent on the bottom level (`SkipList.DeleteKey`; `SkipCuts.GapSpoiled` is
  the smallest case).  Ranks read from spoiled gaps are wrong from then on, or
  the walk leaves the list (`SkipRanks.RanksSpoiled`); search by rank is stated
  for any gaps, as the walk they lead to.
* Adding a member to a sorted set again with another score leaves its old pair
  in the index (`ZSet.ZsetAdd`, `SortedSets.StaysInStep`).
* After the last key of a skip list is deleted the list has no head; deleting
  again would follow a null pointer, which `SkipList.DeleteKey` excludes.
* A file of the LSM store is never finished by its first batch, however large:
  it stays open until a second one arrives (`SsTables.Store`).
* The second number behind the index of a file, named the start of its key
  offsets, is where they end (`SsIndex.Indexed`); so the reader of the index
  that the source begins would look for them behind them.
* The parser waits for ever for a bulk string whose negative length leads to
  before the buffer, and for nothing else (`Resp.WaitsEnd`).
* Pruning may leave only the segment that is being written, no byte of which
  was synced.  A crash can then erase every trace of the LSNs given out and
  numbering starts at 0 again (`WalRuns.LoseNumbering` shows how).
  `WalCrash.ErasedExactly` tells the erasing crashes and
  `WalCrash.AnchoredExactly` the directories on which none can strike.
* `durable_lsn` is 0 both when nothing and when LSN 0 is durable, so the
  promise is stated for values above 0.
* A log iterator that follows the tail from a pruned LSN never returns: the
  record stays missing while `next_lsn` is ahead of it
  (`WalReaders.WalIterator.Next`).  The default start, LSN 0, is such a
  position after the first prune (`WalReaders.FollowPruned`).
* A B-tree of order 2 would have a minimum of 0 keys per node; the proofs need
  order at least 3, and with it the branches of deletion for an empty child
  list in an inner node and for the successor are never taken.

## Model

| member | source | states |
|---|---|---|
| BTreeModel.BTree.Deletion | Data_structures/BTree.hpp:213-472 | from any valid tree of order >= 3: a valid tree whose map is the old map without the key, through leaf removal, predecessor replacement, borrowing, merging and the loss of the root |
| BTreeModel.BTree.Insertion | Data_structures/BTree.hpp:181-208 | a valid tree whose map is the old map with the key set to the value; a present key keeps its place and gets the new value |
| BTreeModel.BTree.RearrangeRootOnInsertion | Data_structures/BTree.hpp:61-174 | putting an entry with a right sibling into a node of a tree otherwise well formed gives back a valid tree with exactly that entry more, however far up it has to split |
| BTreeModel.BTree.SplitIfOverfull | Data_structures/BTree.hpp:98-173 | a node with one key too many is split and the tree above mended, entries unchanged |
| BTreeModel.BTree.GrowRoot | Data_structures/BTree.hpp:150-166 | a split root gets a new root over its halves: one level more, same entries, parent links set |
| BTreeModel.BTree.Rebalance | Data_structures/BTree.hpp:317-471 | the loop ends with a valid tree and the entries it began with, from a tree whose one defect is a node with a key too few |
| BTreeModel.BTree.Repair | Data_structures/BTree.hpp:321-471 | one turn of the loop: either the tree is valid again or the defect has moved to the parent, entries unchanged |
| BTreeModel.BTree.DropRoot | Data_structures/BTree.hpp:326-337 | a root without keys gives way to its only child, same entries, one level less |
| BTreeModel.BTree.DeleteFromInner | Data_structures/BTree.hpp:263-311 | an inner key is replaced by its predecessor, which is taken from its leaf; the map loses exactly the key |
| BTreeModel.BTree.DeleteFromLeaf | Data_structures/BTree.hpp:241-257 | the key is cut from its leaf, and the root emptied by that becomes the empty tree |
| BTreeModel.BTree.constructor | Data_structures/BTree.hpp:13-28 | a new tree is valid and holds nothing |
| BTreeModel.Search | Data_structures/BTree.hpp:34-54 | the node and position of a key that is in the tree; else no position and the leaf where it belongs, with every smaller key before that place and every greater one behind |
| BTreeModel.LowerBound | Data_structures/BTree.hpp:65-69 | the first position whose key is not less |
| BTreeSteps.FlatRotateRight | Data_structures/BTree.hpp:360-389 | borrowing from the left sibling leaves the in-order entries of the tree as they were |
| BTreeSteps.ShapeRotateRight | Data_structures/BTree.hpp:360-389 | after it both siblings have legal sizes and uniform height |
| BTreeSteps.FlatRotateLeft | Data_structures/BTree.hpp:395-423 | borrowing from the right sibling leaves the in-order entries as they were |
| BTreeSteps.ShapeRotateLeft | Data_structures/BTree.hpp:395-423 | after it both siblings have legal sizes and uniform height |
| BTreeSteps.FlatMerge | Data_structures/BTree.hpp:429-470 | merging two children around their separator leaves the in-order entries as they were |
| BTreeSteps.ShapeMerge | Data_structures/BTree.hpp:429-470 | a child with a key too few and a minimal sibling merge into a node of legal size, under a parent with one key less |
| BTreeSteps.FlatSplit | Data_structures/BTree.hpp:105-144 | the halves of a split node and its median hold exactly its entries in order |
| BTreeSteps.ShapeSplit | Data_structures/BTree.hpp:105-144 | both halves of a node with one key too many have legal sizes, for every order >= 3 |
| BTreeHeap.BorrowLeft | Data_structures/BTree.hpp:360-389 | the pointers after the borrow are exactly those of the rotated tree, parent links included, and nothing else changed |
| BTreeHeap.BorrowRight | Data_structures/BTree.hpp:395-423 | the same for the right sibling |
| BTreeHeap.MergeChildren | Data_structures/BTree.hpp:429-470 | the pointers after the merge are exactly those of the merged tree, every adopted child pointing to its new parent |
| BTreeHeap.SplitNode | Data_structures/BTree.hpp:105-144 | the pointers after the split are exactly those of the two halves |
| BTreeDelete.Rightmost | Data_structures/BTree.hpp:268-273 | the walk down the last children ends at the leaf that holds the predecessor |
| BTreeDelete.InnerEntries | Data_structures/BTree.hpp:263-286 | the entries after predecessor replacement are the old ones without the deleted key |
| SortedEntries.TakeOut | Data_structures/BTree.hpp:213-472 | leaving one entry out of a sorted sequence removes exactly its key from the map |
| SortedEntries.PutNew | Data_structures/BTree.hpp:181-208 | placing an entry between smaller and greater keys adds exactly that key to the map |
| BTreeSize.TreeSize | Data_structures/BTree.hpp:14-54 | a tree of h >= 1 levels and order >= 3 holds at least 2*((order+1)/2)^(h-1) - 1 keys, which bounds the depth of a search |
| BTreeSize.FlattenTree | Data_structures/BTree.hpp:481-495 | walking the pointers yields exactly the in-order entries |
| BTreeSize.InorderRangeTraversal | Data_structures/BTree.hpp:503-516 | exactly the entries whose keys lie between both bounds, in ascending order |
| BTreeSize.RangeMeaning | Data_structures/BTree.hpp:503-516 | an entry is in the filtered sequence if and only if it is in the tree and its key is within the bounds, and order is kept |
| RedBlackTreeModel.RedBlackTree.JoinOP | Data_structures/RedBlackTree.cpp:507-543 | for red-black trees l < k < r, red roots allowed: a tree without red-red edge and with equal black heights, keys l ++ [k] ++ r, black height max or max + 1, parent links exact |
| RedBlackTreeModel.RedBlackTree.SpineRBJoin | Data_structures/RedBlackTree.cpp:425-505 | the recursive join down either spine builds exactly the specified tree, whatever red-red edge it leaves at the top |
| RBJoin.JoinShape | Data_structures/RedBlackTree.cpp:425-505 | the exact shape the recursive join leaves: equal black heights, and a red-red edge only along its root and spine |
| RBJoin.KeysJoin | Data_structures/RedBlackTree.cpp:425-505 | the recursive join keeps the keys: first tree, key, second tree |
| RBJoin.RepairGood | Data_structures/RedBlackTree.cpp:452-461 | a black node over two red ones on its spine becomes a red-black tree of the same black height by one rotation |
| RBJoin.ToppedGood | Data_structures/RedBlackTree.cpp:508-525 | painting a red root over a red child black restores the red rule at the cost of one black level |
| RBJoin.EvenJoin | Data_structures/RedBlackTree.cpp:526-543 | trees of equal black height are joined under a new node, red unless a root is red |
| RBJoin.ThreeReds | Data_structures/RedBlackTree.cpp:425-462 | on any two red trees of equal height the helper leaves three reds in a row: the old root, the new node and the root of the other tree |
| RedBlackTreeModel.RedBlackTree.SplitOP | Data_structures/RedBlackTree.cpp:545-571 | two red-black trees with exactly the keys below k and above k |
| RedBlackTreeModel.RedBlackTree.UnionOP | Data_structures/RedBlackTree.cpp:573-594 | a red-black tree whose keys are exactly those of either argument, though both are taken apart on the way; ends because the nodes get fewer |
| RedBlackTreeModel.UnionJoins | Data_structures/RedBlackTree.cpp:573-594 | joining the unions of the parts below and above a key gives the union of the wholes |
| RedBlackTreeModel.RedBlackTree.SubtreeRotation | Data_structures/RedBlackTree.cpp:37-64 | a rotation turns the pointers into exactly those of the rotated tree and mends the links from above and below |
| RedBlackTreeModel.BlackHeight | Data_structures/RedBlackTree.cpp:413-423 | the loop down the right children counts the black height, one more than the black nodes on that path |
| RedBlackTreeModel.RedBlackTree.Insertion | Data_structures/RedBlackTree.cpp:87-180 | for every key: the result, parent links exact, is sorted and has the old keys without those below the key's node, and the key; it is a red-black tree with all old keys if and only if the key was absent or its node has no child and is red or the root |
| RedBlackTreeModel.RedBlackTree.Rebalance | Data_structures/RedBlackTree.cpp:106-180 | the loop, from any red node in any context, leaves exactly the tree that the recursion over recolourings and rotations describes |
| RBInsert.ColorShiftClimbs | Data_structures/RedBlackTree.cpp:160-172 | recolouring parent, uncle and grandparent moves the only red-red edge two levels up |
| RBInsert.SettledGood | Data_structures/RedBlackTree.cpp:127-158 | the rotation cases end the climb in a red-black tree |
| RBInsert.KeysSettled | Data_structures/RedBlackTree.cpp:127-158 | they keep the keys in order |
| RBInsert.BlackenedGood | Data_structures/RedBlackTree.cpp:115-122 | a red root as parent is painted black and the tree is red-black |
| RedBlackTreeModel.Search | Data_structures/RedBlackTree.cpp:76-85 | the node of a key, or the place under a node where it belongs |
| Crc.TableChecksum | v1/Wal.hpp:201-207 | the table-driven checksum equals the bit-serial CRC-32C of RFC 3720, section 12.1, on every byte sequence |
| Crc.MakeTable | v1/Wal.hpp:188-199 | entry i is the register i after eight shifts |
| Crc.FeedParts | v1/Wal.hpp:201-207 | one table step is eight single shifts |
| Crc.FeedAllIsSerial | v1/Wal.hpp:201-207 | feeding bytes is feeding their bits, least significant first |
| Crc.ShiftUnshift | v1/Wal.hpp:188-199 | the shift step can be undone, so it is a bijection |
| Crc.BurstDetected | v1/Wal.hpp:201-207 | two messages that differ only within four consecutive bytes have different checksums |
| WalCodec.AppendBytes | v1/Wal.hpp:209-214 | a number goes out as its n big-endian bytes |
| WalCodec.ReadBytes | v1/Wal.hpp:216-224 | n bytes are read back as the number they spell |
| WalCodec.ComputeByteFrame | v1/Wal.hpp:226-235 | header fields and payload laid out in order |
| WalCodec.DecodeFrame | v1/Wal.hpp:565-601 | a frame is returned if and only if the bytes at the offset are the encoding of a frame, and then that frame |
| WalCodec.FrameUnique | v1/Wal.hpp:565-601 | no two frames begin at one place |
| WalCodec.PrefixRefused | v1/Wal.hpp:565-601 | every strict prefix of an encoded frame is refused |
| WalCodec.AlteredRefused | v1/Wal.hpp:565-601 | a frame altered within four consecutive bytes, its length field and checksum spared, is refused whatever follows |
| WalLog.ScanCut | v1/Wal.hpp:470-517 | scanning any prefix of encoded frames finds exactly the complete ones |
| WalLog.HeaderPayloadRead | v1/Wal.hpp:489-496 | a segment header is read back with the id and base it was written with |
| WalLog.WriteKeeps | v1/Wal.hpp:237-251 | appending a frame keeps the directory recoverable |
| WalLog.CreateKeeps | v1/Wal.hpp:653-663 | so does creating the next segment file |
| WalLog.FlushKeeps | v1/Wal.hpp:359-379 | after an fsync every frame is durable |
| WalLog.RemoveKeeps | v1/Wal.hpp:798-816 | so does removing the oldest file |
| WalCrash.CrashRecovers | v1/Wal.hpp:438-540 | after every crash but an erasing one the restarted log is the old one cut after its last complete frame, no frame up to the durable LSN is lost, every file holds exactly its frames, and the append invariant holds |
| WalCrash.AnchoredExactly | v1/Wal.hpp:438-540 | every crash restarts with a cut of the log if and only if not exactly one file is left, or its numbering begins at 0, or it has synced bytes |
| WalModel.Wal.constructor | v1/Wal.hpp:268-291 | opening a log over any files leads to what their complete frames say; over what a crash left of a directory, unless the crash erased it, to a valid log of exactly the frames kept |
| WalModel.Recover | v1/Wal.hpp:438-540 | every file is cut to the frames it holds and the segment list, next LSN, segment id and open file are rebuilt from them, for any directory |
| WalModel.ScanFile | v1/Wal.hpp:470-517 | decoding from the front stops at the first place where no frame begins |
| WalModel.Wal.Append | v1/Wal.hpp:641-769 | refused after shutdown, and then log and files stay; else one row is added, at LSN l: its record type is 5 and its payload the given one; every other new frame is the header before it, exactly if no segment was open, or the seal behind it, exactly if with it the segment has MAX_SEG_SIZE frames, each with the fields and payload bytes of the source; the seal makes all durable; every state on the way is recoverable |
| WalModel.Wal.Sync | v1/Wal.hpp:359-379 | with an open segment all frames become durable, the log is unchanged |
| WalModel.Wal.Shutdown | v1/Wal.hpp:298-357 | adds to an open segment the shutdown mark, with its record type 4 and payload bytes, and refuses later appends; without one log and files stay |
| WalModel.Wal.ReadRecordAtLsn | v1/Wal.hpp:603-639 | exactly the LSNs from the oldest kept segment on are found, each with its frame |
| WalModel.Wal.GetMinRetentionLsn | v1/Wal.hpp:557-563 | the least of the pins and the next LSN |
| WalModel.Wal.ExecutePruneProcess | v1/Wal.hpp:798-816 | removes a prefix of the segments, all below every pin, keeps one, and stops at the first that is pinned |
| WalSteps.AppendDone | v1/Wal.hpp:641-769 | opening and finishing together add exactly the frames of one append |
| WalSteps.SealKeeps | v1/Wal.hpp:722-759 | sealing keeps the invariant and makes the log idle |
| WalSteps.ShutKeeps | v1/Wal.hpp:298-357 | shutting down keeps the directory recoverable |
| WalSteps.RemoveOldestKeeps | v1/Wal.hpp:798-816 | pruning one segment keeps the invariant |
| WalSteps.SpanHolds | v1/Wal.hpp:610-615 | a listed segment that spans an LSN leads to the file that holds its frame |
| WalRuns.Run | v1/Wal.hpp:268-816 | any run of appends, syncs, shutdowns, prunings and crashes happens exactly as its trace says: every state follows from the one before by the operation's own function, and every crash strikes one of the moments the operation passed through, cuts the files as chosen and restarts from what is left |
| WalRuns.CrashAndRestart | v1/Wal.hpp:438-540 | the log is opened again from exactly the chosen cut of the chosen moment: empty if that erased it, else valid with the frames kept |
| Compaction.FindOverlapsInRuns | v1/LSM_Compactor_coordinator.hpp:147-190 | for files with distinct paths: every file of every run is in exactly one job, and two files share a job exactly when a chain of overlapping ranges links them, if and only if no cut of the sorted ends falls between equal keys; with all ends different always |
| Compaction.SweepInOrder | v1/LSM_Compactor_coordinator.hpp:147-190 | the same for every order that sorting may give equal ends |
| Compaction.TouchingRanges | v1/LSM_Compactor_coordinator.hpp:161-187 | two ranges that share one key: one order of the equal ends keeps them together, the other parts them |
| Compaction.DistinctParted | v1/LSM_Compactor_coordinator.hpp:161-187 | if all ends differ no cut falls between equal keys |
| Compaction.Sweep | v1/LSM_Compactor_coordinator.hpp:170-187 | one pass over the ends in any order closes a group exactly where as many ranges have begun as ended |
| Compaction.GroupsAreChains | v1/LSM_Compactor_coordinator.hpp:147-190 | for every descending order of the ends: the jobs are the chains if and only if no cut falls between equal keys |
| Compaction.GroupsPartition | v1/LSM_Compactor_coordinator.hpp:147-190 | whatever the order of equal ends, every file is in one group and only one |
| Compaction.SortDescending | v1/LSM_Compactor_coordinator.hpp:161-167 | the ends ordered by key, greatest first |
| Compaction.CollectEnds | v1/LSM_Compactor_coordinator.hpp:154-159 | two ends for every file of every run |
| Compaction.LinkedTransitive | v1/LSM_Compactor_coordinator.hpp:147-190 | linkage by chains is transitive |
| Resp.Parse | v1/RESP_parser.hpp:164-221 | the answer is an error if and only if the buffer does not begin with '*', or its complete count is unreadable, or 0 or less, or behind fewer whole bulk strings than the count stands a byte other than '$' or an unreadable length; incomplete if and only if nothing is there, or no whole count line, or behind fewer bulk strings than the count one that is not complete; else a command of the texts of an array at the front, the first in upper case |
| Resp.ToResp | v1/RESP_parser.hpp:145-151 | an array is printed as its count line and its bulk strings |
| Resp.RoundTrip | v1/RESP_parser.hpp:126-221 | a printed array followed by anything is read back as its tokens, the first in upper case, and exactly its bytes are consumed |
| Resp.PrefixWaits | v1/RESP_parser.hpp:164-221 | every strict prefix of a printed array is incomplete |
| Resp.Receive | v1/RESP_parser.hpp:126-221 | however the bytes of a stream of commands are cut into chunks, a receive loop around the parser (the loop is the model's own) gets exactly the commands that arrived whole, and all of them at the end |
| Resp.StoIDigits | v1/RESP_parser.hpp:178-198 | the decimal digits of a count are read back as the count |
| RBJoin.TwoRedEdges | Data_structures/RedBlackTree.cpp:425-505 | for all red-black trees with the taller one first: the helper leaves at most two red-red edges, and two if and only if both trees are red and equally high |
| RBInsert.RebalancedGood | Data_structures/RedBlackTree.cpp:106-180 | from a red-red edge as the only defect the loop ends in a red-black tree |
| RBInsert.KeysRebalanced | Data_structures/RedBlackTree.cpp:106-180 | the loop keeps the keys in order, from any tree |
| RBInsert.BrokenStays | Data_structures/RedBlackTree.cpp:106-180 | unequal black heights below the climbing node are never mended, so the loop's result is not a red-black tree |
| RBInsert.LeafMisplaced | Data_structures/RedBlackTree.cpp:87-180 | a red leaf in the place of a subtree of black height 2 or more ends in a tree that is not red-black |
| RedBlackTreeModel.InsertedAt | Data_structures/RedBlackTree.cpp:87-180 | what the new leaf in the place of the found subtree does to keys and validity, on trees |
| WalCrash.ErasedExactly | v1/Wal.hpp:438-540 | a crash restarts with a cut of the log if and only if it is not an erasing one: the only file begins above LSN 0 and has no complete frame left |
| WalCrash.ErasedRestarts | v1/Wal.hpp:438-540 | after an erasing crash nothing is known of the old numbering: recovery leaves the state of an empty directory |
| WalCrash.AnchoredKeeps | v1/Wal.hpp:438-540 | no crash on an anchored directory is an erasing one |
| WalRuns.EveryCrash | v1/Wal.hpp:237-252 | every crash the model knows is one a run can strike |
| WalRuns.TurnKeeps | v1/Wal.hpp:641-816 | no event but an erasing crash breaks a promise |
| WalRuns.RunKeepsPromises | v1/Wal.hpp:268-816 | what durable_lsn announced after any event is in the log, and announced, after every later event, unless a crash between them erased the log |
| WalRuns.WipeStartsAgain | v1/Wal.hpp:438-540 | an erasing crash strikes only an unanchored directory, and the log restarts empty at LSN 0 |
| WalRuns.LeaveUnanchored | v1/Wal.hpp:641-816 | an append that begins a segment and does not fill it, and a prune without readers right after it, leave a directory that a crash may erase, though durable LSNs were announced |
| WalRuns.PrunedUnanchored | v1/Wal.hpp:798-816 | for any state whose open file was never synced: pruning without readers keeps that file only, removal by removal |
| WalRuns.LoseNumbering | v1/Wal.hpp:268-816 | a run of three rows in segments of three frames and a crash behind the last removal of a prune: before it LSN 3 was announced durable, the crash is an erasing one, and the log is the empty one at LSN 0 again |
| WalRuns.FatalWipes | v1/Wal.hpp:268-816 | in every history of those four events the crash erases a log that had announced LSN 3 |
| WalReaders.Follow | v1/Wal.hpp:818-868 | in every interleaving with appends, syncs, shutdowns, prunings and other readers, a reader that steps on with every record it gets and moves its pin in a turn of its own has every LSN from its start on once and in order, one for every read made while it was behind |
| WalReaders.Followed | v1/Wal.hpp:818-868 | what the reader has when it stops: the log from its start to its position, as many frames as reads were made behind the end |
| WalReaders.ReadsCatchUp | v1/Wal.hpp:838-868 | with as many reads in a row as it is behind, the reader has everything |
| WalReaders.WalIterator.constructor | v1/Wal.hpp:825-830 | the iterator's pin is its position |
| WalReaders.WalIterator.Next | v1/Wal.hpp:838-868 | with any turns of other threads during the waits: following ends, after one wait at the latest, if and only if the position was not pruned; at a pruned position it does not end for any number of waits; a record returned is that of the position, which then moves on with the pin; following returns nothing only at the end of the log |
| WalReaders.FollowPruned | v1/Wal.hpp:825-868 | an iterator with the default start 0, opened on a log whose first segment is pruned, does not end for any number of waits and any turns of others |
| SkipLists.SkipList.Insert | Data_structures/Skiplist.hpp:149-308 | for any height of the new tower: a valid skip list whose bottom row has the key in its place, every level a subsequence, all links in four directions right; the map of keys to values, which the nodes of every level carry, is the old one with the key set to the value; exact gaps stay exact; a present key changes neither keys nor values |
| SkipNodes.Woven | Data_structures/Skiplist.hpp:183-307 | the levels spliced, passed and newly stacked are together a well-formed skip list with exact gaps |
| SkipNodes.GapsPassed | Data_structures/Skiplist.hpp:274-280 | adding one to the gap over the new key keeps a passed level exact |
| SkipNodes.GapsTaken | Data_structures/Skiplist.hpp:281-303 | the two gaps of a spliced level, computed from the predecessor's noted rank, are exact |
| SkipNodes.GapsFresh | Data_structures/Skiplist.hpp:215-260 | the gaps of a new top level are exact |
| SkipLists.SkipList.Search | Data_structures/Skiplist.hpp:63-124 | the key's node, with its value, on the highest level that has it, else its predecessor on the bottom level, with the predecessor and its rank noted for every level above; the rank counted is the sum of the gaps on the way, and right if gaps are exact |
| SkipLists.SkipList.SearchIndex | Data_structures/Skiplist.hpp:125-147 | for every list: null outside 1..length; else the key and the value at the place that the gaps lead to, or a step off the bottom if they lead to none; with exact gaps it is the key of that rank |
| SkipRanks.WalkTrue | Data_structures/Skiplist.hpp:125-147 | with true gaps the walk from any cursor ends at the rank still to go |
| SkipRanks.WalkPlace | Data_structures/Skiplist.hpp:125-147 | the walk never ends at the head |
| SkipRanks.RanksSpoiled | Data_structures/Skiplist.hpp:63-147 | ranks read after the smallest deletion that spoils a gap: rank 1 is answered with the second key, rank 2 runs off the bottom, and the second key is counted as the first |
| SkipLists.SkipList.RangeSearch | Data_structures/Skiplist.hpp:310-328 | exactly the stretch from the lower key to the last key not above the upper one, with their values; nothing if the lower key is absent |
| SkipLists.SkipList.DeleteKey | Data_structures/Skiplist.hpp:330-373 | a valid skip list without the key, its value gone and no other, empty levels dropped; gaps that were exact are exact afterwards if and only if on every level that keeps other keys the key's left neighbour is also its left neighbour on the bottom level |
| SkipCuts.CutTrue | Data_structures/Skiplist.hpp:342-371 | the gaps after a deletion are the true ones if and only if on every level of the tower the left neighbour is adjacent at the bottom |
| SkipCuts.GapSpoiled | Data_structures/Skiplist.hpp:347-350 | the smallest case: three keys, the middle one deleted from a level on which the first is missing |
| SkipKeys.SumIs | Data_structures/Skiplist.hpp:125-147 | the gaps up to a node add up to its rank |
| SortedSets.ZSet.ZsetAdd | v1/IN-MEM_Helper.hpp:593-605 | the hash gets the score, the index the pair and its value, and no other changes; hash and index stay in step if and only if the member is new or keeps its score |
| SortedSets.ZSet.Remove | v1/IN-MEM_Helper.hpp:607-624 | the member leaves the hash, its pair and value the index, and no other |
| SortedSets.ZSet.UpdateIncreaseByDelta | v1/IN-MEM_Helper.hpp:694-721 | the old pair goes, the new one comes, and hash and index stay in step |
| SortedSets.ZSet.GetRank | v1/IN-MEM_Helper.hpp:642-658 | for a member the sum of the gaps on the way to its pair; with exact gaps, and hash and index in step, one more than the members whose score is smaller, or equal with a smaller member |
| SortedSets.ZSet.GetScore | v1/IN-MEM_Helper.hpp:626-640 | the hash's score, under which the member is in the index; the only one if hash and index are in step |
| SortedSets.ZSet.GetRangeByRank | v1/IN-MEM_Helper.hpp:671-692 | for every set: it fails exactly where a walk by rank runs off the index, reports a rank out of range, and else returns the pairs between the places the ranks lead to, with exact gaps those of the ranks; their scores ascend, ties by member, and in step each is the score of its member |
| SortedSets.ZSet.Size | v1/IN-MEM_Helper.hpp:660-669 | the number of pairs, which is that of the members when hash and index are in step |
| SortedSets.ZSet.PairForEach | v1/IN-MEM_Helper.hpp:660-692 | in step, there are as many pairs as members |
| SortedSets.StaysInStep | v1/IN-MEM_Helper.hpp:593-721 | the only operation that puts hash and index out of step is adding a member again with another score |
| SortedSets.Run | v1/IN-MEM_Helper.hpp:578-721 | what any run of additions, increases and removals leaves in hash and index; without an addition that changes a score they are in step |
| SortedSets.SameScoresSameOrder | v1/IN-MEM_Helper.hpp:593-721 | sets in step with equal scores have equal order, however they came about |
| SsTables.LSMEngine.Append | v1/LSM_Engine.hpp:1105-1451 | for every state: one batch becomes one block of the open file, whose row count and first keys are noted; a file is finished exactly by a batch, not its first, that brings it to the row limit, and block and table numbers go on by one; every byte of every finished file is the one the specification gives; an empty batch is refused and changes nothing |
| SsTables.Store | v1/LSM_Engine.hpp:1105-1451 | any run of appends, with the resulting files byte by byte; no batch is lost, doubled or moved |
| SsTables.ReadFinished | v1/LSM_Engine.hpp:1105-1824 | the finished files are read back as exactly the records of their batches, in order |
| SsTables.WriteAndRead | v1/LSM_Engine.hpp:1105-1824 | batches that fill a file with the last one: the file's bytes and its length as a function of header, batches and filter; found through its footer it has exactly these batches, their filter, the first key of every block in its index, and the first and the last key of the table; the reader's answer for it is their records in order, tombstones included |
| SsTables.StaysOk | v1/LSM_Engine.hpp:1105-1451 | every table is cut off by the first batch that fills it, and the open one is not full |
| SsTables.GivenAll | v1/LSM_Engine.hpp:1105-1451 | finished tables and open file hold the batches given, in order |
| SsTables.FileFits | v1/LSM_Engine.hpp:1303-1421 | the length of a finished file from the sizes of its batches; while the int counters last it is below 2^64 |
| SsTables.FileHolds | v1/LSM_Engine.hpp:1303-1421 | the specified bytes hold the table of the batches and the stored filter |
| SsTables.FilterPasses | v1/LSM_Engine.hpp:228-239 | the stored filter lets every key of the file pass |
| SsTables.OneTable | v1/LSM_Engine.hpp:1481-1824 | a file holds one table only |
| SsLayout.ReadSSTable | v1/LSM_Engine.hpp:1481-1824 | the reader succeeds on exactly the files that hold a table and returns that table's records in order |
| SsLayout.TableUnique | v1/LSM_Engine.hpp:1481-1824 | footer, metadata, blocks and rows of a file are determined by its bytes |
| SsBytes.LaidHolds | v1/LSM_Engine.hpp:1303-1421 | blocks, offsets, counts and footer laid out as written hold the table of the batches |
| SsBytes.ComputeDbBytes | v1/LSM_Engine.hpp:530-584 | a block's bytes: rows, all row offsets but the last, and the three closing numbers |
| SsBytes.ComputeTail | v1/LSM_Engine.hpp:1303-1421 | what follows the blocks: offsets and counts, first keys, end keys, filter, footer, each with the places it points to |
| BloomFilters.BloomFilter.AppendKey | v1/LSM_Engine.hpp:228-239 | exactly the key's slots are set in addition: hash one plus i times hash two, wrapped to 64 bits, modulo the size, for each i below the number of hashes |
| BloomFilters.BloomFilter.HasKey | v1/LSM_Engine.hpp:241-257 | true if and only if all slots of the key are set |
| BloomFilters.BloomFilter.SetMArry | v1/LSM_Engine.hpp:266-286 | a stored filter is read back bit by bit, missing bytes clear |
| BloomFilters.ReadBackAnswers | v1/LSM_Engine.hpp:266-307 | a filter stored and read back answers as before |
| AvlTreeModel.AvlTree.Insertion | Data_structures/AVLTree.hpp:373-485 | for every key: the pointers hold a sorted tree with the new entry and the old ones but those below the key's node; every stored factor is the difference of the heights and within 1, and the map is the old one with the key set, if and only if the key was absent or the only one |
| AvlTreeModel.AvlTree.Climb | Data_structures/AVLTree.hpp:404-484 | the loop, which looks up the parent of every node anew from the root, leaves exactly the tree that the recursion over factors and rotations describes |
| AvlInsert.ClimbedBalanced | Data_structures/AVLTree.hpp:404-484 | from a subtree that grew by one level the climb ends with every factor right and within 1 |
| AvlInsert.FlatClimbed | Data_structures/AVLTree.hpp:404-484 | the climb keeps the entries in order, from any tree |
| AvlInsert.TurnBalanced | Data_structures/AVLTree.hpp:285-367 | the rotation over a child that grew on the heavy side gives right factors and the old height |
| AvlInsert.LeafMisplaced | Data_structures/AVLTree.hpp:373-485 | a new leaf in the place of a subtree of height 1 or more leaves a wrong factor somewhere, wherever the climb ends |
| AvlInsert.BrokenStays | Data_structures/AVLTree.hpp:404-484 | a wrong factor two levels below the climbing node is never mended |
| AvlTreeModel.InsertedAt | Data_structures/AVLTree.hpp:373-485 | what the new leaf in the place of the found subtree does to entries, factors and map, on trees |
| AvlTreeModel.AvlTree.Rotate | Data_structures/AVLTree.hpp:285-315 | the pointers and stored factors after a single rotation are exactly those of the rotated tree |
| AvlTreeModel.AvlTree.RotateTwice | Data_structures/AVLTree.hpp:317-367 | the same for the double rotations |
| AvlTreeModel.AvlTree.Search | Data_structures/AVLTree.hpp:260-279 | the node with the key and the node above it, or the place where it belongs |
| AvlShape.SeekFinds | Data_structures/AVLTree.hpp:260-279 | in a sorted tree the search for a node's own key ends at that node |
| AvlRange.BstSuccessor | Data_structures/AVLTree.hpp:491-518 | the node of the next entry in order, null after the last |
| AvlRange.InorderRangeTraversal | Data_structures/AVLTree.hpp:964-985 | nothing if a key is missing; with both present exactly the entries between them in order, if and only if the lower one is not above the upper one: otherwise the walk steps off the last node |
| BPlusTreeModel.BPlusTree.Insertion | Data_structures/B+Tree.cpp:45-153 | for every key: the leaf chain is the old one with the key at its place; it is strictly ascending, and the whole a B+ tree of uniform depth with right sizes, parents, separators and chain, if and only if the key was absent |
| BPlusTreeModel.BPlusTree.FindLeaf | Data_structures/B+Tree.cpp:18-44 | the leaf a key belongs to, and the key itself if and only if it is in the tree, else -1 |
| BPlusTreeModel.BPlusTree.Climb | Data_structures/B+Tree.cpp:76-151 | the loop over the parents keeps the leaf chain, whatever the key, and ends in a B+ tree if the key was new |
| BPlusTreeModel.BPlusTree.MendInner | Data_structures/B+Tree.cpp:79-150 | one turn of the loop: the node takes key and child at the place the lookup gives, and either all is done or its own parent has a node to take; with a new key the tree is then whole but for that |
| BPlusTreeModel.BPlusTree.SplitRoot | Data_structures/B+Tree.cpp:100-147 | a root with a key too many becomes two nodes under a new root |
| BPlusHeap.SplitLeaf | Data_structures/B+Tree.cpp:100-134 | the pointers after a leaf's split are those of the two halves, the leaf chain running through both |
| BPlusHeap.SplitInner | Data_structures/B+Tree.cpp:100-131 | the pointers after an inner node's split are those of the two halves, the children that move pointing to the new node |
| BPlusSteps.SplitOpens | Data_structures/B+Tree.cpp:100-150 | after a split the rows are linked but for the parent, which takes the new node at the very place the lookup of the separator gives |
| BPlusWaits.Taken | Data_structures/B+Tree.cpp:79-99 | for any rows above the current level that are still the old ones, and any place: the node that takes a key and a child owns its children alone, and nodes and leaves stay |
| BPlusWaits.TakenTight | Data_structures/B+Tree.cpp:79-99 | with a new key the lookup gives the one place that keeps rows linked and separators ascending |
| BPlusWaits.LowerOfAll | Data_structures/B+Tree.cpp:62-99 | the place in the leaf is the place among all keys of the chain |
| BPlusWaits.InsertedKeys | Data_structures/B+Tree.cpp:45-153 | the chain with the key once more is strictly ascending if and only if the key was not in it |
| BPlusSteps.LeafSplit | Data_structures/B+Tree.cpp:109-118 | both halves of a leaf are ascending, within their bounds and next to each other |
| BPlusSteps.InnerSplit | Data_structures/B+Tree.cpp:120-131 | the separator that goes up lies strictly between the bounds of the split node |
| BPlusRows.Descend | Data_structures/B+Tree.cpp:24-43 | the child after the last key not above k is the one whose bounds include k |
| BPlusRows.OnlyHere | Data_structures/B+Tree.cpp:18-44 | a key is in the leaf whose bounds include it or nowhere, and the leaf chain is ascending |
| BPlusRange.RangeLookup | Data_structures/B+Tree.cpp:346-361 | the keys from the start of the lower bound's leaf up to the upper bound: ascending, every key within the bounds, none above, and below only keys of that first leaf |
| CrcVectors.PolyBits | v1/Wal.hpp:188-199 | the constant's bits are the exponents of the polynomial in section 12.1 of RFC 3720, reflected |
| CrcVectors.Incrementing | v1/Wal.hpp:201-207 | the checksum of the 32 bytes 0 to 31 is that of appendix B.4 of RFC 3720 |
| WalBytes.FrameBytes | v1/Wal.hpp:209-251 | an encoded frame place by place: LSN, version, type, header length, payload length, payload, and the checksum of all before it, each most significant byte first |
| WalBytes.HeaderPayloadIs | v1/Wal.hpp:665-679 | a segment header's payload place by place, least significant byte first |
| WalBytes.SealPayloadIs | v1/Wal.hpp:723-732 | a seal's payload place by place: segment, its own LSN, and the records of the segment |
| WalBytes.MarkPayloadIs | v1/Wal.hpp:315-331 | the shutdown mark's payload place by place |
| WalSteps.AppendedRow | v1/Wal.hpp:641-769 | the frames of an append, field by field: one row with the payload, a header before it if and only if no segment was open, a seal behind it if and only if the segment is full |
| WalModel.Wal.AppendAndRead | v1/Wal.hpp:603-769 | reading the LSN of a row right after its append gives its payload |
| WalSteps.EntryIs | v1/Wal.hpp:684-759 | an entry of the segment list names its file, the first and the last LSN in it, and their number |
| WalRows.TurnRows | v1/Wal.hpp:438-769 | an accepted append adds its payload to those of the rows, another operation none; a crash leaves a beginning of them with every durable row in it, or none if it erases the log |
| WalRows.RunRows | v1/Wal.hpp:268-769 | at every moment of a run the payloads of the rows in the log are those of the accepted appends, in order, as far as the crashes leave them |
| WalRows.RowsOfTurn | v1/Wal.hpp:438-769 | in every history: what a crash cuts from the rows is behind every durable one, unless it erases the log |
| SkipNodes.NewNodes | Data_structures/Skiplist.hpp:183-260 | the nodes of the new tower carry the inserted value on every level |
| SkipKeys.ScoresRise | v1/IN-MEM_Helper.hpp:59-75 | keys in order have ascending scores, and equal scores ascending members |
| SkipLists.SkipList.RowRises | Data_structures/Skiplist.hpp:149-373 | in the bottom row every score is at most the next one's |
| SortedSets.PlaceCounts | v1/IN-MEM_Helper.hpp:642-658 | the place of a member's pair is one more than the members whose score is smaller, or equal with a smaller member |
| SsTables.FinishedServes | v1/LSM_Engine.hpp:1303-1421 | every finished file holds its batches, its filter, the first key of every block in its index, and the first and last key of the table |
| SsTables.FileIndexed | v1/LSM_Engine.hpp:1334-1389 | the specified bytes have, where the footer says, an index whose entry i is the first key of block i, and end keys that are those of the first and the last record |
| SsIndex.Lookup | v1/LSM_Engine.hpp:1334-1362 | if keys ascend over the file, the last index entry not above a key names the only block that can hold it, and below the first entry no block does |
| SsTables.FileNotes | v1/LSM_Engine.hpp:530-584 | block i notes its number, counted on from the first block of the file, and where each row but the last begins |
| SsTables.FileHeaded | v1/LSM_Engine.hpp:1150-1204 | table number, path, identity and time stand at the front of the file |
| SsIndex.RowStands | v1/LSM_Engine.hpp:530-584 | a record stands where the offset of its block and the rows before it say: flags, both sizes, key and value |
| SsIndex.FieldIs | v1/LSM_Engine.hpp:530-584 | every number in a file has eight bytes, the most significant first |
| Resp.ParseMeans | v1/RESP_parser.hpp:164-221 | what each answer of the parser says of the bytes |
| Resp.FailsParse | v1/RESP_parser.hpp:168-212 | on every buffer that is wrong at a place the parser reaches the answer is an error |
| Resp.HoldsParse | v1/RESP_parser.hpp:182-220 | on every buffer with a whole array at the front the answer is that array and where it ends, whatever spaces, signs or figures its numbers have |
| Resp.ErrorStays | v1/RESP_parser.hpp:164-221 | an error stays one, whatever bytes follow |
| Resp.WaitsEnd | v1/RESP_parser.hpp:164-221 | every incomplete buffer has a continuation that is not incomplete, if and only if it does not wait for a bulk string whose negative length leads to before the buffer |
| Resp.StoIReads | v1/RESP_parser.hpp:178-197 | a number is read exactly if spaces, a sign or none, and figures begin the text, and its value fits 32 bits |
| BTreeModel.BTree.KeyCounts | Data_structures/BTree.hpp:61-471 | in a valid tree every node has at most as many keys as the order, every one but the root at least half the order with one key more, and all leaves have one depth |
| Compaction.FilesAre | v1/LSM_Compactor_coordinator.hpp:154-159 | a file is collected if and only if it is in one of the runs |

## Left out

- BTreeModel.Search: keys are integers with the comparison of integers, for any total order of keys; values are abstract
- The memory of removed nodes: a deleted node is simply no longer part of the tree
- B-tree `lookup`, which does not type-check, and printing
- BTreeModel.BTree.DeleteFromInner: only the predecessor branch, the successor branch being unreachable in a well-formed tree
- RedBlackTreeModel.RedBlackTree.SpineRBJoin: the two mirror-image helpers are one method with a side parameter
- Red-black deletion: a black inner node with only a left child loses that child
- AvlTreeModel.AvlTree.Rotate: the mirror-image rotations are one method with a side parameter
- BPlusTreeModel.BPlusTree.Insertion: of a key that is there already, only the leaf chain and the nodes are accounted for, not which child a later search would take
- BPlusTreeModel.BPlusTree.MendInner: the first turn of the loop, at the leaf, is written apart from the others
- B+ tree deletion, which writes an inner node's first key over separators that are not its own
- AVL deletion and AVL join, split and union, which lose factors, values or the direction of the split
- WalModel.Wal.Append: stated while 64-bit LSNs do not run out; failing writes, failing fsync and the other sync strategies are not modelled
- WalModel.Wal.constructor: segment files are taken in the order of their ids, which the lexicographic order of their names is only up to a change in the number of digits; creation and removal of files are durable at once
- WalCodec.DecodeFrame: a length field beyond the end of the file is refused; the exception of an allocation that fails is not modelled
- A crash during recovery itself, which leaves another crash image of the same log
- WalModel.Recover: bytes found after a restart count as synced, while the source syncs only the files it truncates, so a power loss after the restart that follows a mere process crash is not covered
- The log's checkpoint record, which reuses the next LSN
- WalReaders.WalIterator.Next: what others do during a wait is a sequence of whole operations, and clocks do not count: every wait may end with or without new data; the iterator holds a log, never null
- WalRuns.Run: an append or a shutdown at the end of the 64-bit LSNs is skipped, and so are readers, whose pins die with the process; Follow has them
- WalRuns.CrashAndRestart: an empty file that no segment lists, which an erasing crash can leave, is treated as absent after the restart
- Compaction.FindOverlapsInRuns: keys stand for strings by rank; a path occurs once, and no range ends before it begins
- Compaction.SortDescending: an insertion sort stands for the library sort
- Resp.Parse: a char stands for a byte and toupper is that of the C locale; a bulk length that overflows int by adding 2 is not modelled
- The other kinds of response, and executing commands
- SkipLists.SkipList.Insert: the random height of a tower is a parameter, at least 1
- SkipLists.SkipList.DeleteKey: requires that the list has a head, which it has not after its last key was deleted
- SkipKeys.SumIs: a key is a score, a real number, and an integer in place of the member's hash and name, in their order; NaN scores are not modelled
- Sorted-set ranges by score
- SsTables.LSMEngine.Append: stated while the int counters last, that is for batches below 2^31 bytes, fewer than 2^31 blocks and a filter of fewer than 2^31 slots; failing writes are not modelled
- SsTables.LSMEngine.StartTable: the file is always new; the source opens it with O_CREAT and O_APPEND, so an existing file of that name would shift the blocks
- SsLayout.ReadSSTable: sums of 64-bit offsets do not wrap
- BloomFilters.BloomFilter.AppendKey: the two hash functions are parameters
- LSM partial reads, run and bucket bookkeeping, the rest of the coordinator, and the LSM compactor, which are unfinished
- Threads, condition variables, clocks, logging and random generators
