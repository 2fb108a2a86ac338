# Verified models of the Aerospike server's index and core structures

A Dafny model of parts of the Aerospike server and proofs about them:

* **The secondary index** (`ai/src`). A B-tree with pre-emptive splits and the full delete, updated in
  place on heap nodes; the explicit-stack cursor that walks it, by range and by rank; the two-level
  index on top, from a key to an array of digests that becomes a nested B-tree at 32 entries; and the
  batched, resumable queries on it.
* **The futex mutex** (`cf/src/cf_mutex.c`), as a step relation over any number of threads.
* **Core structures** (`cf/src`): the arena with its free list inside the freed elements, the chained
  hash with the first element of a bucket inside the table, the name/index map with lock-free readers,
  the message wire format, and the debug hooks of the allocator.

## How to read it

Each module follows a source file or a part of one. Code that changes things in place is a class or a
method with a `modifies` clause; a ghost field or a function gives its abstract value, and the contracts
are about that value. The trees are the largest part: `BtreeSpec` defines trees as values (`Tree`), their
in-order contents (`Flat`), shape (`WF`), the nodes they own (`Own`) and what it means that the nodes in
memory are those of a tree (`Rep`); `BtreeBytes` counts its bytes by the nodes in memory; `BtreeNode` has the node operations, `Btree` and `BtreeDelete` the
tree operations, and `Slots` the moves inside a node's array of keys. `Iterator` describes a cursor by the entries still to come (`Rest`), so that a scan is
a statement about sequences. `Sindex` keeps the footprint of every holder as a value, so that one
holder's change leaves the others alone. `Query` states the queries on cells (a key, its digests, array
or tree), and `IndexQuery` shows that the loops over the heap compute them. `Growth` says in numbers
what a key costs as its digests are put.

Keys and digests are integers here; `Digest` shows that the comparison of digests is the order of the
numbers they spell, and keys are compared as signed integers in the source. Sizes, limits and constants
are those of the source. Where a caller's promise is needed it is a `requires`: an insert is of an absent
key and a delete of a present one, as every caller in the source checks first.

An equality query (`get_recl`) does not have the exactly-once property of a range query. Its array
branch neither sets nor clears the resume digest, so when an array fills a batch and becomes a tree
before the next one, the digests above the stale resume digest are returned again. `EqualityRepeats`
gives such a run and `EqualityExactlyOnceIff` says exactly when it happens.

`dafny verify dfyconfig.toml` checks everything.

## Model

| member | source | states |
|---|---|---|
| `Search.Log2` | ai/src/bt_code.c:189-203 | for a width that is a power of two, the halving loop returns the floor of the base-2 logarithm (0 for 0) |
| `Search.OrIsAdd` | ai/src/bt_code.c:232-252 | or-ing in a bit below all bits already set is adding it, which is what lets the search step by `i | (1 << b)` |
| `Search.FindIndex` | ai/src/bt_code.c:232-252 | on any sorted node of at most 2^nbits keys the search ends and returns the greatest slot whose key is not above k, or -1; r is 0 exactly when k is in the node, and then it is in that slot |
| `Search.NodeBits` | ai/src/bt_code.c:153-184 | the width recorded at creation is a power of two, and wide enough for a full node |
| `Digest.DigestOrder` | ai/src/stream.c:40-54 | the two-part comparison of 20-byte digests is the order of the 160-bit little-endian numbers: total, antisymmetric, and equal only for equal digests |
| `Query.PartitionOfDigest` | as/include/fabric/partition.h:218-222 | for every digest of 20 bytes, whether it can be queried is read at the number of the low 12 bits of its first two bytes, least significant first |
| `Entries.InsMeaning` | ai/src/bt_code.c:509-548 | the insertion the tree is measured against: keeps a sorted sequence sorted and adds exactly one entry |
| `Entries.DelMeaning` | ai/src/bt_code.c:599-825 | the deletion the tree is measured against: keeps a sorted sequence sorted and takes out exactly the entry with the key, if there is one, and no other |
| `Slots.MoveKeys` | ai/src/bt_code.c:432-459 | the slot array after a move of keys, between nodes or inside one where source and destination overlap, is the old one with the moved stretch pasted in as it was before the move |
| `Slots.InsertSlot` | ai/src/bt_code.c:509-518 | the leaf insertion on the slot array is the insertion into the sequence of keys that the tree operations use |
| `Slots.DeleteSlot` | ai/src/bt_code.c:636-639 | the leaf deletion on the slot array is the deletion from that sequence |
| `BtreeSpec.ScionIsCount` | ai/src/bt_code.c:270-280 | in every well-formed tree every node's scion is the number of entries at and below it |
| `BtreeSpec.SplitKidFlat` | ai/src/bt_code.c:479-507 | a split leaves the in-order contents as they were |
| `BtreeSpec.MergeKidsFlat` | ai/src/bt_code.c:695-724 | a merge around an entry has that entry between the contents of the two children |
| `BtreeSpec.BorrowLeftFlat` | ai/src/bt_code.c:737-755 | a rotation from the left sibling leaves the contents as they were |
| `BtreeSpec.BorrowRightFlat` | ai/src/bt_code.c:756-772 | a rotation from the right sibling leaves the contents as they were |
| `BtreeNode.SplitChild` | ai/src/bt_code.c:479-507 | the in-place split of a full child around its median yields, in memory, the tree with the child split: scions, leaf flags and children included, all other nodes untouched |
| `BtreeNode.MergeChildren` | ai/src/bt_code.c:695-724 | the in-place merge yields, in memory, the tree with both children and the entry in the left node |
| `BtreeNode.LendRight` | ai/src/bt_code.c:737-755 | the in-place rotation to the right: keys, the moved child and all three scions |
| `BtreeNode.LendLeft` | ai/src/bt_code.c:756-772 | the in-place rotation to the left: keys, the moved child and all three scions |
| `Btree.BTree.constructor` | ai/src/bt_code.c:120-184 | an empty valid tree with the node sizes of the source, whose msize is 72 bytes for the tree and those of its root |
| `Btree.BTree.Locate` | ai/src/bt_code.c:232-252 | the slot search on a node of a valid tree, read against the tree's contents |
| `Btree.BTree.Find` | ai/src/bt_code.c:919-935 | returns the payload under k exactly when the contents hold k |
| `Btree.BTree.Exists` | ai/src/bt_code.c:966-977 | true exactly when the contents hold k |
| `Btree.BTree.MakeRoom` | ai/src/bt_code.c:518-526 | picks the child the key belongs in, splitting it first when full; the contents do not change and the child has room |
| `Btree.BTree.InsertNonFull` | ai/src/bt_code.c:509-527 | inserting below a node with room yields a sound subtree of the same height whose contents gained exactly the entry; scions and msize follow |
| `Btree.BTree.GrowRoot` | ai/src/bt_code.c:529-548 | a full root moves below a new one and is split: one level more, the same contents |
| `Btree.BTree.Insert` | ai/src/bt_code.c:529-548 | inserting an absent key keeps the tree valid (sorted, all leaves at one depth, t-1..2t-1 keys per node, no sharing, scions, numkeys and msize exact) and adds exactly that entry to the in-order contents |
| `BtreeDelete.DeleteLeaf` | ai/src/bt_code.c:618-641 | case 1: the slot leaves the leaf, and its scion drops by one |
| `BtreeDelete.DeleteByNeighbour` | ai/src/bt_code.c:655-694 | cases 2a and 2b: the predecessor or successor is deleted from the child and takes the key's place |
| `BtreeDelete.DeleteByMerge` | ai/src/bt_code.c:695-724 | case 2c: the key and its two children are merged and the key is deleted from there |
| `BtreeDelete.TakeFromLeft` | ai/src/bt_code.c:737-755 | case 3a, left: the child gains a key, contents unchanged, the sibling keeps at least t-1 |
| `BtreeDelete.TakeFromRight` | ai/src/bt_code.c:756-772 | case 3a, right: the child gains a key, contents unchanged, the sibling keeps at least t-1 |
| `BtreeDelete.MergeAt` | ai/src/bt_code.c:773-814 | case 3b and 2c: the children become one, the freed node's bytes leave msize |
| `BtreeDelete.FixChild` | ai/src/bt_code.c:732-815 | case 3: whatever the siblings hold, the child to go down into has t keys afterwards and nothing is lost |
| `BtreeDelete.DeleteKey` | ai/src/bt_code.c:599-825 | from every node the recursion ends, leaves a sound subtree, and its contents are the old ones without exactly the wanted entry, in every case and for the by-key, greatest and least variants |
| `BtreeDelete.Finish` | ai/src/bt_code.c:876-899 | numkeys drops by one and an internal root without keys gives way to its only child |
| `BtreeDelete.Remove` | ai/src/bt_code.c:866-899 | deleting a present key keeps the tree valid and the contents are the old ones minus exactly that key; no node is added |
| `BtreeBytes.MsizeByNodes` | ai/src/bt_code.c:118-149 | the msize of every valid tree is 72 bytes and, over its distinct nodes in memory, kbyte for each that says it is a leaf and nbyte for each other |
| `BtreeDepth.MinimalCount` | ai/include/bt_iterator.h:52-65 | a tree of h+1 levels whose root has a key holds at least 2 t^h - 1 entries |
| `BtreeDepth.DepthBound` | ai/include/bt_iterator.h:52-65 | with t >= 9 and fewer than 2^32 keys a tree has at most 10 levels, so the 16 slots of a cursor are enough |
| `Iterator.Iter.constructor` | ai/src/bt_iterator.c:191-240 | a new cursor stands on the root |
| `Iterator.Iter.GetNewChild` | ai/src/bt_iterator.c:50-56 | takes the next slot of the pool, which must not be used up |
| `Iterator.Iter.ToChildRecurse` | ai/src/bt_iterator.c:87-93 | goes down to the leftmost leaf: what is to come is that subtree and then what was to come above |
| `Iterator.Iter.Sides` | ai/src/bt_iterator.c:66-82 | comparing the key the cursor leaves with the parent's current key tells on which side of that key the child was, although the slot recorded may not be the child's |
| `Iterator.Iter.ToParentRecurse` | ai/src/bt_iterator.c:66-82 | climbs to the nearest ancestor that has a key to come: what is to come does not change |
| `Iterator.Iter.IterLeaf` | ai/src/bt_iterator.c:83-86 | past the current key of a leaf exactly that entry is gone from what is to come |
| `Iterator.Iter.IterNode` | ai/src/bt_iterator.c:94-99 | past the current key of an internal node exactly that entry is gone from what is to come |
| `Iterator.Iter.Next` | ai/src/bt_iterator.c:101-117 | returns the first entry to come and leaves the others; none when there is none |
| `Scan.InitIterator` | ai/src/bt_code.c:942-964 | walks to k or to the leaf where it would be, with the slots the source records on the way; what follows the cursor is told by its verdict |
| `Scan.SetIter` | ai/src/bt_iterator.c:163-190 | the cursor is before the first entry not below k, or there is none |
| `Scan.UptoIsRange` | ai/src/bt_iterator.c:331-370 | stepping from the first entry not below low until one is above high is filtering the sorted contents by low <= key <= high |
| `Scan.GetRangeIter` | ai/src/bt_iterator.c:287-307 | null when no entry is at or above low, else a cursor with exactly those entries to come |
| `Scan.RangeNext` | ai/src/bt_iterator.c:331-370 | the next entry if it is not above high; after an entry equal to high nothing is to come |
| `Scan.RangeScan` | ai/src/bt_iterator.c:287-370 | for every low and high, present or not and in any order, a scan emits exactly the entries in [low, high], in order, each once |
| `Scan.FullScan` | ai/src/bt_iterator.c:373-412 | a scan from the smallest to the greatest key emits the whole contents |
| `Scan.FindMin` | ai/src/bt_code.c:979-994 | the leftmost key is the smallest of the contents |
| `Scan.FindMax` | ai/src/bt_code.c:987-998 | the rightmost key is the greatest of the contents |
| `Scan.RankChild` | ai/src/bt_iterator.c:452-513 | the loop over the children's scions finds the child or key that holds the rank, and the rest of the offset |
| `Scan.ScionFind` | ai/src/bt_iterator.c:452-513 | puts the cursor on the entry of rank ofst: what is to come is the contents from that rank on |
| `Scan.GetFullXthIter` | ai/src/bt_iterator.c:514-528 | the same from the root of any valid tree |
| `Scan.RankScan` | ai/src/bt_iterator.c:514-528 | a scan from rank x emits the full scan without its first x entries |
| `Nested.ArrFind` | ai/src/ai_btree.c:112-121 | the slot of a digest, or -1 exactly when it is absent |
| `Nested.ArrShrink` | ai/src/ai_btree.c:123-139 | the digests stay; a capacity above 4 is halved exactly when at most a quarter is used |
| `Nested.ArrDelete` | ai/src/ai_btree.c:141-158 | exactly the digest is gone, and the capacity halved exactly when it is above 4 and at most a quarter is then used; or the array is as it was and notfound is set |
| `Nested.ArrExpand` | ai/src/ai_btree.c:165-178 | the capacity doubles; its requirement is what the crash in the source tests, and every caller meets it |
| `Nested.ArrInsert` | ai/src/ai_btree.c:185-200 | a new digest is appended, no digest is ever there twice, and the capacity doubles exactly when all slots were used |
| `Nested.MoveToTree` | ai/src/ai_btree.c:76-87 | the tree holds exactly the digests of the array |
| `Nested.Nbtr.CheckConvert` | ai/src/ai_btree.c:206-234 | turns a full array, and only that, into a tree; the set of digests stays, and the returned difference is the change in bytes |
| `Nested.Nbtr.Put` | ai/src/ai_btree.c:328-360 | the holder's set gains the digest, found exactly when it was there; the returned difference is the change in bytes; an array gains the digest at its end and doubles exactly when it was full |
| `Nested.Nbtr.Take` | ai/src/ai_btree.c:386-422 | the holder's set loses the digest, notfound exactly when it was absent; the returned difference is the change in bytes; an array halves exactly when it is above 4 slots and at most a quarter is then used |
| `Growth.FillHolder` | ai/src/ai_btree.c:185-234 | putting n different digests, n at most 32, into a new holder leaves them in an array, in order, and the holder weighs 11 + 20 * p, where p is the least power of two not below n |
| `Growth.TreeWeight` | ai/src/ai_btree.c:313-347 | a holder with a tree weighs 81 bytes, 368 for each leaf and 520 for each other node of the tree in memory |
| `Growth.FillKey` | ai/src/ai_btree.c:300-363 | putting n different digests, 0 < n <= 32, under a key that has none adds exactly those pairs to any index and 11 + 20 * p to its nsize, where p is the least power of two not below n |
| `Growth.FillIndex` | ai/src/ai_btree.c:300-363 | so an index with one such key has nsize 11 + 20 * p |
| `Growth.NothingLeft` | ai/src/ai_btree.c:378-436 | an index that holds no pair has no key and nsize 0 |
| `Sindex.TotalIns` | ai/src/ai_btree.c:313-323 | adding a key with a new holder adds its bytes to the sum over all keys |
| `Sindex.TotalDel` | ai/src/ai_btree.c:406-433 | deleting a key takes its holder's bytes from the sum |
| `Sindex.Index.constructor` | ai/src/ai_btree.c:1041-1051 | an empty index: no pairs, nsize 0, and nodes of the given number of slots |
| `Sindex.Index.FindKey` | ai/src/ai_btree.c:301-312 | the holder of a key, exactly when the index has a pair with that key |
| `Sindex.Index.Add` | ai/src/ai_btree.c:300-363 | the set of (key, digest) pairs gains exactly the pair; KeyFound exactly when it was there; every key has a non-empty holder; nsize stays the sum of the holders' bytes; trees stay trees; the returned cost is the change in nsize: 31 for a new key, whose holder then has that digest alone, and for a key whose fewer than 32 digests are in an array 0, or 20 times their number when the digest is new and the array, by its weight, full |
| `Sindex.Index.Rem` | ai/src/ai_btree.c:378-436 | the set of pairs loses exactly the pair; KeyNotFound exactly when it was absent; a key whose holder is empty goes, with its bytes |
| `Query.FromTreeIsSel` | ai/src/ai_btree.c:530-572 | the tree loop returns the queryable digests of a prefix, which is everything unless the batch is full |
| `Query.ResumeIsFresh` | ai/src/ai_btree.c:634-699 | resuming after a full batch is the same as a fresh walk over what was not passed |
| `Query.BatchFacts` | ai/src/ai_btree.c:634-699 | a batch returns at most bsize + 31 pairs, only wanted ones, each once, in order; if it is not full it returned everything still wanted |
| `Query.ExactlyOnce` | ai/src/ai_btree.c:634-720 | over any number of batches, each of its own size, with any puts between them (arrays may become trees), a range query returns only queryable in-range pairs that are in the state its last batch saw, none twice, and once it has ended it has returned every such pair that was there at the start |
| `Query.QueryEnds` | ai/src/ai_btree.c:634-720 | the query ends: it fills no more batches than there are pairs in the last state, so without puts no more than there are pairs |
| `Query.AfterResumable` | ai/src/ai_btree.c:656-670 | the context left by full batches can be resumed on every later state |
| `EqualityQuery.EqIsRange` | ai/src/ai_btree.c:604-627 | on a tree an equality query is a range query over one key |
| `EqualityQuery.EqualityExactlyOnceIff` | ai/src/ai_btree.c:604-627 | a finished equality query, with batches of any sizes, has returned everything and only what is there; it returned nothing twice if and only if it did not fill a batch from an array that had become a tree before the next batch, or no digest lies above the one the context held at the start |
| `EqualityQuery.EqualityRepeats` | ai/src/ai_btree.c:604-627 | the converse is not empty: 32 digests in an array, one put, and the second batch returns them again |
| `IndexQuery.DrainTree` | ai/src/ai_btree.c:547-567 | the loop over a nested cursor computes the batch's tree part |
| `IndexQuery.FromNbtr` | ai/src/ai_btree.c:530-572 | the same from the nested tree in memory, whole or from the digest the last batch stopped at |
| `IndexQuery.FromArray` | ai/src/ai_btree.c:575-597 | the loop over an array computes the batch's array part |
| `IndexQuery.WalkKeys` | ai/src/ai_btree.c:646-697 | the loop over the outer cursor computes the walk over all keys |
| `IndexQuery.RangeBatch` | ai/src/ai_btree.c:634-699 | one batch on an index in memory is the batch of the abstract query on its cells |
| `IndexQuery.ViewGood` | ai/src/ai_btree.c:301-360 | the cells of a valid index are in key order and hold exactly its pairs |
| `IndexQuery.ViewGrows` | ai/src/ai_btree.c:301-360 | after puts every cell has grown: no pair is gone and no tree has become an array |
| `IndexQuery.PutPair` | ai/src/ai_btree.c:722-748 | a put on the index in memory, as the query sees it |
| `IndexQuery.RunQuery` | ai/src/ai_btree.c:634-748 | end to end on the heap, with a size for each batch and arbitrary puts after each full one: the index holds the old pairs and those put in the full rounds; the query returns only pairs of the index in range and queryable, none twice, at least as many as the full batches ask for, and every such pair of the start once it has ended; for 4096 partitions the same is stated on the 20 bytes of each digest, whose partition is the low 12 bits of the first two; it ends exactly when a round is left over, and always when there are more rounds than pairs |
| `Mutex.StepKeeps` | cf/src/cf_mutex.c:70-153 | every step of lock, trylock, unlock and their spinning forms, by any thread, keeps: at most one holder; word 0 iff no holder; a sleeper implies word 2 or a thread about to wake or awake in the slow path; no holder's unlock crashes |
| `Mutex.RunInv` | cf/src/cf_mutex.c:70-153 | so it holds in every state of every interleaving of any number of threads |
| `Mutex.NoLostWakeup` | cf/src/cf_mutex.c:70-98 | when every thread is idle or asleep, none is asleep |
| `Mutex.CanAlwaysWake` | cf/src/cf_mutex.c:70-98 | from every reachable state with a sleeper, threads already inside and awake can bring about a wake-up by their own steps alone, without a new caller and without a spurious wake-up |
| `Mutex.LostWakeup` | cf/src/cf_mutex.c:70-98 | which is not so of every state: behind a word of 1 no such steps wake a sleeper, and the invariant rules that state out |
| `Mutex.RefinesLock` | cf/src/cf_mutex.c:70-153 | each step is, for the set of holders, nothing, an acquisition of the free lock, or the holder's release; a trylock fails only when the lock is held |
| `Arena.HandleParts` | cf/include/arenax.h:124-129 | stage and element of a handle give back the handle and the other way round, for every handle the arena makes |
| `Arena.Disjoint` | cf/src/arenax.c:196-201 | elements lie in their stage and different elements do not overlap |
| `Arena.Arena.constructor` | cf/src/arenax.c:80-126 | an arena with nothing live and nothing free, of the given element size, capacity and number of stages, 0x1000000 and 256 where 0 is given, with one stage and element 0 of it skipped |
| `Arena.Arena.Separate` | cf/src/arenax.c:129-201 | distinct live or free handles resolve to disjoint ranges inside their stages, and none is 0 |
| `Arena.Arena.AddStage` | cf/src/arenax_ce.c:39-59 | one more stage, or nothing changes: when the limit is reached or the memory is refused |
| `Arena.Arena.Alloc` | cf/src/arenax.c:128-174 | a handle that was not live, from the free list before the end; 0 exactly when neither has one, and then nothing is lost; from the end it is the next element of the last stage, or the first of a new one; live and free stay disjoint and together are the elements ever given out |
| `Arena.Arena.Free` | cf/src/arenax.c:177-193 | the handle leaves the live ones and becomes the head of the list threaded through the free elements' own bytes, with the old head written at offset 8 of the element |
| `Arena.Arena.Store` | cf/src/arenax.c:177-193 | an owner's write inside a live element is made and keeps the free list, whose links are inside free elements |
| `ShashBucket.Put` | cf/src/shash.c:181-217 | in its bucket, value replaced in place or element added behind the head; an unused head has no chain |
| `ShashBucket.Delete` | cf/src/shash.c:656-712 | in its bucket, with the copy of the second element into the head |
| `ShashBucket.ReduceMeans` | cf/src/shash.c:472-553 | a reduce of distinct keys that is not stopped shows every element once and leaves exactly those not deleted |
| `ShashBucket.KeptUnlessDropped` | cf/src/shash.c:472-553 | stopped or not, exactly the elements that were shown and answered with a delete are gone |
| `ShashBucket.StopsLast` | cf/src/shash.c:472-553 | a reduce stops exactly when the last answer, and no earlier one, says so |
| `ShashBucket.Reduce` | cf/src/shash.c:472-553 | the in-place loop, with deletes that copy the next element into the head while iterating, shows the elements in order and leaves those kept |
| `ShashBucket.Clear` | cf/src/shash.c:423-470 | all elements of a bucket are gone and counted |
| `Shash.SumIsSize` | cf/src/shash.c:632-654 | the number of elements in the buckets is the size of the map they hold |
| `Shash.Shash.constructor` | cf/src/shash.c:109-146 | an empty map |
| `Shash.Shash.Put` | cf/src/shash.c:181-217 | the map with k mapped to v; n_elements is its size |
| `Shash.Shash.PutUnique` | cf/src/shash.c:221-259 | found exactly when k is in the map, which then stays; else k is added |
| `Shash.Shash.Update` | cf/src/shash.c:262-310 | the map with k mapped to what the caller's function makes of the old value, given only if there is one and the caller has room for it |
| `Shash.Shash.Get` | cf/src/shash.c:312-337 | the value of k in the map, or none |
| `Shash.Shash.Pop` | cf/src/shash.c:370-412 | the value that was there, and the map without k |
| `Shash.Shash.Reduce` | cf/src/shash.c:472-553 | over the whole table: elements of the map are shown, none twice; it stops exactly at the first answer that says so, and otherwise shows all; stopped or not, exactly the elements answered with a delete are gone; n_elements is the size of what is left |
| `Shash.Shash.DeleteAll` | cf/src/shash.c:423-470 | the empty map, n_elements 0 |
| `Vmapx.MatchIsName` | cf/src/vmapx.c:280-286 | a zero-padded stored key matches a query exactly when they are the same name; a query with a NUL inside matches none |
| `Vmapx.StepKeeps` | cf/src/vmapx.c:184-236 | every step of the one writer, whose put begins with its own walk along the row, and of any number of lock-free readers keeps the links of the hash, the distinct names and the readers' places right |
| `Vmapx.PutCorrect` | cf/src/vmapx.c:184-236 | an answered put: the index of a name added or already there is that of the name for good; a name is refused as bad only if it is, and as too many only if it was not there and every slot was taken |
| `Vmapx.PutOutcome` | cf/src/vmapx.c:184-236 | in every run, from the state a put begins in to its answer, whatever readers do meanwhile: exists exactly if the name was counted then, with its index; bad parameter exactly if it is too long or has a NUL; full exactly if it is neither and no slot was left; added exactly otherwise, with the old count as index, and vector and count change only then, by that name at the end |
| `Vmapx.LookupOutcome` | cf/src/vmapx.c:158-174 | in every run, a lookup that ends answers for the name it began with: a found index is that of the name, and a name that was counted when the lookup began, and not by a put still under way, is found |
| `Vmapx.PutThenLookup` | cf/src/vmapx.c:158-236 | every lookup that begins after a put has answered with an index ends by finding that index |
| `Vmapx.RunInv` | cf/src/vmapx.c:335-398 | so they are right in every state of every run |
| `Vmapx.IndexesStable` | cf/src/vmapx.c:184-236 | from any state to any later one a counted name keeps its index and count does not drop |
| `Vmapx.LookupCorrect` | cf/src/vmapx.c:158-174 | a lookup that succeeds returns an index below count whose entry is the queried name, then and in every later state; a lookup of a name that was complete when it began does not fail; different indexes have different names |
| `Msg.WireSize` | cf/src/msg.c:229-242 | 6 bytes for the header and for each set field 7 for a 32-bit number, 11 for a 64-bit one and 7 and its length for any other: the offset behind the last field |
| `Msg.BodyLength` | cf/src/msg.c:1096-1117 | the bytes stamped are as many as announced, for every template, with or without gaps in its ids |
| `Msg.ToWire` | cf/src/msg.c:257-280 | the buffer is exactly as long as announced; its bytes, most significant first, are the size of the rest (4, modulo 2^32), the type (2), and for each set field in order of ids its id (2), its type (1) and the number (4 or 8) or the length (4) and the bytes; there is nothing else |
| `Msg.Parse` | cf/src/msg.c:288-396 | on every buffer the loop ends and reads inside it; by its bytes: -1, -2 and -3 exactly when short, truncated or of another type; otherwise fields lie one behind the other as their type and length bytes say, up to a place where none fits: 0 if that is the end, -4 if fewer than 7 bytes are left, -5 if the field there is longer than what is left; each field of the message has the value spelled by the last of those fields with its id and type, or is as it was |
| `Msg.Reading` | cf/src/msg.c:312-393 | every stretch of bytes is read in that one way |
| `Msg.HeaderBytes` | cf/src/msg.c:261-277 | the size and the type that the header's six bytes spell |
| `Msg.ReadField` | cf/src/msg.c:314-393 | a stamped field is consumed whole and taken with its value exactly when the template has its id with the same type |
| `Msg.ParseIsProject` | cf/src/msg.c:288-396 | parsing a written message is projecting it field by field |
| `Msg.RoundTrip` | cf/src/msg.c:257-396 | parsing into a fresh message of another template gives exactly the fields with the same id and type; under the same template the whole message |
| `Msg.WriteThenParse` | cf/src/msg.c:257-396 | writing and then parsing, with anything behind the message in the buffer, gives code 0 and that projection |
| `Preserve.Message.constructor` | cf/src/msg.c:166-197 | a fresh message: no field set, no scratch used |
| `Preserve.Message.Save` | cf/src/msg.c:1168-1205 | the value is kept, now in the next scratch bytes if they suffice and else in a new block; scratch in use is not touched |
| `Preserve.Message.PreserveAll` | cf/src/msg.c:461-477 | all values are kept, in storage of the message that no two fields share and that is not the receive buffer; a message not just parsed is left alone |
| `Hooks.ScrambleInverse` | cf/src/alloc.c:64-65 | the two multipliers are inverse modulo 2^32 for every word |
| `Hooks.PackInverse` | cf/src/alloc.c:274-292 | the site and the delta come back out of the guard word |
| `Hooks.DetectsOverrun` | cf/src/alloc.c:285-320 | with the guard word intact a block is accepted exactly when its marks are intact, and the site found is the one it was allocated at |
| `Hooks.GuardedIsSealed` | cf/src/alloc.c:262-280 | by position and in numbers: a block is as the allocation hook leaves it exactly when its last four bytes spell ((site * 65536 + gap) * 3486784401 + 1) modulo 2^32, least significant first, and the up to four bytes behind the requested ones repeat them; a gap above 0xfffe counts as none and is not marked |
| `Hooks.OverrunIff` | cf/src/alloc.c:285-320 | such a block with its last four bytes intact passes the free hook exactly when none of the up to four bytes behind the requested ones has changed, or the gap is above 0xfffe |
| `Hooks.InsideIsSafe` | cf/src/alloc.c:285-320 | whatever is written to the bytes asked for, the checks pass |
| `Hooks.DoubleFree` | cf/src/alloc.c:300-303 | a block freed before never passes, whatever its other bytes are |
| `Hooks.WriteGuard` | cf/src/alloc.c:262-280 | the guard word is stored least significant byte first and its bytes repeated at the front of the gap, the bytes before that are not touched |
| `Accounting.AddedValue` | cf/src/alloc.c:253-260 | adding with carry to a (hi, lo) pair is addition modulo 2^128 |
| `Accounting.RemovedValue` | cf/src/alloc.c:322-329 | subtracting with borrow is subtraction modulo 2^128 |
| `Accounting.Check` | cf/src/alloc.c:285-320 | the free hook's decoding and its four tests, true exactly when a block passes |
| `Accounting.Counters.constructor` | cf/src/alloc.c:91-100 | no records but the reserved one, nothing live |
| `Accounting.Counters.SiteInfo` | cf/src/alloc.c:206-236 | the thread's own record for the site, new and empty the first time; no other record changes |
| `Accounting.Counters.HandleAlloc` | cf/src/alloc.c:240-281 | the block is live and, byte by byte, sealed as above, the bytes asked for untouched; the thread's record for the site goes up by the block's size modulo 2^128 and no other record changes; for every site the counters of all threads still add up to its live bytes modulo 2^128 |
| `Accounting.Counters.Write` | cf/src/alloc.c:240-281 | an owner's write inside the bytes asked for keeps every guard |
| `Accounting.Counters.HandleFree` | cf/src/alloc.c:284-344 | a live block passes whichever thread frees it, its bytes leave the freeing thread's record for the site it came from, no other record changes, the sums still agree, and its last four bytes then spell the free marker with the freeing site; a block freed before does not pass and nothing changes |

## Left out

- Dirty, evicted and ghost entries of the B-tree (`drt`, `leafd`, `getDR` and the like): every tree made by the index code is clean, and the model has clean trees only.
- Descending cursors and scans with an offset of at least the number of keys, with the garbage-collection list builder that can ask for one.
- `numnodes` of a tree, which the source counts twice on a root split and not on merges, and the key that a delete returns, of which callers use only whether there is one.
- The byte layout of a B-tree node: in the tree operations a node's keys and children are sequences, and a shift of slots is one assignment of the shifted sequence; `Slots` shows that the overlapping moves of keys in the array come to that. The children are moved by memmove.
- 32-bit wrap-around of scion, numkeys and of the byte counts: they are unbounded integers, and scans ask for fewer than 2^32 keys.
- Failing allocations in the index, and where the allocator puts things: the address of a new holder is a parameter or a choice among unused ones.
- Btree.BTree.constructor: takes any number of slots from 3 to 510, of which the source uses 31 and 18.
- Nested.ArrShrink: the buffer is a sequence with a capacity; the copy of bytes by realloc is not modelled.
- Deletes between the batches of a query: exactly-once is stated for puts only, since a resume key that vanishes can leave the context marked as done.
- Records becoming queryable or not during a query: which partitions can be queried is fixed for a query.
- IndexQuery.RunQuery: asks for nodes of at least 17 keys (t >= 9) and fewer than 2^32 pairs, which is what bounds the cursor's depth by its pool of 16 slots. One physical tree of the index is queried; a batch that begins in one and goes on in the next is, in the next, a batch of the remaining size.
- Index creation, destruction, dumps and the locks around the index.
- Real memory ordering: the mutex and the name/index map are interleavings of sequentially consistent steps, and the futex calls are primitives. Fairness is not modelled, so wake-ups are shown to stay possible, not to happen.
- cf_condition, and recursion of one thread on one mutex.
- Arena.Arena.Alloc: the lock around it, the zeroing of elements and the magic word that a freed element carries are not modelled; elements are bytes at integer addresses, and each new stage is placed apart from the others.
- Shash.Shash.Reduce: the answers of the caller's function are a given sequence; a function that calls back into the hash is not modelled. Neither are the locks and cf_shash_get_vlock.
- Shash.Shash.PutUnique and Shash.Shash.Update: the one walk along the bucket in the source is a lookup followed by a put, with the same outcome and no state in between that anything sees.
- Vmapx.LookupCorrect: the values stored beside the names, and torn reads of a name being written, are not modelled; each step reads or writes one field.
- Msg.Parse: the fields' pointers into the receive buffer are values in `Msg`; storage and aliasing are in `Preserve`. Setters, getters, msgpack lists and reference counts are not modelled.
- Accounting.Counters.HandleAlloc: call sites are numbers below 4096; the table that maps return addresses to them and the exhaustion of the pool of records are not modelled, and neither are the arena check and realloc. Words are stored least significant byte first.
- Accounting.Counters.HandleFree: a crash of the source is the result false with nothing changed.
- The server proper under `as/`: of its query threads only what they do to the query context between batches is modelled (a new size, n_bdigs and new_ibtr cleared); clustering, storage, transactions and the rest are not.
- Histograms, dynamic buffers, string helpers, sockets, TLS, logging and hardware discovery: easy next to the above, or input and output.
