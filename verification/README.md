# ZadoDB storage engine: a verified model

ZadoDB is a crash-safe object store. Writes go to a write-ahead log; a sequencer appends and syncs
batches of records and only then acknowledges them. A copy-on-write B+Tree in fixed-size pages holds
one data generation. A checkpoint rotates the log, merges the retired part with the current
generation into a fresh bulk-loaded tree, and switches `CURRENT` to it. Recovery completes or undoes
an interrupted checkpoint. Readers look into an in-memory overlay first and then into a
reference-counted snapshot.

This project models that engine in Dafny and proves what it promises. Everything refines two
abstractions: the map from keys to values, and the history of log records in number order.

| part | modules |
|---|---|
| bytes, keys, log framing | `Bytes`, `Keys`, `Wal`, `LogBytes`, `Layouts` |
| the tree in pages | `Nodes`, `PageStore`, `TreePages`, `TreeWrites`, `Trees`, `Scans`, `Applying` |
| the tree as a value | `KVLists`, `Shapes`, `ShapeOps`, `Fitting`, `Halves`, `SplitBounds` |
| bulk loading and compaction | `Levels`, `LevelBuilds`, `Builders`, `Entries`, `Compaction`, `Storage` |
| crash protocol | `Generations`, `CrashProtocol`, `Recovery`, `Failures` |
| concurrent reads | `Snapshots`, `LiveReads`, `LiveQueries`, `LiveProtocol` |
| the engine | `IdGen`, `Schema`, `Overlays`, `Reopening`, `Queries`, `Engine`, `Service` |

Code that changes things step by step is modelled by methods and classes (`Store`, `Tree`,
`Builder`, `Writer`, `Reader`, `Database`, `Generator`, `Engine`) whose contracts tie the new state
to functions whose laws are lemmas. The two protocols that interleave, crashes on disk and readers
beside swaps, are step systems; their theorems speak of every run, and `LiveProtocol` runs the two
side by side. The programs of `Recovery` make
their disk changes one protocol step at a time, so a crash between any two is covered.

`dafny verify dfyconfig.toml` checks the project.

## What holds only under a condition

Where the code or its comments promise more than the code delivers, the code is modelled as it is,
and the exact condition is proved next to a concrete failing run.

- **Releasing a snapshot.** `Release` drops the count and then reads the retired flag, in two atomic
  operations. If another reader acquires the snapshot in between and a swap follows, the mapping is
  unmapped under that reader (mvcc/snapshot.go:94-98; the package comment at lines 6-8 says
  otherwise). In a run without such an acquisition held snapshots stay mapped; every run with one
  shares its beginning, up to that step, with a run that goes wrong.
- **Splitting by count.** The comment at btree/split.go:15-17 is false at the engine's own entry
  sizes. A leaf split fits for all entry sizes in [s, S] if and only if the bound `Halves.Safe` holds,
  a branch split for all separator sizes if and only if the weaker `Halves.BranchSafe` does;
  `Tree.Insert` says what happens on either side of them. An entry larger than a page that would be
  alone in its leaf makes `splitLeaf` index an empty half, a run-time error.
- **Bulk loading long keys.** The second child of a branch is added unchecked (btree/build.go:112).
  The loaded tree can be read back if and only if every pair fits a page and no leaf but the first
  starts with a key of more than 4044 bytes; a leaf has room for keys up to 4055. Otherwise `Finish`
  returns a root that leads to an unreadable page, and no error. After an empty key the builder
  accepts any key, as an empty last key reads as none.
- **Creating a database.** A crash between the first data file and `CURRENT`
  (recovery/recovery.go:142-163) leaves a directory that no later boot opens.
- **Failed checkpoints.** A checkpoint that returns an error after its rotation leaves the retired
  log behind, and the next rotation renames over it. Rotating is safe if and only if the segment is
  already folded. The protocol theorems assume no rotation over an unfolded one.
- **Overlapping writes to one key.** Logging and publishing are not one critical section
  (engine.go:203-210). Live reads agree with history if no write to a key is logged while an earlier
  one to it waits to be published, and every violation can be continued to a stale read.
- **Consecutive lookups.** A lookup reads the overlay, releases the lock and then takes the snapshot
  (engine.go:214-228). Each result is current by itself, but a second lookup can return an older
  change than the first. It can if and only if the first one missed the overlay and ended while the
  snapshot held a newer change of the key than the overlay.
- **Batches.** CreateObjectsBulk says that readers see a batch atomically (engine.go:377-378). A query
  does not always: when a checkpoint is pruned between its two reads and one of the new objects has
  been changed since, it can show that object and miss the others. A batch that was finished before
  the query can be torn in this way if and only if the query's snapshot does not hold it. A query
  shows a batch of new objects whole if nothing is pruned between its reads, or if no finished write
  has changed an object of the batch. Lookups one after the other never miss an object of a batch of
  new keys after showing another.
- **Refused writes.** A record logged before another one of its batch was refused is answered with an
  error (wal/sequencer.go:186-201), yet the next checkpoint brings it into effect.
- **Queries across a checkpoint.** A query takes its snapshot before the overlay (engine.go:446-474)
  and can miss a key in between. From any state it can if and only if a write to the key succeeded
  that its snapshot does not hold; with no pruning between its two reads it is exact.
- **Ids after a restart.** Counters are rebuilt from the ids that tree and log still show, so the id
  of an object deleted and compacted away is given out again after a restart, against
  idgen/idgen.go:31-32. What holds is that no id collides with a present object.
- **Nested batches and unknown operations.** Compaction stores a row for them, entry-by-entry
  application refuses them; the two agree if and only if there are none.

## Model

| member | source | states |
|---|---|---|
| `Bytes.LessOrder` | internal/storage/btree/node.go:79-104 | `Less`, the order the comparison decides, is irreflexive, transitive and total: a strict total order on byte strings, which every sortedness claim below rests on |
| `Bytes.LessIsLexicographic` | internal/storage/btree/node.go:79-104 | and it is lexicographic: one string is smaller exactly if, where the two first differ, it has the smaller byte or has ended |
| `Bytes.CompareBytes` | internal/storage/btree/node.go:79-104 | the comparison loop answers -1, 0 or 1 exactly as the first string is smaller, equal or larger in that order |
| `Bytes.PrefixIsRange` | internal/storage/btree/split.go:63-74 | a key starts with a prefix if and only if it is at or above the prefix and below its upper end, with no upper end when the prefix is empty or all 0xFF |
| `Bytes.PrefixUpper` | internal/storage/btree/split.go:65-74 | the backward loop over the buffer finds exactly that upper end |
| `Bytes.LERoundTrip` | internal/storage/btree/encode.go:41-74 | reading back a little-endian field of any width gives the number written, for every number that fits the width |
| `Bytes.LEOfFour` | internal/storage/btree/encode.go:41-74 | which byte goes where: the least significant comes first |
| `Bytes.BEMonotone` | internal/storage/wal/record.go:102-115 | big-endian fields of one width sort like the numbers they hold |
| `Keys.IndexZero` | internal/storage/wal/record.go:139-146 | the loop finds the first separator byte, or -1 exactly when there is none |
| `Keys.SplitScopeInverts` | internal/storage/wal/record.go:129-137 | splitting a key body at its first separator recovers project and class, for default and named projects |
| `Keys.DecodeObjectInverts` | internal/storage/wal/record.go:102-163 | decoding inverts ObjectKey for every pair of separator-free names and every int64 id, and no object key decodes as a class key |
| `Keys.DecodeClassInverts` | internal/storage/wal/record.go:92-100 | decoding inverts ClassKey, and no class key decodes as an object key |
| `Keys.KeysInjective` | internal/storage/wal/record.go:92-178 | object, class and scope keys are equal if and only if all their parts are; the two namespaces never meet |
| `Layouts.KeysOnDisk` | internal/storage/wal/record.go:84-127 | the bytes of class and object keys, in both projects: 1 or 2 in front, the project and a zero only if it is named, a zero and eight bytes of id behind the class |
| `Layouts.IdsOnDisk` | internal/storage/wal/record.go:111-113 | ids are eight bytes, most significant first, two's complement below zero |
| `Keys.ObjectKeysAscend` | internal/storage/wal/record.go:102-115 | within a class, object keys sort exactly like their non-negative ids |
| `Keys.ClassesComeFirst` | internal/storage/wal/record.go:64-71 | all class rows sort before all object rows |
| `Keys.PrefixOverlap` | internal/storage/wal/record.go:117-127 | exactly which object keys a class prefix matches: the class itself, the named project spelled like a default-project class, and default-project objects whose id bytes start with the class name and a separator |
| `Keys.ScanSelectsExactlyTheClass` | internal/storage/engine.go:446-455 | prefix scan plus decoded-scope filter selects an object key if and only if it belongs to that class, and never a class key |
| `Keys.PrefixAloneIsNotEnough` | internal/storage/engine.go:448-450 | an object of a named project can lie under the prefix of a default-project class, all names free of separators: the filter is needed |
| `Wal.Header` | internal/storage/wal/writer.go:66-93 | the header buffer, filled field by field, followed by the payload is the frame of the record |
| `Layouts.RecordParts` | internal/storage/wal/writer.go:66-93 | the bytes of a record at their offsets, magic number and version spelled out |
| `Wal.Writer.Append` | internal/storage/wal/writer.go:66-93 | appends exactly one frame and moves the offset by its length; a payload above the limit is refused and changes nothing |
| `Wal.Reader.Next` | internal/storage/wal/reader.go:41-75 | one read returns a record if and only if a whole header with the magic number and version 1 is there, the length is at most 64 MiB, the payload is whole, and the stored sum is the checksum of bytes 8 to 20 and the payload; clean end and bad version exactly in their cases, corrupt otherwise; the durable offset moves only past a record, by exactly its length |
| `Wal.ReadAll` | internal/storage/wal/reader.go:41-75 | the loop all consumers run ends, and returns every record up to the first read that is not one, with the durable length |
| `Wal.FrameParses` | internal/storage/wal/reader.go:41-75 | a written frame is read back as its record whatever bytes follow, for every checksum function |
| `Wal.ReplayAppend` | internal/storage/wal/reader.go:41-75 | reading is compositional: written records first, then whatever the rest reads as |
| `Wal.ReadingStops` | internal/storage/wal/reader.go:41-75 | reading a log returns the records up to the first bytes that are no whole record with a matching sum, and reports where those start |
| `Wal.AlteredRecordStopsReading` | internal/storage/wal/reader.go:68-72 | for every log: if a record's number or payload was changed on disk and its sum tells, reading returns exactly the records before it and stops as corrupt where it starts, whatever follows |
| `Wal.TornTail` | internal/storage/wal/reader.go:41-75 | for every record list and every byte cut of its encoding, reading gives exactly the records wholly before the cut, their byte length as offset, a clean end exactly when the cut is at a boundary, and never a version error |
| `Wal.SyncedRecordsSurvive` | internal/storage/wal/reader.go:41-75 | records whose bytes lie before the cut are all read back, and nothing that was not written is |
| `Wal.TruncateThenAppend` | internal/storage/recovery/recovery.go:117-124 | truncating any file at its durable offset and appending records reads back the old records and the new ones to a clean end; with none appended, a second recovery sees what the first saw |
| `Wal.AppendBehindTornTailIsLost` | internal/storage/recovery/recovery.go:117-121 | without the truncation: behind any records and any proper part of a frame, appended records are invisible to every reader if and only if the part and what follows it do not parse as a record together, which they never do when at most four bytes of the frame are left |
| `Entries.ParseDeltas` | internal/storage/checkpoint/checkpoint.go:154-198 | the read loop computes the last change per key of all records above the base position, its keys sorted strictly ascending, and the highest number seen |
| `Entries.MergeIsFold` | internal/storage/checkpoint/checkpoint.go:181-190 | compaction preserves meaning: net changes merged over any base equal the mutations applied one by one, for any list |
| `Entries.ApplyAgreesIffKnown` | internal/storage/apply/apply.go:18-36 | entry-by-entry application gives the compaction result if and only if every mutation is of a known kind; otherwise it stops with an error where compaction goes on |
| `Entries.NestedBatchDisagrees` | internal/storage/apply/apply.go:27-36 | a batch inside a batch is a concrete such mutation |
| `Entries.FoldAppend` | internal/storage/apply/apply.go:18-25 | applying two lists one after the other is applying their concatenation |
| `Nodes.EncodedSize` | internal/storage/btree/encode.go:17-36 | the computed size is the length of the bytes the node encodes to |
| `Nodes.EncodeTo` | internal/storage/btree/encode.go:41-74 | the append loops emit the node layout, cut off at the body size |
| `Nodes.DecodeNode` | internal/storage/btree/encode.go:76-162 | the decoding loops accept and return exactly what the declarative parser does, bounds errors included |
| `Nodes.NodeRoundTrip` | internal/storage/btree/encode.go:41-162 | decoding a written node gives the node back if and only if it fits the body; a node that does not fit decodes to an error |
| `Layouts.FlagDecides` | internal/storage/btree/encode.go:105-131 | of an entry on a page, flag 1 means a spilled value and every other flag an inline one |
| `Layouts.PageKinds` | internal/storage/btree/encode.go:76-86 | a leaf and a branch go to their own kinds of page, and no other page decodes as a node |
| `PageStore.Store.Allocate` | internal/storage/page/pager.go:113-117 | hands out the next id, never one that holds a page |
| `PageStore.Store.WritePage` | internal/storage/page/pager.go:122-130 | changes the one page written and no other |
| `PageStore.ReadAfterWrites` | internal/storage/page/pager.go:122-146 | a page reads back as it was last written, whatever other pages are written in between |
| `PageStore.Store.WriteNode` | internal/storage/btree/btree.go:161-167 | a node written to a fresh page leaves every earlier page as it was |
| `PageStore.Split` | internal/storage/btree/encode.go:169-231 | the chunks join to the value, all of 4052 bytes but the last, as many as the ceiling of length over 4052, one for the empty value |
| `PageStore.WriteOverflow` | internal/storage/btree/encode.go:169-208 | spills a value of any length over fresh, consecutively allocated pages; the chain read from the head spells the value |
| `PageStore.ReadOverflow` | internal/storage/btree/encode.go:210-231 | the read loop ends and returns what the chain spells, an error exactly where it is broken |
| `PageStore.ReadsWhatIsSpelled` | internal/storage/btree/encode.go:210-231 | reading from a page gives a value if and only if a list of overflow pages starts there, each with room for the bytes it announces and leading to a later one, the last to none, whose bytes together are the value |
| `PageStore.ChainStable` | internal/storage/btree/encode.go:210-231 | a chain reads the same after any further page writes |
| `PageStore.Materialize` | internal/storage/btree/encode.go:235-241 | gives the inline value or the one the chain spells |
| `PageStore.MakeLeafEntry` | internal/storage/btree/btree.go:93-108 | the entry stands for the pair; the value is spilled exactly when longer than 512 bytes |
| `KVLists.PutRefinesUpdate` | internal/storage/btree/btree.go:37-71 | replacing or adding a key in a sorted list is a map update |
| `KVLists.RemoveRefinesRemoval` | internal/storage/btree/btree.go:73-86 | removing a key from the list is map removal |
| `KVLists.FindIsLookup` | internal/storage/btree/btree.go:230-258 | finding a key in the list is lookup in the map |
| `KVLists.OnlyTheMiddle` | internal/storage/btree/node.go:68-77 | an operation on a key concerns only the stretch of a sorted list that can hold it |
| `Shapes.ContentsOrdered` | internal/storage/btree/btree.go:309 | from separator bounds [keys[i-1], keys[i]) alone: the in-order contents of a tree of any height are strictly sorted and within the bounds of its root |
| `Shapes.FindDescends` | internal/storage/btree/node.go:68-77 | looking a key up in a branch is looking it up in the chosen child |
| `ShapeOps.MaybeSplitKeeps` | internal/storage/btree/split.go:12-45 | splitting a leaf or a branch keeps order, separator bounds and contents |
| `ShapeOps.InsertCorrect` | internal/storage/btree/btree.go:119-184 | insertion at any height, through cascading splits, keeps sortedness, separator bounds and equal leaf depth, and its contents are the old ones with the pair put in |
| `ShapeOps.DeleteCorrect` | internal/storage/btree/btree.go:186-228 | deletion keeps the same invariants at the same height, and its contents are the old ones without the key |
| `TreePages.RootStable` | internal/storage/btree/node.go:1-6 | copy-on-write immutability: under any further page writes a captured root stands for the same tree, so Get and Scan from it return the same results |
| `TreePages.NodeSizeIs` | internal/storage/btree/encode.go:17-38 | the fit test on a page is the fit test on the pairs or separators it holds |
| `TreePages.WrittenNode` | internal/storage/btree/btree.go:159-184 | a node that fits, written to a page above its children, makes that page the root of its subtree |
| `TreePages.UnreadableMeansNoTree` | internal/storage/btree/encode.go:66-72 | a page that leads to one that does not decode stands for no tree at all |
| `Halves.SafeHalvesFit` | internal/storage/btree/split.go:15-27 | a list of sizes that fitted before one was added and lies within safe bounds splits by count into halves that fit |
| `Halves.UnsafeHalves` | internal/storage/btree/split.go:15-27 | outside the safe bounds a list of sizes exists for which a half does not fit |
| `SplitBounds.SafeLeafInsert` | internal/storage/btree/split.go:15-27 | a leaf that fits and takes one entry within safe sizes yields one page that fits or two that do |
| `SplitBounds.UnsafeLeafInsert` | internal/storage/btree/split.go:15-27 | outside the safe sizes, a sorted leaf that fits and one more entry whose split overflows a page |
| `SplitBounds.SplitFitsExactly` | internal/storage/btree/split.go:15-27 | the split bound for leaves is exact: every insertion into every fitting leaf with entry sizes in [least, most] splits into fitting halves if and only if the bound on least and most holds |
| `SplitBounds.BranchSplitFitsExactly` | internal/storage/btree/split.go:29-45 | the same for branches, whose middle separator moves up: splitting every fitting branch that takes one more separator gives fitting halves if and only if a weaker bound holds |
| `Halves.SafeIsBranchSafe` | internal/storage/btree/split.go:29-45 | the leaf bound implies the branch bound |
| `Halves.SafeOuterHalvesFit` | internal/storage/btree/split.go:29-45 | without the middle size, both halves of a list within the branch bound fit |
| `Halves.UnsafeOuterHalves` | internal/storage/btree/split.go:29-45 | outside that bound a list of sizes exists whose left half does not fit |
| `SplitBounds.EngineSizesUnsafe` | internal/storage/btree/split.go:15-17 | at the engine's own sizes the comment's claim fails: an ordered leaf that fits and one more entry, all keys of at most 267 bytes, all values of at most 512, all entries of 18 to 786, whose split overflows a page |
| `SplitBounds.SafeInsertRoot` | internal/storage/btree/btree.go:37-71 | under safe limits an insertion at any height keeps every page within its body and the tree within the limits, so any sequence of insertions does |
| `Fitting.InsertKeepsFit` | internal/storage/btree/btree.go:119-184 | if the splits along the insertion path fit, every page of the new tree does |
| `Fitting.DeleteKeepsFit` | internal/storage/btree/btree.go:186-228 | deletion never makes a page too large |
| `TreeWrites.LeafSearch` | internal/storage/btree/node.go:54-66 | the loop stops at the key, or at the first larger one, which is the insertion point |
| `TreeWrites.FindChild` | internal/storage/btree/node.go:68-77 | the loop finds the first child whose upper separator exceeds the key |
| `TreeWrites.WriteMaybeSplit` | internal/storage/btree/btree.go:159-184 | writes the node to one fresh page, or its halves to two, exactly as the size test decides; stops exactly at a leaf of one entry that does not fit, which cannot be split |
| `TreeWrites.InsertLeaf` | internal/storage/btree/btree.go:129-141 | the rewritten leaf pages stand for the leaf with the pair put in if they fit, and one of them cannot be read if not; stops exactly when the entry is larger than a page and alone |
| `Trees.InsertAt` | internal/storage/btree/btree.go:119-157 | for an entry of any size: the rewritten path stands for the functional insertion if every split along it fits, and leads to an undecodable page if one does not; stops exactly when the entry is larger than a page and alone in its leaf |
| `Trees.DeleteAt` | internal/storage/btree/btree.go:186-228 | the rewritten path stands for the functional deletion; an absent key writes no page |
| `Trees.GetFrom` | internal/storage/btree/btree.go:230-258 | the descent from any root ends and returns the value of the key in the contents, or absence |
| `Trees.Tree.NewEmpty` | internal/storage/btree/btree.go:14-16 | an empty tree stands for the empty map |
| `Trees.Tree.Insert` | internal/storage/btree/btree.go:37-71 | for any key and value: touches no existing page; the new root stands for the updated map if and only if every split on the path fits, and otherwise leads to a page that cannot be read back; stops, tree unchanged, exactly when the entry is larger than a page, the tree not empty and the entry alone in its leaf |
| `Fitting.OversizedNeverFits` | internal/storage/btree/split.go:12-17 | an entry larger than a page never fits, at any height |
| `Trees.Tree.Delete` | internal/storage/btree/btree.go:73-86 | touches no existing page; the new root stands for the map without the key |
| `Trees.Tree.Get` | internal/storage/btree/btree.go:27-29 | returns the map's value for the key |
| `Scans.OfferIsPrefix` | internal/storage/btree/btree.go:298-301 | offering a list to a visitor calls it on the list up to and with its first refusal |
| `Scans.PrunedChild` | internal/storage/btree/btree.go:309-315 | a child skipped by either comparison holds no key with the prefix |
| `KVLists.MatchingExactly` | internal/storage/btree/btree.go:260-323 | the pairs a scan is about are exactly those whose key starts with the prefix |
| `Scans.Walk` | internal/storage/btree/btree.go:270-321 | the recursive walk with its shared stop flag offers exactly the matching pairs of the subtree |
| `Scans.Scan` | internal/storage/btree/btree.go:260-323 | a scan from any root calls the visitor on exactly the pairs with the prefix, ascending, or on those up to its first refusal; every visit but the last was accepted |
| `Applying.One` | internal/storage/apply/apply.go:27-36 | one mutation of any size on a paged tree: its effect on the map if every page it writes fits; an error that changes nothing if its kind is unknown; and otherwise a root that cannot be read, or a stop that leaves the tree as it was |
| `Applying.ApplyEntry` | internal/storage/apply/apply.go:18-25 | a whole entry on a paged tree: the fold of its mutations up to the first unknown one, an error exactly when there is one; if the last mutation applied does not fit, a stop or a root that cannot be read |
| `Applying.SafeGoesWell` | internal/storage/apply/apply.go:18-25 | within limits for which every split fits, all mutations of any list fit |
| `Builders.AcceptedIsSorted` | internal/storage/btree/build.go:40-43 | what Add accepts is strictly ascending, unless it starts with two empty keys |
| `Builders.PackedIsLeaves` | internal/storage/btree/build.go:49-57 | leaves packed full are the ones a greedy cut of the list gives; whether a level over them can be read back depends on the list alone |
| `Builders.ShortKeysLoad` | internal/storage/btree/build.go:109-117 | a list whose pairs fit a page, with keys of at most 4044 bytes, can always be bulk loaded |
| `Builders.TwoPairsLoad` | internal/storage/btree/build.go:109-117 | two pairs that do not fit one page can be bulk loaded if and only if the second key has at most 4044 bytes |
| `Builders.LongKeysAreLost` | internal/storage/btree/build.go:109-117 | two concrete ascending pairs that cannot: keys of 4050 bytes each, which both fit a page |
| `Builders.LoadTwo` | internal/storage/btree/build.go:29-97 | running the builder on any two ascending pairs: neither is refused, and the root stands for them or leads to an unreadable page exactly as the list decides |
| `Builders.Builder.constructor` | internal/storage/btree/build.go:31-34 | a new builder has added nothing |
| `Builders.Builder.FlushLeaf` | internal/storage/btree/build.go:61-77 | the open leaf becomes a page of the lowest level; nothing added so far changes |
| `Builders.Builder.Add` | internal/storage/btree/build.go:39-59 | refuses a key that is not above the last one, unless that was empty; otherwise appends the pair, of any size, starting a new leaf exactly when the open one has no room |
| `LevelBuilds.Pack` | internal/storage/btree/build.go:104-121 | a node takes children until the next one does not fit, and at least two unless it is the last of its level; it overflows its page exactly if it has two and the second starts with a key of more than 4044 bytes |
| `LevelBuilds.BuildInternalLevel` | internal/storage/btree/build.go:99-129 | the level above holds the same contents in the same order, in at most half (rounded up) as many nodes, with correct separators; each of its pages can be read back exactly if everything under it fits, and a reason to fail on one level is one on the next |
| `Levels.LeavesWf` | internal/storage/btree/build.go:61-77 | leaves cut from a sorted list, with their first keys, form a level in order |
| `Levels.GroupWf` | internal/storage/btree/build.go:104-121 | a run of neighbours becomes a branch whose separators are the first keys of all but its first child |
| `Builders.Builder.Finish` | internal/storage/btree/build.go:79-97 | ends; the leaves are the greedy cut of what was added; the root stands for a tree with exactly that contents, in order with all leaves at one depth for a sorted stream, if and only if every pair fits a page and no leaf but the first starts with a key of more than 4044 bytes; otherwise it leads to an unreadable page, without an error |
| `Compaction.MergedIsMerge` | internal/storage/checkpoint/checkpoint.go:200-262 | merging the sorted base with the sorted changes gives a sorted list that stands for the base with the changes applied, deletions dropped |
| `Compaction.FlushDeltasBefore` | internal/storage/checkpoint/checkpoint.go:208-221 | adds every change whose key comes before the given one and stops there |
| `Compaction.MergePair` | internal/storage/checkpoint/checkpoint.go:224-242 | the scan callback: changes before the pair, then the change to its key or the pair itself; never refused by the builder |
| `Compaction.MergeBuild` | internal/storage/checkpoint/checkpoint.go:204-262 | streams base and changes into a fresh tree without an error; the root stands for their merge, ordered, if and only if the merged list can be bulk loaded, and otherwise leads to an unreadable page |
| `Compaction.BuildGeneration` | internal/storage/checkpoint/checkpoint.go:82-143 | from any base tree and any log: the new generation's contents are the base with all mutations above the base position applied one by one, readable exactly if the merged list can be bulk loaded, and its recorded position is the highest number seen |
| `Storage.FoldOnPages` | internal/storage/checkpoint/checkpoint.go:82-143 | pages and protocol joined: from a tree that stands for a generation, and a log whose contents are an engine's, the built tree can always be read and stands for the generation with the log folded in |
| `Schema.RowsAreShort` | internal/storage/engine.go:584-600 | every row of an engine has a key of at most 267 bytes, as its names have at most 128 |
| `Storage.ScanIsIteration` | internal/storage/btree/btree.go:260-323 | walking the sorted keys of the map a tree stands for visits exactly what a scan of the tree visits, in the same order |
| `Storage.ScanRows` | internal/storage/btree/btree.go:260-323 | a scan of the pages returns the rows of the map under a prefix |
| `Snapshots.RunKeeps` | internal/storage/mvcc/snapshot.go:94-153 | in every interleaving of any number of readers and repeated swaps: reference counts equal the readers counted in, no mapping is unmapped twice, and no retired idle snapshot is forgotten |
| `Snapshots.ReclaimedExactlyOnce` | internal/storage/mvcc/snapshot.go:94-153 | once a replaced snapshot has no references, no swap is under way and no reader is inside Release, it has been unmapped exactly once |
| `Snapshots.NeverBlocked` | internal/storage/mvcc/snapshot.go:123-136 | no reader ever waits for another: each always has a next step |
| `Snapshots.AcquireReturnsTheNewest` | internal/storage/mvcc/snapshot.go:119-136 | in every run, whatever other threads do between its steps: an attempt of Acquire ends holding the newest snapshot, with its count one above that of the other readers, if and only if no swap came between its two looks at the pointer; if one came, it ends about to try again |
| `Snapshots.HoldsOnlyTheNewest` | internal/storage/mvcc/snapshot.go:119-136 | in every run, a reader comes to hold a snapshot only by the second look, at a moment when it is the one the last swap installed |
| `Snapshots.AcquireEnds` | internal/storage/mvcc/snapshot.go:123-136 | from outside a call, or after a failed attempt, a reader that is left alone comes to hold the newest snapshot within six steps |
| `Snapshots.CurrentIsNewest` | internal/storage/mvcc/snapshot.go:140-153 | the current snapshot is the one the last swap installed |
| `Snapshots.CarefulRunsAreSafe` | internal/storage/mvcc/snapshot.go:92-98 | a held snapshot is never unmapped, in every run in which no reader acquires a snapshot between the two atomic reads of another reader's Release of it |
| `Snapshots.HarmCanBeDone` | internal/storage/mvcc/snapshot.go:92-98 | any step that does that can be continued to a state in which a reader holds an unmapped snapshot |
| `Snapshots.CarelessRunsCanGoWrong` | internal/storage/mvcc/snapshot.go:92-98 | so the condition is exact: every run that breaks it shares its beginning, up to that step, with a run that goes wrong |
| `Snapshots.HeldSnapshotCanBeUnmapped` | internal/storage/mvcc/snapshot.go:6-8 | two readers and one swap are enough: a complete run from the start, against what the package comment says |
| `Generations.CompactFollows` | internal/storage/checkpoint/checkpoint.go:82-143 | folding a segment into the generation of everything before it gives the generation of everything up to it |
| `Generations.CompactAgain` | internal/storage/recovery/recovery.go:76-78 | folding a segment that is already in changes nothing: completing an interrupted checkpoint is idempotent |
| `CrashProtocol.StepKeeps` | internal/storage/checkpoint/checkpoint.go:1-18 | every disk change of appending, checkpointing and recovering, and a crash at any point of any of them, keeps the protocol invariant, unless a rotation renames over unfolded records |
| `CrashProtocol.AcknowledgedStays` | internal/storage/recovery/recovery.go:8-16 | through any run, crashes inside recovery included, acknowledged records stay a prefix of the history |
| `CrashProtocol.RecoveredIsHistory` | internal/storage/recovery/recovery.go:52-139 | generation, retired log and live log together recover to exactly the fold of the history |
| `CrashProtocol.CrashSafety` | internal/storage/recovery/recovery.go:1-16 | from an empty directory, at every moment of every run: the disk recovers to the record-by-record fold of a history that contains every acknowledged record and whose numbers strictly increase |
| `CrashProtocol.FoldedNumberSeparates` | internal/storage/checkpoint/checkpoint.go:36-66 | the number returned as folded is at least every retired record's and below every live one's; the batch in progress lies wholly in the live segment |
| `CrashProtocol.ReplyMeansSynced` | internal/storage/wal/sequencer.go:194-201 | an OK reply is given only when every record of the live log is on disk |
| `LogBytes.CutIsCrash` | internal/storage/recovery/recovery.go:166-229 | whatever byte at or behind the synced ones a crash cuts the log file at, reading and truncating it is the protocol's crash and replay steps on whole records |
| `Recovery.Database.BuildGeneration` | internal/storage/checkpoint/checkpoint.go:126-142 | publish, then switch: two protocol steps, after which the current generation is the old one with the retired log folded in |
| `Recovery.Database.Deliver` | internal/storage/wal/sequencer.go:194-201 | one sync covers the whole batch, and only after it are its requests answered OK; a batch with a refused request is answered without one |
| `Recovery.Database.Rotate` | internal/storage/wal/sequencer.go:123-152 | sync, rename, reopen: the retired segment is exactly the old log, the live one is empty, whatever was retired before; the invariant survives unless that still held unfolded records |
| `Recovery.Database.Checkpoint` | internal/storage/checkpoint/checkpoint.go:39-66 | the whole checkpoint: the new generation is the old one with the live log folded in, the log is empty, nothing retired and no older generation is left; the generation is exactly the history unless the rotation renamed over unfolded records |
| `Recovery.Database.AppendAll` | internal/storage/wal/sequencer.go:181-195 | numbers go up by one per request whether or not it is logged; nothing behind the first refused request is logged, and nothing is acknowledged yet |
| `Recovery.Database.RunBatch` | internal/storage/wal/sequencer.go:177-202 | every request gets the next number; exactly the requests before the first refused one are logged, each under its own number; the batch is answered OK exactly when none was refused, after one sync of all of it |
| `Recovery.Database.Recover` | internal/storage/recovery/recovery.go:51-139 | whatever a crash left, boot ends with the fold of the whole history and numbering at its highest number; a second recovery changes nothing; it fails exactly when CURRENT is absent but the first generation is there; the data files left are those up to CURRENT and, behind a leftover rotated log, the one with that log folded in |
| `Recovery.Database.InitFresh` | internal/storage/recovery/recovery.go:141-164 | generation, log, then CURRENT: three protocol steps |
| `Recovery.Database.FinishCheckpoint` | internal/storage/recovery/recovery.go:76-88 | a leftover retired log is folded into the next generation and only then removed |
| `Recovery.Database.ReplayLog` | internal/storage/recovery/recovery.go:110-129 | the live log on top of the generation is the whole history, its torn tail is cut off, and numbering resumes above every record |
| `Failures.BuriedRecordsAreLost` | internal/storage/wal/sequencer.go:134 | a rotation after a failed checkpoint renames over the retired segment; from then on the disk recovers to the history without its records |
| `Failures.AcknowledgedRecordCanBeLost` | internal/storage/checkpoint/checkpoint.go:47-56 | a complete run in which an acknowledged record is lost that way, without any crash |
| `Failures.InterruptedCreationNeverOpens` | internal/storage/recovery/recovery.go:141-164 | a crash between creating the first data file and writing CURRENT leaves a directory no boot can open |
| `LiveReads.RunKeeps` | internal/storage/engine.go:195-212 | in every interleaving of writes, refused batches, rotations, swaps and prunings in which no two writes to one key overlap: overlay entries are the latest successful writes, and a successful write is in the overlay or in the snapshot |
| `LiveReads.LookupIsCurrent` | internal/storage/engine.go:214-228 | with any number of steps between its overlay read and its snapshot, lookup returns a value between the last write finished before it and the last one logged by its end |
| `LiveReads.LookupsGoBackIff` | internal/storage/engine.go:214-228 | two consecutive lookups with any steps before, inside and after them: the second can return an older change of the key than the first if and only if the first missed the overlay and at its end the snapshot held a newer change than the overlay |
| `LiveReads.BehindAnUnfinishedWrite` | internal/storage/engine.go:214-228 | that newer change belongs to a write that is still under way or was refused |
| `LiveReads.LookupCanGoBack` | internal/storage/engine.go:214-228 | for any two writes to a key, a complete orderly run in which one lookup returns the second and the next lookup the first |
| `LiveQueries.QueryIsAtomicIff` | internal/storage/engine.go:440-474 | what a query shows of a record, with any steps between its snapshot and its overlay read: both of two changes or neither, if and only if, where its snapshot holds the record, older changes hide both or neither, and otherwise the record is under way or the overlay has both keys or neither |
| `LiveQueries.QueryIsAtomicUntilReplaced` | internal/storage/engine.go:440-474 | checkpoints or not, a query shows both changes of a finished record or neither as long as no later finished write has replaced one of them |
| `LiveQueries.QueryCanTearIff` | internal/storage/engine.go:377-384 | of a record finished before the query began, and a write to one of its two keys alone: some run makes the query show that key and miss the other, if and only if the query's snapshot does not hold the record |
| `LiveQueries.QueryCanTearABatch` | internal/storage/engine.go:440-474 | for any such record and write, a complete run in which the query shows the rewritten key and misses the other, which nobody changed |
| `LiveQueries.QueryIsAtomicWithoutPruning` | internal/storage/engine.go:440-474 | with no pruning between its two reads, a query shows a record whole unless older changes hide one key and not the other: for new keys, whole or not at all |
| `LiveQueries.NextLookupShows` | internal/storage/engine.go:214-228 | two lookups one after the other: once the first has shown one change of a record, the second shows its change to another key or a newer one, if and only if the overlay holds no older one: for new keys, always |
| `LiveQueries.BatchIsAtomic` | internal/storage/engine.go:377-384 | read at one moment, without any step in between: both changes of a record are visible or neither, if and only if, once the snapshot holds the record, older changes in the overlay hide both or neither |
| `LiveQueries.NewKeysAreAtomic` | internal/storage/engine.go:377-384 | so at one moment the record of a bulk create, whose keys are new, is visible whole or not at all |
| `LiveQueries.ReachableIsTogether` | internal/storage/engine.go:520-527 | every state a run leads to from the empty database keeps the invariants of live reads, and the unreplaced changes of a record are in the overlay all or none |
| `LiveQueries.PrunedTogether` | internal/storage/engine.go:520-527 | in every state a run leads to, the changes of a record that no later finished write replaced are all in the overlay, under that record's number, or none is |
| `LiveQueries.SlippedIff` | internal/storage/engine.go:440-474 | a query's answer for a key is older than a write that had succeeded before it if and only if the key moved from the overlay to a later snapshot while it ran |
| `LiveQueries.QueryIsCurrent` | internal/storage/engine.go:440-474 | for every other key a query is as current as a lookup |
| `LiveQueries.QueryCanMissIff` | internal/storage/engine.go:440-474 | from any state, a query can miss a write of a key if and only if a successful one is not in the snapshot it starts from; then checkpoints make it return the value from before |
| `LiveQueries.QueryWithoutPruning` | internal/storage/engine.go:440-474 | with no pruning between its two reads that is every key |
| `LiveQueries.QueryCanMissAWrite` | internal/storage/engine.go:446-474 | across a whole checkpoint a query misses a key written before it: a complete run |
| `LiveReads.RaceCanReadStale` | internal/storage/engine.go:203-210 | whenever two writes to a key overlap, a run exists in which both return and readers see the older one |
| `LiveReads.RefusedWriteTakesEffect` | internal/storage/wal/sequencer.go:186-201 | from any state, a write that was logged but refused with its batch is what lookups return after the next checkpoints |
| `LiveProtocol.SnapshotIsGeneration` | internal/storage/mvcc/snapshot.go:83-90 | what a read finds in a snapshot of the first records is what the protocol's generation of them holds |
| `LiveProtocol.PublishByNumber` | internal/storage/engine.go:203-210 | publishing to the overlay by record is publishing each mutation to the engine's overlay under the record's number |
| `LiveProtocol.PruneByNumber` | internal/storage/engine.go:520-527 | removing the overlay entries up to the folded number is removing those of the records before the cut |
| `LiveProtocol.LookupByNumber` | internal/storage/engine.go:214-228 | the two reads of a lookup, taken at one moment, give the value in the engine's view |
| `LiveProtocol.StepMatches` | internal/storage/checkpoint/checkpoint.go:39-66 | every step of the disk protocol has its step in memory: appending is logging, renaming the log is the cut, dropping it comes with the swap, the end of the checkpoint with the pruning |
| `LiveProtocol.SwapIsSwitched` | internal/storage/checkpoint/checkpoint.go:51-62 | the snapshot a checkpoint swaps in is the generation the protocol has switched to |
| `LiveProtocol.JointRunIsOrderly` | internal/storage/engine.go:195-228 | along every run of protocol and memory together both invariants hold, and what happens in memory is a run of the kind all results about reads speak of |
| `LiveProtocol.OpenedIsRight` | internal/storage/engine.go:105-143 | what an engine starts from after recovery satisfies the invariants of live reads, and matches its directory |
| `LiveProtocol.OpenedOverlay` | internal/storage/engine.go:158-176 | the overlay that opening rebuilds from the live log is the one these runs start from |
| `LiveProtocol.QuietView` | internal/storage/engine.go:214-228 | with no write under way or refused, snapshot and overlay together show exactly the generation of the whole history |
| `IdGen.Generator.Next` | internal/storage/idgen/idgen.go:24-29 | the next id is one above the counter, an absent counter counting as zero |
| `IdGen.Generator.Observe` | internal/storage/idgen/idgen.go:31-39 | raises one counter to at least the id, and touches no other |
| `IdGen.DropThenNext` | internal/storage/idgen/idgen.go:48-53 | after a drop the class starts again at 1, and every other class keeps its next id |
| `Schema.ScopeNames` | internal/storage/engine.go:62-66 | a scope key decodes to names without separators exactly when it was made from such names |
| `Schema.SoundStep` | internal/storage/engine.go:158-176 | one entry that respects classes keeps rows, class set and counters in agreement |
| `Reopening.ObserveTreeIds` | internal/storage/recovery/recovery.go:231-239 | after the tree scan every counter is the highest object id of its class in the tree, or zero |
| `Reopening.LoadClasses` | internal/storage/engine.go:145-156 | the class set is exactly the set of class rows in the tree |
| `Reopening.ReplayWal` | internal/storage/recovery/recovery.go:166-210 | lists exactly the changes above the generation in log order, each under its record's number, keeps every counter the highest id shown by tree and log, and finds the highest record number |
| `Reopening.ListedNumbers` | internal/storage/recovery/recovery.go:195-207 | a change is listed under a number if and only if the record of that number is above the generation and holds the change |
| `Reopening.ApplyReplay` | internal/storage/engine.go:158-176 | the overlay is the net effect of the replayed changes, each under its record's number, and the class set follows them |
| `Queries.ScanObjects` | internal/storage/engine.go:446-459 | the snapshot part of a query holds exactly the class's objects in the snapshot |
| `Queries.MergeOverlay` | internal/storage/engine.go:460-474 | with the overlay applied, exactly the class's objects in the current map |
| `Queries.Select` | internal/storage/engine.go:476-489 | the ids that pass the filter; an error exactly when the filter fails on some object |
| `Queries.SortIds` | internal/storage/engine.go:490 | the ids strictly ascending, none lost or added |
| `Queries.PagesCover` | internal/storage/engine.go:492-501 | the pages of one limit, each starting where the one before ended, show every id once |
| `Engine.Engine.Open` | internal/storage/engine.go:105-143 | from what any engine left on disk, rebuilt memory agrees with the rows, every id counter is the highest id its class shows in tree or log, the overlay holds the replayed changes under their numbers, and the engine stands for the generation with the live log applied |
| `Engine.Engine.Submit` | internal/storage/engine.go:195-212 | a record within the limit is logged under the next number, published under the same number and changes the map by exactly its effect; a refused one uses up its number and changes nothing else |
| `Engine.Engine.CreateClass` | internal/storage/engine.go:262-281 | each error exactly in its case, the alphabet and lengths of names spelled out; otherwise the class row is logged and added |
| `Engine.Engine.DropClass` | internal/storage/engine.go:306-327 | refused exactly when the class is absent, when an object of it is present, or when its record is too large, and then no counter changes; otherwise only its row goes, its counter is forgotten and every other stays |
| `Engine.RecreatedClassStartsAtOne` | internal/storage/engine.go:319-326 | a class that is dropped and created again gives out id 1 first, whatever it had given out before |
| `Engine.Engine.CreateObject` | internal/storage/engine.go:331-341 | the id is one above the counter, which it uses up, and free: creation never overwrites a present object, also after restarts |
| `Engine.Engine.CreateObjectsBulk` | internal/storage/engine.go:343-385 | adds exactly the given objects under consecutive fresh ids, or, when refused, nothing |
| `Engine.Engine.LookupKey` | internal/storage/engine.go:214-228 | overlay first, then generation, is the map's value |
| `Engine.Engine.GetObject` | internal/storage/engine.go:387-393 | the map's value for the object, an error exactly when the class is absent |
| `Engine.Engine.PutObject` | internal/storage/engine.go:395-409 | each error exactly in its case; otherwise exactly this object's data is replaced |
| `Engine.Engine.DeleteObject` | internal/storage/engine.go:411-425 | each error exactly in its case; otherwise exactly this object is removed |
| `Engine.Engine.QueryObjects` | internal/storage/engine.go:433-507 | of the ids of the class's objects that pass the filter, in ascending order, those from the offset on, clamped to the list, as many as a positive limit allows and otherwise all, each with its current data; each error exactly in its case |
| `Engine.Engine.Checkpoint` | internal/storage/engine.go:511-535 | the map stays; the generation holds all of it, log and overlay are empty |
| `Engine.IdIsReused` | internal/storage/idgen/idgen.go:31-32 | ids can come back, against the comment: the id of an object that was deleted, compacted away and followed by a restart is given out again |
| `Engine.Restart` | internal/storage/engine.go:105-143 | closing and opening again after losing any end of the log gives a valid engine for the kept records, each of them whole, and the same map if none was lost |
| `Service.ReopenableFolded` | internal/storage/checkpoint/checkpoint.go:1-18 | a log can be reopened if and only if its front part can and the rest can on top of the generation the front is folded into |
| `Service.HistoryReopens` | internal/storage/recovery/recovery.go:1-16 | so whether a directory can be opened depends on its history alone, wherever its checkpoints cut it |
| `Service.Start` | internal/storage/engine.go:105-143 | wherever the process died, inside a checkpoint or a recovery included: recovery leaves a generation and a log that the engine opens, and it stands for the whole history; the one failure is the interrupted creation |
| `Service.CrashAndStart` | internal/storage/engine.go:105-143 | a crash that loses an unsynced end of the log, then recovery and opening: the new engine stands for the generation with exactly the kept records applied |
| `Service.ServedHistory` | internal/storage/engine.go:195-212 | whatever a valid engine has logged since it opened, its directory's history can be reopened |
| `Service.CheckpointBoth` | internal/storage/engine.go:511-535 | the engine's checkpoint and the directory's keep the two in step and the map as it was |

## Left out

- Page headers, their checksum and the meta page bytes (page/page.go, page/pager.go:22-55): a page
  is its type and payload, a generation carries its root and position beside it.
- The checksum's arithmetic and the record payload encoding: both are function parameters, and the
  results hold for every choice; a flipped bit that the checksum misses is not modelled.
- File handles, memory mapping, file names, directory syncing: reduced to atomic renames, an atomic
  switch of `CURRENT` and a synced prefix of the log. A rename or a created file lost in a crash
  because its directory was not synced is not modelled.
- Disk errors without a crash, except a checkpoint giving up after its rotation, a failed reopen
  after it, and refused appends.
- `MappedFile.Close` with readers in flight, and how often Acquire retries.
- Wrap-around of the 64-bit record numbers, reference counts and file offsets: they are unbounded.
- HTTP, configuration, timers, statistics, timestamps, queue capacity, listing of projects and
  classes, and what Submit answers during shutdown.
- Concurrency inside `Engine`: its operations run one at a time; interleavings are the subject of
  `Snapshots`, `LiveReads` and `LiveQueries`.
- `Engine`, `Queries` and `Reopening` walk the sorted keys of a generation's map where the code scans
  its tree; `Storage` shows that the two visit the same rows.
- Compaction.MergeBuild: the pairs of the base are scanned first and then merged, where the code
  merges inside the scan's callback; base and target are different files, so the order of reads and
  writes between them does not show. Keys have at most 65535 bytes, which is what their length field
  holds, and page numbers are left.
- Snapshots.RunKeeps: one swap runs at a time, as the engine's checkpoint lock ensures; several
  concurrent swaps are not modelled.
- Trees.Tree.Insert: keys of at most 65535 bytes and values of a length below 2^64, the ranges of the
  fields that hold them, and unused page numbers.
- Builders.Builder.Add: the same ranges, and unused page numbers.
- Builders.Builder.Finish: assumes unused page numbers are left.
- Compaction.BuildGeneration: the same limits, and a base generation that can be read.
- Applying.One: keys and values within the ranges of their fields, and unused page numbers.
- Applying.ApplyEntry: the same, and nothing is said of mutations behind one that did not fit, which
  the code applies to the tree it left.
- LiveQueries.BatchIsAtomic: says nothing of a record whose batch was refused.
- IdGen.Generator.Next: assumes the counter is below the largest int64, where the code wraps around.
- Engine.Engine.CreateObject: the same for the class's counter.
- Engine.Engine.CreateObjectsBulk: the same for all ids of the batch.
- Recovery.Database.Recover: the id counters and the overlay it also returns are rebuilt in
  `Reopening` from the same generation and log; `Service.Start` puts the two together.
- Storage.FoldOnPages: values whose length fits the field, and page numbers for the new tree.
- Service.CheckpointBoth: one caller at a time, as in `Engine`.
