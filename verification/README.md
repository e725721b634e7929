# git-fixed: a verified model of its hard core

git-fixed checks a git repository in parallel and repairs it without losing data. Where it is fast, concurrent or
incremental, it must agree with something simple. This project models those places in Dafny and proves the agreement,
for every input, every run and every schedule.

- **Packfile objects** (`PackHeader`, `Delta`, `PackLayout`, `Forest`, `DeltaSpec`, `PackMeaning`,
  `ChainBudget`, `DeltaWalk`, `PackVerify`, `PackWorkers`, `CrcWorkers`, `PackLoops`): the headers and deltas of a
  packfile, the forest of deltas that a counting sort lays out, the budgeted walk over it, and the verdict on a whole
  packfile, held against what its bytes and its index say place by place (`PackMeaning`). `DeltaWalk` is the code of
  one walk, for any answers of the budget; `PackWorkers` and `CrcWorkers` are all the workers, one counter and one
  budget, as atomic steps.
- **Connectivity** (`Sums`, `Connectivity`, `Probing`, `ObjectTable`, `EdgeArena`, `EdgeCache`, `EdgeHistory`): the worker
  protocol of the reachability walk as atomic steps, the sharded object table under it, and the recorded edges that
  replace reading an object again, for any interleaving of the workers that record them.
- **zlib diagnosis** (`BitReader`, `Huffman`, `HuffmanTables`, `InflateSpec`, `InflateTables`,
  `InflateMonotone`, `Window`, `Inflate`, `InflateRoundTrip`, `InflateStreams`): a whole inflater, proved equal to a
  reading of the bit stream after RFC 1951 and RFC 1950; the tables by their rules; and every stream that an encoder may
  write read back.
- **Tree order** (`Bytes`, `TreeOrder`): the one-pass check of a tree's order and the decoder before it.
- **Repair** (`RepairPasses`, `RepairWalk`, `Quarantine`, `QuarantineLoss`): the recovery passes that carry what they have
  read, the workers of a repair walk and their `pending` count, the quarantine that every removal goes through, and
  exactly when its undo loses a file.
- **Index file** (`IndexCodec`, `IndexFile`): writing version 2, reading it back, salvaging what is left of it.

Inflating, hashing and the sources of lost objects are arbitrary deterministic functions; the file system is a map from
path to content. Code that works by changing state is a class or a method with loops, proved against specification
functions; concurrent protocols are state machines whose every step keeps an invariant.

## Where the code does not do what it says

- A ref-delta may name as its base an entry that stands on it (internal/odb/verify.go:318-329). Nothing on such a loop,
  or above it, is ever visited (internal/odb/verify.go:430-438), so a packfile with a loop passes the object check
  unread. `PackLoops.VerifyLoopedPack` gives such packfiles, with a header and checksums that hold;
  `PackLoops.AllReportedIfNoLoop` shows that loops are the only exception.
- The comment on `Undo` says that nothing is overwritten (internal/repair/quarantine.go:159-162). A file is overwritten
  exactly when the undo comes to a name whose file is in the store, whose place is taken, and whose place under
  `replaced` is taken too (internal/repair/quarantine.go:183-191): `QuarantineLoss.AnyUndoIsExact` for any files and any
  manifest, `QuarantineLoss.UndoIsExact` as a condition on the files before the undo, `QuarantineLoss.LossIsExact` after
  any history of a run. It takes an undo that was cut short between its two moves and a new file written in the place
  that this left empty (`QuarantineLoss.AsideIsOverwritten`).
- A set of files always comes back from the quarantine exactly when none is the git directory's own `manifest.json`,
  which the record of the run overwrites (internal/repair/quarantine.go:145), none lies below an `abs` directory of the
  git directory, which is taken for an absolute path (internal/repair/quarantine.go:122-127), and none is called
  `replaced/` and another one's name, which is where that other one's successor is set aside
  (internal/repair/quarantine.go:184): `Quarantine.SafeSetIsExact`. This is so in the model's file system, which
  has no directories. On a disk an undo can also stop with an error, losing nothing, where the place to set a file aside
  is above or below the place of another file in the store: `x` taken and written anew, and `replaced` or `replaced/x/y`
  taken too.
- `WriteIndex` writes any list of entries (internal/gitrepo/indexwrite.go:82-124), and `ReadIndex` refuses what it wrote
  when a path has both a merged entry and another one (internal/gitrepo/index.go:222-225). `IndexFile.RoundTrip` proves
  that it is refused in no other case.
- The limit on the length of a pack entry's header (internal/odb/verify.go:300-306) can never be hit:
  `PackHeader.HeaderIsShort`.

## Model

| member | source | states |
|---|---|---|
| `TreeOrder.DecodeIsExact` | internal/fsck/tree.go:77-112 | Whatever decodes is a well-formed entry whose encoding is exactly the bytes that were consumed; the rest is what follows. |
| `TreeOrder.DecodeInvertsEncode` | internal/fsck/tree.go:77-112 | Every well-formed entry decodes back to itself, whatever follows it. |
| `TreeOrder.ParseTree` | internal/fsck/tree.go:61-73 | The entries are well formed, and their encodings together are the whole input up to the point of failure; nothing decodes there. |
| `TreeOrder.OctalInverts` | internal/fsck/tree.go:86-92 | The digits of any number, behind any zeros, are read as that number, cut to 32 bits. |
| `TreeOrder.DirByDigits` | internal/fsck/tree.go:86-92 | A mode read from digits is a directory's if and only if the fifth digit from the end is 4 and the one before it, if any, is even. |
| `TreeOrder.VerifyOrdered` | internal/fsck/tree.go:275-326 | The stack loop computes the answer and the new candidate stack of the pure step. |
| `TreeOrder.CheckOrder` | internal/fsck/tree.go:143-223 | The flags of the fold over all entries, and whether any name holds a slash. |
| `TreeOrder.FoldIsExact` | internal/fsck/tree.go:214-222 | For names without slash and NUL, neither `notSorted` nor `hasDupEntries` is raised if and only if the entries strictly increase under the directory-as-slash order and all names differ, adjacent or not. |
| `TreeOrder.PairOrder` | internal/repair/sources.go:333-339 | Comparing two names as `verifyOrdered` does agrees with comparing the sort keys that the tree writer uses. |
| `TreeOrder.ClashIsFound` | internal/fsck/tree.go:296-326 | The next entry raises the duplicate flag exactly when its name is already among the earlier ones. |
| `TreeOrder.CheckTree` | internal/fsck/tree.go:124-223 | A byte string draws none of these complaints exactly when it is the encoding of a canonical list: octal digits, names without NUL and slash, whole object names, and names that strictly increase, a directory's with a slash at its end. Which entry is a directory is told by the digits as written: the fifth from the end is 4, and the sixth, if any, is even. |
| `TreeOrder.EncodingIsUnique` | internal/fsck/tree.go:77-112 | Two lists of well-formed entries with the same encoding are the same list. |
| `PackHeader.ReadHeader` | internal/odb/pack.go:219-290 | The loops over the header bytes compute the header function, with the 64-bit wrap-around of the offset written out. |
| `PackHeader.HeaderIsShort` | internal/odb/verify.go:300 | A header that reads fits the one byte a layout keeps of its length, and its size is under 2^60. |
| `PackHeader.HeaderInBounds` | internal/odb/pack.go:219-290 | A header that reads starts before the trailer, and the name of a base is the bytes right before the data, none of them in the trailer. |
| `PackHeader.WriteObjHeader` | internal/gittest/pack.go:93-104 | The loop writes the type and size bytes of the format. |
| `PackHeader.WriteOfsDelta` | internal/gittest/pack.go:106-117 | Filling a 16-byte buffer from its end writes the offset bytes of the format and never runs off its front. |
| `PackHeader.HeaderRoundTrip` | internal/odb/pack.go:219-290 | Reading what the two writers wrote gives back type, size and base, for every size under 2^60. |
| `Delta.DeltaVarint` | internal/odb/delta.go:9-24 | The loop decodes the size and leaves the rest of the stream. |
| `Delta.AppendDeltaVarint` | internal/gittest/pack.go:150-156 | The loop appends the size bytes of the format. |
| `Delta.VarintRoundTrip` | internal/odb/delta.go:9-24 | Every 64-bit size comes back, whatever follows it. |
| `Delta.VarintIsShort` | internal/odb/delta.go:9-24 | A size that reads takes at most ten bytes, fits into 64 bits, and leaves the rest of the stream. |
| `Delta.ApplyDelta` | internal/odb/delta.go:30-87 | The command loop produces what the delta stands for, or refuses exactly when the delta function does. |
| `Delta.OpRuns` | internal/odb/delta.go:47-82 | A copy that leaves out any of its zero bytes gives the bytes at its offset, as many as its size, and 65536 for a size of zero; an insert gives its bytes; a copy past the end of the base is refused. |
| `Delta.CommandIsOp` | internal/odb/delta.go:44-82 | Whatever command is carried out is the writing of such a copy or insert. |
| `Delta.AppliedIsExact` | internal/odb/delta.go:30-87 | A stream gives `out` if and only if it says the size of the base, the size of `out`, and then copies and inserts whose pieces together are `out`. |
| `Delta.DeltaBetween` | internal/gittest/pack.go:120-147 | The encoder's loops write copies of the common front and inserts of the rest. |
| `Delta.DeltaRoundTrip` | internal/odb/delta.go:30-87 | Applying the delta between two objects to the first gives the second, for bases under 2^32 bytes. |
| `PackLayout.Find` | internal/odb/pack.go:166-192 | The fan-out and binary search compute the search function. |
| `PackLayout.FindIsExact` | internal/odb/pack.go:166-192 | In an ordered index the search answers exactly where a name is, and nothing for a name that is not there. |
| `PackLayout.FindPos` | internal/odb/verify.go:276-283 | The search over sorted offsets finds the first entry at an offset, or none. |
| `PackLayout.ParentOf` | internal/odb/verify.go:355-380 | Reading a good entry's base back off its header gives the parent link that was dropped. |
| `PackLayout.LinkageShape` | internal/odb/verify.go:285-330 | Bad entries are roots, and among the good ones exactly the deltas have a parent. |
| `PackLayout.OfsParentIsEarlier` | internal/odb/pack.go:265-270 | The base of a good offset-delta is at a strictly smaller position and offset. |
| `PackLayout.KidsAreExact` | internal/odb/verify.go:332-351 | A child list holds the entries with that base, in order, once each, and nothing else. |
| `PackLayout.CountingSort` | internal/odb/verify.go:332-351 | Counting, summing and placing puts every entry's children side by side in the child arrays. |
| `PackLayout.SortedEntries` | internal/odb/verify.go:268-274 | The entries in offset order, each indexed one exactly once. |
| `PackLayout.ReadEntries` | internal/odb/verify.go:285-330 | Every entry carries the type, size and data offset of its header, the parents are those of the format, and the bad list is the bad entries in order. |
| `PackLayout.BuildLayout` | internal/odb/verify.go:268-353 | The layout is a correct forest: every indexed entry once, in offset order, read off its header, marked as a root if it has no parent, with exactly its children in its child range. |
| `Forest.TreeSplits` | internal/odb/verify.go:256-258 | An entry's tree is the entry and its children's trees. |
| `Forest.TreesDisjoint` | internal/odb/verify.go:256-258 | A child's tree and the trees of the later children do not meet. |
| `DeltaSpec.WalkIsExact` | internal/odb/deltawalk.go:63-98 | What a good root's walk reports is the verdict on each entry of its tree, each exactly once: the bytes decoded from its own root, or that it cannot be unpacked. |
| `DeltaSpec.BelowIsExact` | internal/odb/deltawalk.go:108-159 | Building down from a decoded entry says exactly what every entry below it deserves. |
| `DeltaSpec.FailedIsExact` | internal/odb/verify.go:194-202 | Failing a subtree reports every entry below once, and each of them indeed cannot be decoded. |
| `DeltaSpec.BadIsExact` | internal/odb/verify.go:403-407 | What is reported for a bad entry is the verdict on each entry of its tree, each exactly once. |
| `PackMeaning.ParentIsBase` | internal/odb/verify.go:311-329 | An entry has a parent exactly when the base that its header names, by offset or by name, is in the index, and the parent is the entry at that offset. |
| `PackMeaning.RootedIsHanging` | internal/odb/verify.go:311-351 | An entry hangs from a root exactly when following the bases from its offset comes to an end. |
| `PackMeaning.DecodeIsWhole` | internal/odb/deltawalk.go:63-159 | What the walk decodes an entry to is what its bytes hold: the object inflated, or the delta applied to what its base's bytes hold, with the type of the object at the bottom. |
| `PackMeaning.VerdictIsTold` | internal/odb/deltawalk.go:213-252 | The verdict on an entry is what there is to say of its place in the index: its name there against the hash of what the bytes at its offset there hold. |
| `PackMeaning.NextOffset` | internal/odb/verify.go:246-254 | The bytes of an entry end at the next offset of the index, or at the trailer after the last. |
| `PackMeaning.WrittenReads` | internal/gittest/pack.go:37-85 | Every object of a pack that was written, whole or as deltas on earlier objects named by offset or by name, is read back as its own bytes. |
| `PackMeaning.WrittenIsTold` | internal/odb/verify.go:383-443 | An object of such a pack is sound if and only if the index has the name for it that its type and bytes hash to. |
| `DeltaWalker.Walker.Take` | internal/odb/deltawalk.go:38-52 | Depth zero is always granted and costs nothing; above it the answer is the budget's, whatever that is, and a grant is recorded. |
| `DeltaWalker.Walker.Give` | internal/odb/deltawalk.go:54-59 | Hands back exactly what that depth had taken. |
| `DeltaWalker.Walker.Fail` | internal/odb/verify.go:194-202 | The stack loop reports an entry and everything standing on it as not unpackable, each once. |
| `DeltaWalker.Walker.VisitChild` | internal/odb/deltawalk.go:120-157 | Visiting a child moves its events from what is owed to what is reported, whatever the budget answers. |
| `DeltaWalker.Walker.Spread` | internal/odb/deltawalk.go:108-159 | What was reported and what the deferred entries owe is together everything below the base, whatever the budget answers; the worker holds afterwards what it held before. |
| `DeltaWalker.Walker.Visit` | internal/odb/deltawalk.go:111-157 | One round keeps what was reported, is pending and is put off adding up to the same events, and the worker's holdings above the frames of its stack unchanged. |
| `DeltaWalker.Walker.Rebuild` | internal/odb/deltawalk.go:161-190 | Climbing by the bases in the headers and building down gives the entry's decoding, the same bytes as before it was deferred. |
| `DeltaWalker.Walker.WalkChain` | internal/odb/deltawalk.go:63-98 | Whatever the budget answers, the log grows by exactly the events of the root's tree, and the worker ends holding what it held. |
| `PackVerify.CheckCRCs` | internal/odb/verify.go:446-477 | With one worker, the answer is yes exactly when every entry's bytes have the checksum in the index. |
| `PackVerify.VerifyObjects` | internal/odb/verify.go:383-443 | With one worker, the log is the reports on bad entries and the walks of all good roots; the answer is whether all of it is fine and the checksums agree. |
| `PackVerify.OwnSumIsExact` | internal/odb/verify.go:383-443 | Trees of bad roots and trees of good roots together cover every entry that hangs from a root, once each. |
| `PackVerify.ReportIsExact` | internal/odb/verify.go:383-443 | The whole report is one verdict for each entry whose parent chain reaches a root. |
| `PackVerify.VerifyPack` | internal/odb/verify.go:383-443 | From the bytes and the index: the answer is yes if and only if, for every place of the index, the checksum there is that of the bytes from its offset to the next, and those bytes, if following their bases comes to an end, hold or stream to an object that hashes to the name that stands there. |
| `PackVerify.SoundIsTold` | internal/odb/verify.go:383-443 | All entries of a layout are sound if and only if there is nothing to complain of at any place of the index. |
| `PackVerify.ReportedIfRooted` | internal/odb/verify.go:383-443 | An entry is reported if and only if its chain of bases reaches a root. |
| `PackWorkers.WalkKeeps` | internal/odb/deltawalk.go:38-159 | Every atomic step of a walk reports what it no longer owes, holds what it took from the budget and no more than there was, and leaves less to do. |
| `PackWorkers.ActInv` | internal/odb/verify.go:422-441 | No step of any worker, drawing a position or walking, undoes the invariant of counter, budget and reports. |
| `PackWorkers.OneOwner` | internal/odb/verify.go:424-438 | In every reachable state each position drawn was drawn once and belongs to exactly one worker, and a worker walks only roots that it drew. |
| `PackWorkers.BudgetIsConserved` | internal/odb/deltawalk.go:38-59 | In every reachable state, for any number of workers, the budget left plus the frames above depth zero of all workers is the initial budget, and none of it is overdrawn. |
| `PackWorkers.ActProgress` | internal/odb/verify.go:430-438 | Every step draws a position, sends a worker home, or leaves a walk less to do. |
| `PackWorkers.NeverBlocked` | internal/odb/verify.go:430-438 | A worker that has not returned can always take its next step. |
| `PackWorkers.RunsEnd` | internal/odb/verify.go:422-441 | No schedule runs for ever. |
| `PackWorkers.ReturnedMeansDone` | internal/odb/verify.go:422-441 | When all have returned every root was walked once, whoever walked it, and the budget is whole. |
| `PackWorkers.WorkersAreExact` | internal/odb/verify.go:383-443 | A finished run of any number of workers has reported one verdict for each entry that hangs from a root, and complained of nothing if and only if all are sound. |
| `CrcWorkers.ActInv` | internal/odb/verify.go:446-477 | No step of any worker undoes that each entry of the batches drawn was scanned once or is in one worker's hands, and that exactly the wrong ones were found. |
| `CrcWorkers.RunsEnd` | internal/odb/verify.go:446-477 | No schedule of the scan runs for ever. |
| `CrcWorkers.ScanIsExact` | internal/odb/verify.go:446-477 | When all are home each entry was scanned once and each wrong one found once, however the batches were shared out. |
| `CrcWorkers.CheckIsExact` | internal/odb/verify.go:383-443 | With any number of workers and any schedules of both passes, nothing is complained of if and only if, for every place of the index, the bytes hold an object that hashes to the name there, if following their bases comes to an end, and have the checksum there. |
| `PackLoops.AllReportedIfNoLoop` | internal/odb/verify.go:311-329 | Every entry is reported if and only if no set of entries stands only on one another. |
| `PackLoops.OffsetDeltasAreRooted` | internal/odb/pack.go:265-270 | Without ref-deltas there is no loop: every entry is reported. |
| `PackLoops.LoopedPackIsUnread` | internal/odb/verify.go:318-329 | In a packfile of two ref-deltas that name each other, with a valid header, no entry hangs from a root. |
| `PackLoops.VerifyLoopedPack` | internal/odb/verify.go:383-443 | The check of such a packfile says yes for any names, trailer, inflating and hashing, whenever the index's checksums are those of the two entries. |
| `Connectivity.ActInv` | internal/fsckcmd/connectivity.go:72-129 | No step of any worker undoes the invariant of the protocol. |
| `Connectivity.OnePlace` | internal/fsckcmd/connectivity.go:50-130 | In every state of every run each flagged present object is in exactly one of the stack, one worker's hands, and done; `active` is the number of holders; an unsignalled sleeper means an empty stack and somebody working; a worker has left only when there is nothing to do and nobody doing it. |
| `Connectivity.NoDeadlock` | internal/fsckcmd/connectivity.go:72-129 | A state in which no worker can step is one in which all have returned: no wake-up is lost. |
| `Connectivity.ActProgress` | internal/fsckcmd/connectivity.go:72-129 | Every step makes a lexicographic measure of the state smaller. |
| `Connectivity.RunsEnd` | internal/fsckcmd/connectivity.go:50-130 | No schedule runs for ever. |
| `Connectivity.WalkIsExact` | internal/fsckcmd/connectivity.go:50-130 | A run that can go no further, with any number of workers, has flagged exactly what is reachable and read every present part of it once. |
| `Connectivity.TraverseOne` | internal/fsckcmd/connectivity.go:179-208 | Marks every link and collects exactly the targets that are newly flagged and present, once each. |
| `Connectivity.WalkAlone` | internal/fsckcmd/connectivity.go:64-70 | The one-worker loop flags the same set and reads each present member once. |
| `Connectivity.ReachIsUnique` | internal/fsckcmd/connectivity.go:50-130 | There is only one such set, so the two walks agree. |
| `Probing.Probe` | internal/fsckcmd/objtable.go:305-317 | The probe ends, at an empty place or at a slot with the key and a wanted index, having passed only others. |
| `Probing.NotHeld` | internal/fsckcmd/objtable.go:272-291 | A probe that comes to an empty place has shown that the shard does not hold what it looks for. |
| `Probing.PutChained` | internal/fsckcmd/objtable.go:322-323 | Filling the empty place keeps every slot reachable from its own key. |
| `Probing.Grow` | internal/fsckcmd/objtable.go:350-364 | Twice the places, every slot reachable, and exactly what was held before. |
| `ObjectTable.Table.constructor` | internal/fsckcmd/objtable.go:204-214 | An empty table whose shards start at a power of two. |
| `ObjectTable.Table.SetType` | internal/fsckcmd/objtable.go:99-109 | The first type stays; no other entry changes. |
| `ObjectTable.Table.NewEntry` | internal/fsckcmd/objtable.go:232-269 | The next index, with every earlier index still naming its entry however many slabs were added. |
| `ObjectTable.Table.Get` | internal/fsckcmd/objtable.go:272-291 | Finds a name if and only if it was created, and at its own index. |
| `ObjectTable.Table.Reconcile` | internal/fsckcmd/objtable.go:332-346 | Sets a missing type, accepts an equal or any type, and refuses another one without a change. |
| `ObjectTable.Table.Lookup` | internal/fsckcmd/objtable.go:296-328 | A known name is refused exactly when a type is asked for that is not the one it has; otherwise the answer is its index, and a missing type is set. A new name takes the next index, with no type if any type is asked for. All others stay; nothing is answered only when the last index is taken. |
| `EdgeArena.Arena.NewSlab` | internal/fsckcmd/edgearena.go:71-87 | One more slab, with all earlier slabs where they were. |
| `EdgeArena.Arena.Alloc` | internal/fsckcmd/edgearena.go:30-50 | Room that overlaps no span given out before, whichever chunk the pool gives back; every earlier span reads as before. |
| `EdgeArena.Arena.At` | internal/fsckcmd/edgearena.go:53-64 | A span given out, or the front of one, is within its slab and reads as its edges. |
| `EdgeArena.Arena.Write` | internal/fsckcmd/objcheck.go:71-79 | Writing an edge changes that edge and no other span. |
| `EdgeCache.RunGrows` | internal/fsckcmd/objtable.go:99-109 | Whatever lookups and type settings the workers do in any order, indexes stay and a type once set never changes. |
| `EdgeCache.RecordedAgrees` | internal/fsckcmd/objtable.go:64-78 | The edge made from a lookup says what that lookup would say if it were made again. |
| `EdgeCache.ReplayIsExact` | internal/fsckcmd/connectivity.go:143-174 | One edge: at any later time, after any steps of any workers, replaying it gives the target, resolution and type that looking the link up again would give, and that lookup would change nothing. |
| `EdgeCache.RecordEdges` | internal/fsckcmd/objcheck.go:65-80 | Recording fails only when the table has given out its last index. Otherwise the span is the front of one given out and reads as one edge per link, each agreeing with the table; the table is the one that looking the links up in turn makes; `broken` says whether a link was refused. Earlier spans read as before. |
| `EdgeHistory.Run` | internal/fsckcmd/objcheck.go:65-112 | Whatever the workers do in any order, lookups, types, new objects and further links: while the table has room, the objects, their links in order and the table are those that the tasks ask for. Every object has its span in the arena, apart from all others, and each of its edges agrees with the table as it then stands. |
| `EdgeHistory.PlansAreSent` | internal/fsckcmd/objcheck.go:65-80 | The objects that the tasks ask for are those that were started, each with the valid links that were sent for it since, in order, as many as its room takes. |
| `EdgeHistory.RoomIsAsked` | internal/fsckcmd/objcheck.go:65-80 | Each object keeps the room that it was started with. |
| `EdgeHistory.NamesAreAsked` | internal/fsckcmd/objtable.go:296-328 | The names in the table are those that were in it, those that were looked up, and those of the links recorded, and no others. |
| `EdgeHistory.SettledStays` | internal/fsckcmd/objtable.go:99-109 | In any run an entry keeps the first type that it was given. |
| `EdgeHistory.Replay` | internal/fsckcmd/connectivity.go:143-155 | Reading a recorded object back gives, link by link, the very answer and type that looking it up again would give, and that lookup would change nothing. |
| `BitReader.ByteValue` | internal/zlibmsg/zlibmsg.go:60-69 | Eight bits from a byte boundary, least significant first, are that byte. |
| `BitReader.Bits.Need` | internal/zlibmsg/zlibmsg.go:72-83 | The register holds the next bits of the stream; it runs short exactly when the stream has too few. |
| `BitReader.Bits.Take` | internal/zlibmsg/zlibmsg.go:86-94 | The next bits of the stream as a number, consumed; short exactly when there are too few. |
| `BitReader.Bits.Align` | internal/zlibmsg/zlibmsg.go:97-101 | Moves to the next multiple of eight bits. |
| `Huffman.SpellsOnce` | internal/zlibmsg/huffman.go:73-74 | The canonical codes of section 3.2.2 of RFC 1951 are prefix-free: at most one symbol's code stands at a place. |
| `Huffman.CodesFit` | internal/zlibmsg/huffman.go:46-58 | In an accepted list every code fits in its length. |
| `Huffman.DecodeInvertsCode` | internal/zlibmsg/huffman.go:75-95 | A code written anywhere in a stream decodes to its symbol there, and decoding goes on right after it. |
| `Huffman.CompleteIsTotal` | internal/zlibmsg/huffman.go:75-95 | A complete code never answers invalid. |
| `Huffman.OneSymbolCode` | internal/zlibmsg/huffman.go:46-58 | A code of a single symbol is accepted exactly for literals and distances, and only with one bit. |
| `HuffmanTables.Build` | internal/zlibmsg/huffman.go:27-71 | Accepts a list if and only if it is empty, fills the code space exactly, or is the permitted single one-bit code; the tables are then those of the canonical code. |
| `HuffmanTables.Lay` | internal/zlibmsg/huffman.go:59-69 | The offset loop puts the symbol of each length and rank in its place, within bounds. |
| `HuffmanTables.Decode` | internal/zlibmsg/huffman.go:75-95 | Answers the symbol whose canonical code stands in the stream and consumes exactly its length; invalid or short exactly when there is none; all table reads are in bounds. |
| `Window.Output.Emit` | internal/zlibmsg/zlibmsg.go:131-143 | The ring, the count and the running sums follow the whole output by one byte. |
| `Window.Output.Back` | internal/zlibmsg/zlibmsg.go:146-149 | The byte dist places before the end of all output, for every distance up to 32768 inclusive. |
| `Window.Output.Sum` | internal/zlibmsg/zlibmsg.go:136 | The Adler-32 of the whole output: reducing at every step is reducing once. |
| `Window.Output.CopyBack` | internal/zlibmsg/zlibmsg.go:398-404 | Copying through the ring, overlapping or not, equals copying from the unbounded output, until the room ends. |
| `Inflate.FixedLengths` | internal/zlibmsg/huffman.go:99-124 | The fixed lists always build, so the panic is dead. |
| `Inflate.FixedAreComplete` | internal/zlibmsg/huffman.go:99-124 | Both fixed codes fill the code space exactly. |
| `Inflate.Inflater.ReadHeader` | internal/zlibmsg/zlibmsg.go:188-211 | The header's faults in zlib's order, as the first two bytes call for. |
| `Inflate.Inflater.StoredBlock` | internal/zlibmsg/zlibmsg.go:214-239 | A stored block ends as its bits say: fault, end of input, end of room, or the new position and output. |
| `Inflate.Inflater.DynamicBlock` | internal/zlibmsg/zlibmsg.go:242-290 | The same for a block with its own tables. |
| `Inflate.Inflater.ReadAllLengths` | internal/zlibmsg/zlibmsg.go:294-343 | The decoded length list, or the fault, that the bits call for; repeats never run past the list. |
| `Inflate.Inflater.ReadMatch` | internal/zlibmsg/zlibmsg.go:375-397 | Length and distance as the bits say; the distance is within the output and the window. |
| `Inflate.Inflater.CompressedBlock` | internal/zlibmsg/zlibmsg.go:353-406 | A compressed block ends as its bits say, and ends at all because every round consumes a bit. |
| `Inflate.Inflater.ReadChecksum` | internal/zlibmsg/zlibmsg.go:409-423 | A fault exactly when the four bytes are not the Adler-32 of the whole output. |
| `Inflate.Inflater.Run` | internal/zlibmsg/zlibmsg.go:152-183 | The fault that the whole stream calls for, or none. |
| `Inflate.Diagnose` | internal/zlibmsg/zlibmsg.go:31-42 | The line printed is the diagnosis of the bits of the stream. |
| `InflateTables.CodeLensIs` | internal/zlibmsg/zlibmsg.go:259-266 | Each code length symbol has the three bits that the order of section 3.2.7 of RFC 1951 gives it: the repeats, zero, then from the middle outwards; what is not written is zero. |
| `InflateTables.LengthTable` | internal/zlibmsg/huffman.go:130-139 | The base and extra bits of every length symbol by the rule of section 3.2.5. |
| `InflateTables.DistTable` | internal/zlibmsg/huffman.go:143-153 | The base and extra bits of every distance symbol by the rule of section 3.2.5. |
| `InflateTables.EveryLength` | internal/zlibmsg/huffman.go:130-139 | Every length from 3 to 258 has a symbol and extra bits. |
| `InflateTables.EveryDistance` | internal/zlibmsg/huffman.go:143-153 | Every distance from 1 to 32768 has a symbol and extra bits. |
| `InflateTables.CodesFollow` | internal/zlibmsg/huffman.go:59-69 | Symbols of one length have consecutive codes in their order. |
| `InflateTables.ShorterFirst` | internal/zlibmsg/huffman.go:75-95 | Codes of a shorter length come before those of a longer one. |
| `InflateTables.WordBits` | internal/zlibmsg/huffman.go:75-95 | A code stands in the stream with its most significant bit first. |
| `InflateTables.FixedCodes` | internal/zlibmsg/huffman.go:99-124 | The fixed literal and length codes are those of the table in section 3.2.6, bit for bit. |
| `InflateTables.FixedDistCodes` | internal/zlibmsg/huffman.go:99-124 | A fixed distance code is its symbol in five bits. |
| `InflateTables.HeaderFields` | internal/zlibmsg/zlibmsg.go:188-211 | For every value of the five fields of a header: which fault it has, in the order check, method, window, dictionary, or none. |
| `InflateTables.AdlerIs` | internal/zlibmsg/zlibmsg.go:127-136 | The low half is one and the sum of all bytes, the high half the sum of all the low sums, each modulo 65521. |
| `InflateTables.AdlerCatchesAByte` | internal/zlibmsg/zlibmsg.go:127-136 | Another byte in any one place makes another checksum. |
| `InflateMonotone.InflatedKeeps` | internal/zlibmsg/zlibmsg.go:152-183 | On any beginning of a bit stream, with at most as much room, a run stops early or ends in the same way. |
| `InflateMonotone.DiagnosisIsMonotone` | internal/zlibmsg/zlibmsg.go:31-42 | On any prefix of a stream and any smaller limit the message is nothing or the full stream's message. |
| `InflateMonotone.DiagnosisIsFinal` | internal/zlibmsg/zlibmsg.go:31-42 | A message, once given, stays whatever bytes follow and however much room there is. |
| `InflateMonotone.RoomIsExact` | internal/zlibmsg/zlibmsg.go:124 | A stream that ends well ends the same with room for its whole output, and stops with any less. |
| `InflateRoundTrip.CopyIs` | internal/zlibmsg/zlibmsg.go:398-404 | A match gives the one output in which each copied byte repeats the byte `dist` before it. |
| `InflateRoundTrip.BlockInverts` | internal/zlibmsg/zlibmsg.go:353-406 | A block of any literals and matches, written with any accepted codes, is read back to the output it stands for. |
| `InflateRoundTrip.SymbolIsRefused` | internal/zlibmsg/zlibmsg.go:353-373 | Symbols 286 and 287 are an invalid literal/length code. |
| `InflateRoundTrip.MatchIsRefused` | internal/zlibmsg/zlibmsg.go:381-397 | Distance symbols past 29 and distances past the output are refused, each with its own message. |
| `InflateStreams.RunReads` | internal/zlibmsg/zlibmsg.go:294-343 | A length, a repeat of the last one 3 to 6 times, or a run of 3 to 10 or 11 to 138 zeros is read back, unless it has nothing to repeat or goes past the end of the lists. |
| `InflateStreams.DynamicReads` | internal/zlibmsg/zlibmsg.go:242-290 | Tables written with any accepted code length codes and runs are read back and the block goes on with them right after, or the fault that their sizes or codes call for. |
| `InflateStreams.DynamicRefuses` | internal/zlibmsg/zlibmsg.go:259-281 | Code length codes that are not accepted, or none at all, end the block with their own fault. |
| `InflateStreams.StoredReads` | internal/zlibmsg/zlibmsg.go:214-239 | A stored block is read back exactly when its length and the inverse are each other's complement. |
| `InflateStreams.FourthKind` | internal/zlibmsg/zlibmsg.go:161-175 | A block of kind three is an invalid block type. |
| `InflateStreams.StreamInverts` | internal/zlibmsg/zlibmsg.go:152-183 | A stream of any number of blocks, stored, fixed or with tables of their own, is read to its end, and blamed exactly when its checksum is not that of the output. |
| `InflateStreams.StreamIsDiagnosed` | internal/zlibmsg/zlibmsg.go:31-42 | Of the bytes of such a stream nothing is said, or that the data check is incorrect. |
| `InflateStreams.DictionaryIsNamed` | internal/zlibmsg/zlibmsg.go:34-38 | A stream whose header wants a dictionary gets the message for that, whatever follows. |
| `RepairPasses.PassIsExact` | internal/repair/walk.go:69-98 | Descending from what was put back, with everything else seen passed over, reaches what a fresh walk reaches; what it could not read with what was carried is what a fresh walk could not read. |
| `RepairPasses.Scanner.Want` | internal/repair/walk.go:100-115 | Queues and counts an object exactly when it was not seen. |
| `RepairPasses.Scanner.Walk` | internal/repair/walk.go:194-230 | Ends, with nothing open: everything the start reaches past `seen` was read or refused. |
| `RepairPasses.Scan` | internal/repair/scan.go:151-179 | The first scan finds exactly the unreadable objects that the references reach. |
| `RepairPasses.Descend` | internal/repair/walk.go:69-98 | The walk under what came back: what it visits and refuses, and the seen set it leaves. |
| `RepairPasses.StillBad` | internal/repair/repair.go:138-149 | The union of what was found and what was carried, each object once. |
| `RepairPasses.TryEach` | internal/repair/repair.go:274-300 | A damaged object is put back exactly when it was not put back before and a source has it; all others are stuck, each once. Readable are then those that the write mended. |
| `RepairPasses.PassesNext` | internal/repair/repair.go:251-306 | A pass that puts back what a source has of the damage continues the history of the passes before it: none of them changes, and it is productive exactly when something came back. |
| `RepairPasses.RecoverObjects` | internal/repair/repair.go:251-306 | However the sources answer, the loop ends. Each pass goes through exactly the damage that a fresh walk would find at that time and puts back exactly what a source then has and no earlier pass put back; every pass but the last puts something back. What is left is what a fresh walk of the repository as it then stands cannot read, and of that each object never put back was refused in the last pass. |
| `RepairWalk.ActInv` | internal/repair/walk.go:194-230 | Every atomic step keeps: each object seen is in one place, and `pending` counts what is queued and being read. |
| `RepairWalk.ReturnedMeansDone` | internal/repair/walk.go:194-230 | As soon as one worker has returned, nothing is queued or being read, and the seen and bad sets are those the walk was asked for. |
| `RepairWalk.RunsKeepInv` | internal/repair/walk.go:158-178 | Every state of every run keeps the invariant, for any number of workers. |
| `RepairWalk.RunsAgree` | internal/repair/walk.go:158-178 | Two runs with different workers and schedules that have come to an end see the same and refuse the same. |
| `RepairWalk.NothingPending` | internal/repair/walk.go:205-213 | With an empty bag and nobody reading the count is zero, so whoever looks at it next returns. |
| `RepairWalk.ActProgress` | internal/repair/walk.go:194-230 | Every step other than waiting makes a lexicographic measure smaller, so a walk cannot go on for ever except by waiting. |
| `RepairWalk.NeverBlocked` | internal/repair/walk.go:194-230 | A worker that has not returned can always take its next step. |
| `Quarantine.ResolveIsExact` | internal/repair/quarantine.go:109-127 | A recorded name leads back to its file if and only if the file is not below an `abs` directory of the git directory. |
| `Quarantine.PlacesApart` | internal/repair/quarantine.go:163-189 | The places that a path has in the store and aside never meet those of another path that is clear of it, nor the manifest. |
| `Quarantine.Quarantine.Take` | internal/repair/quarantine.go:74-101 | A missing file is passed over; another one moves into the store and into the manifest. |
| `Quarantine.TakeKeeps` | internal/repair/quarantine.go:74-101 | Taking one more file, clear of the others, keeps everything taken in the store and the manifest complete. |
| `Quarantine.WriteKeeps` | internal/repair/quarantine.go:74-101 | Nothing written or removed outside the run's directory touches what was taken. |
| `Quarantine.Undo` | internal/repair/quarantine.go:163-201 | Reads the manifest and makes the moves of the undo function, cut short after any number of moves; without a manifest it does nothing. |
| `Quarantine.UndoKeeps` | internal/repair/quarantine.go:163-201 | An undo cut short anywhere loses nothing; one that comes to its end has put every file back with what stood in its way under `replaced`; a further one changes nothing. |
| `Quarantine.UndoneStays` | internal/repair/quarantine.go:179-182 | Once every file is back an undo does nothing. |
| `Quarantine.UndoneIsRestored` | internal/repair/quarantine.go:163-201 | Any number of undos cut short anywhere and one that is not restore everything. |
| `Quarantine.Perform` | internal/repair/quarantine.go:74-101 | The takes and writes of a repair, one after another, make the files and the manifest of the run function. |
| `Quarantine.RunComesBack` | internal/repair/quarantine.go:74-201 | For any sequence of takes from a safe set and writes, and any undos cut short and one that is not: every path taken holds again what it held when it was taken, what stood there is under `replaced`, every other file is as the repair left it. |
| `Quarantine.RepairThenUndo` | internal/repair/quarantine.go:74-201 | The same of the methods: a repair, undos cut short anywhere and a complete one. |
| `Quarantine.OneFileIsExact` | internal/repair/quarantine.go:74-201 | One file taken and undone comes back if and only if it is not the git directory's `manifest.json` and not below its `abs` directory. |
| `Quarantine.TwoFileRun` | internal/repair/quarantine.go:74-201 | Of two paths, each safe by itself, of which one is called `replaced/` and the other's name: a run that takes both and writes the other one anew does not bring the first back. |
| `Quarantine.SafeSetIsExact` | internal/repair/quarantine.go:74-201 | A set of paths always comes back, whatever a repair that takes them does and however its undo is cut short, if and only if each is safe by itself and clear of every other. |
| `QuarantineLoss.UndoIsExact` | internal/repair/quarantine.go:179-199 | An undo of any files and any manifest with places apart, cut short anywhere, overwrites a file if and only if it comes to a name whose three places are all taken; it never makes one. |
| `QuarantineLoss.AnyUndoIsExact` | internal/repair/quarantine.go:179-199 | An undo of any files and any manifest whatever keeps every file if and only if it comes, in the files as they then are, to no name whose three places are all taken. |
| `QuarantineLoss.BlockedLoses` | internal/repair/quarantine.go:183-191 | What is lost at such a name is a copy of what was set aside there. |
| `QuarantineLoss.HistoryProgress` | internal/repair/quarantine.go:163-201 | After any undos cut short anywhere and any changes outside the run's directory, the names are back from some point on and at most the last of the others is halfway. |
| `QuarantineLoss.LossIsExact` | internal/repair/quarantine.go:163-201 | After any such history the next undo keeps every file if and only if it makes no move or no path taken has its three places all taken. |
| `QuarantineLoss.AsideIsOverwritten` | internal/repair/quarantine.go:183-197 | A cut undo, a new file and a second undo lose what was set aside. |
| `IndexCodec.EntryReads` | internal/gitrepo/index.go:142-182 | In a file cut anywhere, an entry is read back as it stands on disk if its name is all there, and refused otherwise; names of 4095 bytes and more included. |
| `IndexCodec.Be32Order` | internal/gitrepo/indexwrite.go:99-121 | The bytes of two numbers compare as the numbers do: the most significant comes first. |
| `IndexCodec.MarkedReads` | internal/gitrepo/index.go:152-161 | An entry that says that more flags follow is refused; the mark that it is assumed unchanged changes nothing. |
| `IndexFile.StableSort` | internal/gitrepo/indexwrite.go:83-92 | An ordered permutation that keeps the order of entries with equal name and stage. |
| `IndexFile.WriteEntry` | internal/gitrepo/indexwrite.go:99-121 | The bytes of an entry: mode in the stat block, name length capped, padding to eight. |
| `IndexFile.WriteIndex` | internal/gitrepo/indexwrite.go:82-124 | The bytes of the file for the sorted entries, with its checksum. |
| `IndexFile.CheckEntryOrder` | internal/gitrepo/index.go:216-232 | Accepts if and only if the whole list is ordered and no path has a merged entry and another. |
| `IndexFile.ReadIndex` | internal/gitrepo/index.go:65-112 | A sealed file yields exactly the entries that its entry loop reads, or the error; what is read is always ordered. A file that is not sealed is refused: for its size, its signature, its version or its checksum, in that order. |
| `IndexFile.FileReads` | internal/gitrepo/index.go:97-109 | A written file starts with DIRC and version 2, is sealed, claims its number of entries and reads back every entry, up to the checksum. |
| `IndexFile.TrailerReads` | internal/gitrepo/index.go:87-95 | With any other trailer the entries read the same, and the file is accepted for it exactly when it is the checksum or all zeros. |
| `IndexFile.RoundTrip` | internal/gitrepo/indexwrite.go:82-124 | Reading what was written gives the sorted entries as they stand on disk, if and only if every merged entry is the only one for its path. |
| `IndexFile.SalvageIndex` | internal/gitrepo/indexwrite.go:38-75 | The entries that parse before the first that does not, short of the checksum. |
| `IndexFile.SalvageTruncated` | internal/gitrepo/indexwrite.go:38-75 | Of a written file cut anywhere, salvage gives exactly the first entries whose name, with the terminator of a long one, ends within what is left, less the length of a checksum when it is longer than a header and one; and all of them if it was not cut. |

## Left out

- IndexFile.ReadIndex: versions 3 and 4 are refused like an unknown version, and extensions are handed back unparsed, because version 2 is what the writer writes.
- IndexFile.SalvageIndex: versions 3 and 4 give no entries; the text that says why a salvage stopped is not modelled.
- IndexFile.WriteIndex: stages above 3 and more than 2^32 entries are excluded, because the fields of the file do not hold them; the temporary file and the rename are I/O.
- Quarantine.Quarantine.Take: errors of the file system, directories and the copy that stands in for a rename across file systems are not modelled.
- Quarantine.RunComesBack: a path is taken at most once in a run, nothing but the run itself writes into its directory, and a crash between the move and the manifest is excluded, because the code guards none of these.
- QuarantineLoss.UndoIsExact: the condition on the files before the undo holds for manifests whose names have no places in common; where one name is `replaced/` and another, the undo of one moves the files of the other, and the condition is on the files as they then are: `QuarantineLoss.AnyUndoIsExact`.
- Delta.DeltaRoundTrip: bases of 2^32 bytes and more are excluded, because a copy command holds a 32-bit offset.
- PackMeaning.WrittenReads: objects of 2^32 bytes and more and payloads of 2^60 and more are excluded as above; what deflating writes is any bytes that inflating gives back.
- PackHeader.HeaderRoundTrip: sizes of 2^60 and more are excluded, because the reader refuses them.
- PackLayout.SortedEntries: nothing is promised about entries with equal offsets, because the library sort promises nothing.
- DeltaWalker.Walker.Take: other workers' use of the counter is an arbitrary sequence of answers; in `PackWorkers` the budget itself answers, and refuses exactly when it has too little.
- PackVerify.VerifyObjects: one worker, one walk after another; `PackWorkers` and `CrcWorkers` have any number of workers whose steps interleave.
- PackVerify.CheckCRCs: one worker and one scan; the batches drawn from a counter are in `CrcWorkers`.
- Connectivity.TraverseOne: the links of an object are its recorded edges that resolved; blobs, which point at nothing, and refused links, which only add a complaint, have none. A walk that reads objects again and resolves links as it goes, as under --connectivity-only, is not modelled.
- RepairPasses.Scanner.Walk: one worker; RepairWalk models the workers together. The early stop with a caller's verdict and the paths in the report are not modelled.
- RepairPasses.TryEach: which source answers and where an object is written are arbitrary functions.
- ObjectTable.Table.Lookup: one atomic step. The shard's lock keeps other lookups of the same shard out; lookups of other shards share only the counter of entries and the list of slabs, which are changed by an atomic add and by replacing the whole list. Masking with a power of two less one is written as a remainder.
- ObjectTable.Table.NewEntry: one caller at a time; two shards that take indexes and add slabs at the same moment are not modelled.
- ObjectTable.Table.SetType: the packing of type and flags into one word, and the compare-and-swap loops over it, are not modelled.
- BitReader.Bits.Need: the 64-bit register is a number; at most 32 bits are ever asked for, so nothing is shifted out.
- The index of a packfile is taken as its tables of names, offsets and checksums: how the bytes of an index file are laid out is not modelled, nor are the hashes over whole packfiles and indexes.
- The commit-graph decoder, which recurses without a bound on a cyclic file.
- Reading a delta whose base is in another packfile, which restarts the depth count.
- The repair of references and of the index after the object loop, whose findings the last pass replaces.
- Equality of the links that the repair walk and the connectivity walk follow: they treat odd file modes differently, and each has its own abstract links here.
- Progress meters, page release, memory marks, report texts, names built for `--name-objects`, option parsing, remote fetch, Unicode folding and submodule URL checks: they print, call other libraries, or decide nothing that the parts above depend on.
