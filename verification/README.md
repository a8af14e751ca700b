# What the F2FS tools keep true

The F2FS tools read, repair, move and extend on-disk structures whose meaning is simple
and whose upkeep is not. This project models the code that does the upkeep and proves
what it promises, for every input, every run or every reachable state.

* **Quota files** (`QuotaModel`, `QuotaSteps`, `QuotaRecords`, `QuotaPaths`, `QuotaTree`,
  `QuotaScan`). A radix trie over blocks, a list of free blocks and a list of blocks with
  free slots stand for a finite map from ids to records. Each operation is a short chain
  of small steps on a `View` of the file; the invariant `Inv` says what every block is for.
* **Unicode normalisation** (`NormText`, `NormOrder`, `NormSettle`, `NormParse`, `NormScan`,
  `NormState`, `NormCursor`, `NormUtf`). A cursor returns one byte per call and sorts combining marks by
  scanning again and again; it refines the Canonical Ordering Algorithm (section 3.11 of The
  Unicode Standard, with Hangul decomposition per section 3.12). The trie of character data is
  a parameter, `Table`. Besides what `lib/nls_utf8.c:245-274` says of it, two facts about the
  data are used: characters inside a decomposition are not newer than the table's own version,
  and conjoining jamo stand for themselves.
* **Dictionaries** (`RbTree`, `RbFix`, `RbOrder`, `RbShrink`, `RbDict`). Red-black trees with
  parent pointers and a sentinel, in a memory of cells. `Holds(m, c, t)` says that a memory
  holds the tree `t` in the context `c`, a tree with a hole; every write of the code is
  shown to turn one such description into another.
* **Blocks of the main area** (`Segments`, `Owners`, `Image`). Validity bitmaps and counts,
  the search for a free block, and moving blocks together with the pointers, table
  entries and summaries that lead to them.
* **Resizing** (`ResizeAreas`, `Checkpoint`, and `MigrateMain` in `Image`). Areas that are
  copied over themselves, and a checkpoint pack that replaces another write by write.
* **Recovery** (`Recovery`). Two walks over the chain of nodes written since the last
  checkpoint.
* **Files and directories** (`NodePath`, `NodeWalk`, `ExtentCheck`, `ExtentWalk`, `DirTiles`,
  `Dentry`, `Directory`), the **node address table** with its journal (`NatJournal`), the **block
  cache** (`BlockCache`, `DeviceCache`) and **UTF conversion** (`Utf`).

Objects that the source changes in place are classes; loops are loops; values that are
only computed are functions. On-disk integers are natural numbers. Where 32-bit or 64-bit
arithmetic decides the outcome (`ExtentCheck`, `DirTiles`, checkpoint versions) the
wrap-around is written out.

`dafny verify dfyconfig.toml` checks the whole project.

## Where the code does not do what it seems to

* A dquot that has grace times but neither usage nor limits is not kept: reading it back
  gives nothing (`QuotaTree.QuotaFile.CommitDquot`, `QuotaPaths.CommitReads` and, over whole
  runs, `QuotaPaths.RunReads`). Every other dquot reads back as it was written.
* The normalisation cursor is documented to return -1 for text that is not valid UTF-8. It
  delivers a stray continuation byte instead (`NormCursor.FailureReported`,
  `NormCursor.Normalized`, `NormCursor.StrayIsDelivered`). Case folding reports invalid text
  behind its first byte as a name that is too long.
* `migrate_ssa` destroys a summary when the segments keep their numbers, the area moves down,
  and the summary is read from a place that the new area covers. `migrate_nat` destroys table
  blocks that are written over before they are read. `Plan.Safe` and `NatSafe` are the exact
  conditions (`ResizeAreas.SafeIsExact`, `ResizeAreas.NatSafeIsExact`).
* `rebuild_checkpoint` leaves no valid checkpoint at all when the new pack does not fit into a
  segment, as a full old pack with orphan blocks and a new block of payload make it
  (`Checkpoint.Area.Rebuild`, `Checkpoint.TooLong`).
* `rebuild_checkpoint` loses all orphan blocks. The new pack says that its summaries come right
  behind the payload, so a mount takes no block for an orphan block; what the old pack had is
  kept exactly when that was none (`Checkpoint.Area.Rebuild`, `Checkpoint.PackRead`,
  `Checkpoint.OrphanLost`). The blocks themselves are not copied either: as often as the old
  pack has blocks between its first and its summaries, payload included, the block behind the
  old payload is written (`Checkpoint.OrphanBlocks`).
* The extent check accepts an extent whose last block would be block 0 when the walk meets
  nothing of it. `CanMiss` is the exact condition on the extent
  (`ExtentWalk.CheckIsExact`, `ExtentWalk.MissedExample`).
* Adding a name whose length is a multiple of eight writes a zero over the first byte of the
  name behind it. Where a name goes is the function `PlaceFor`, so `Spoils` at that place is a
  condition on the directory as it was. All other lookups give what they would give had only
  the name behind been spoiled (`Directory.Dir.AddLink`); that name is then missing unless
  another entry has it (`Directory.NameGone`, `Dentry.SpoiledName`, `Dentry.SpoiledExample`).
* `f2fs_add_link` refuses a directory of the greatest depth even when a block has room
  (`Directory.Dir.AddLink`).
* Journal lookup takes the first item for a nid, flushing lets the last one win
  (`NatJournal.Nat.Flush` says where that makes no difference).
* Journal items for nid 0 and for the node and meta inodes put the count of valid table
  entries off. `Off` says by how much, from table and journal alone
  (`NatJournal.BuildArea`, `NatJournal.OffExample`).
* The block cache goes by block numbers relative to a device. With several devices a read can
  return another device's block; it never does exactly when no block number is used on two
  devices (`DeviceCache.TransparentIff`, `DeviceCache.TwoDevices`).
* Conversion to UTF-16 and back accepts more than UTF-8, and returns exactly the texts of code
  points without NUL and high surrogates (`Utf.ComesBackExactly`).

## Model

| member | source | states |
|---|---|---|
| `QuotaModel.DiskRoundTrip` | fsck/quotaio_v2.c:47-98 | a record is written as it is, an all-zero one with the marker; it comes back from disk unchanged if and only if it is not the one taken for the marker of an all-zero record; no record is written as an unused slot |
| `QuotaModel.PrefixStep` | fsck/quotaio_tree.c:51-54 | the index of an id at each level extends its prefix by one base-256 digit, and four digits give the id |
| `QuotaModel.OffsetRoundTrip` | fsck/quotaio_tree.c:373-391 | block and slot are recovered from the byte offset kept for a record |
| `QuotaSteps.TakeFreeKeeps` | fsck/quotaio_tree.c:89-117 | unlinking the head of the free list keeps the invariant of the whole file |
| `QuotaSteps.GrowKeeps` | fsck/quotaio_tree.c:89-117 | so does adding a block at the end of the file |
| `QuotaSteps.PutFreeKeeps` | fsck/quotaio_tree.c:120-132 | so does giving a block back, which then heads the free list |
| `QuotaSteps.SetRefKeeps` | fsck/quotaio_tree.c:290-293 | writing the one missing reference makes the whole tree consistent |
| `QuotaSteps.AttachNodeKeeps` | fsck/quotaio_tree.c:265-293 | a new tree block above an existing child leaves only its own reference missing |
| `QuotaSteps.DetachNodeKeeps` | fsck/quotaio_tree.c:424-435 | taking out a tree block without children leaves only its own reference over |
| `QuotaRecords.UnlinkKeeps` | fsck/quotaio_tree.c:135-165 | taking a block out of the doubly linked list joins its neighbours and changes nothing else |
| `QuotaRecords.LinkKeeps` | fsck/quotaio_tree.c:168-190 | linking a block in front keeps the list doubly linked and free of repetitions |
| `QuotaRecords.ReserveOpenKeeps` | fsck/quotaio_tree.c:209-242 | reserving a slot that is not the last keeps the invariant but for the path still missing |
| `QuotaRecords.ReserveLastKeeps` | fsck/quotaio_tree.c:225-242 | so does reserving the last slot, with the block leaving the list |
| `QuotaRecords.ReserveNewKeeps` | fsck/quotaio_tree.c:213-242 | so does opening a new block |
| `QuotaRecords.WriteRecordKeeps` | fsck/quotaio_tree.c:345-352 | a record written into a reserved or used slot restores the invariant |
| `QuotaRecords.ReleaseOpenKeeps` | fsck/quotaio_tree.c:387-398 | freeing a slot of an open block keeps it but for the reference left over |
| `QuotaRecords.ReleaseFullKeeps` | fsck/quotaio_tree.c:392-396 | so does freeing a slot of a full block, which joins the list |
| `QuotaRecords.ReleaseLastKeeps` | fsck/quotaio_tree.c:384-386 | so does freeing the last record, with the block leaving the list and joining the free blocks |
| `QuotaPaths.InsertedMap` | fsck/quotaio_tree.c:306-316 | an insertion adds one id to those that have a slot and keeps every record |
| `QuotaPaths.NotInsertedMap` | fsck/quotaio_tree.c:306-316 | a failed insertion leaves the map as it was |
| `QuotaPaths.RemovedMap` | fsck/quotaio_tree.c:444-451 | a removal takes exactly the id out of the map |
| `QuotaPaths.CommitReads` | fsck/quotaio_v2.c:299-311 | after a commit the id reads nothing if what was committed has no usage and no limits, and otherwise what was committed, so that it reads as committed exactly unless it was grace times only; it is stored exactly when it has usage or a limit; other ids read as before |
| `QuotaPaths.GraceTimeDropped` | fsck/quotaio_v2.c:299-311 | a block grace time that is lost |
| `QuotaPaths.RunReads` | fsck/quotaio_v2.c:299-311 | after any run of commits each id reads what its last commit says, and the others what they did |
| `QuotaTree.QuotaFile.constructor` | fsck/quotaio_v2.c:236-269 | a new file satisfies the invariant and stands for the empty map |
| `QuotaTree.QuotaFile.GetFreeBlock` | fsck/quotaio_tree.c:89-117 | a block from the free list or a new one, in no other use; failure only when the file cannot grow, and then nothing has changed |
| `QuotaTree.QuotaFile.PutFreeBlock` | fsck/quotaio_tree.c:120-132 | the block joins the free list and the invariant holds |
| `QuotaTree.QuotaFile.RemoveFreeEntry` | fsck/quotaio_tree.c:135-165 | exactly the neighbours' links, the head and the block's own links change |
| `QuotaTree.QuotaFile.InsertFreeEntry` | fsck/quotaio_tree.c:168-190 | the block becomes the head and the old head points back to it |
| `QuotaTree.QuotaFile.FreeSlot` | fsck/quotaio_tree.c:232-240 | the first unused slot of a block that is not full |
| `QuotaTree.QuotaFile.FindFreeEntry` | fsck/quotaio_tree.c:193-248 | a slot is reserved for the id, counted in its block's header; the block leaves the list of open blocks exactly when it is full |
| `QuotaTree.QuotaFile.ReserveInOpen` | fsck/quotaio_tree.c:209-247 | the same when there is an open block |
| `QuotaTree.QuotaFile.DoInsertTree` | fsck/quotaio_tree.c:251-303 | the path to the id exists and everything else is kept; or the file could not grow and only the free list and the length may differ |
| `QuotaTree.QuotaFile.FreeEntry` | fsck/quotaio_tree.c:363-402 | the id's slot is free again, its block freed with the last record or open again |
| `QuotaTree.QuotaFile.RemoveTree` | fsck/quotaio_tree.c:405-441 | the id is gone and no tree block but the root is left without children |
| `QuotaTree.QuotaFile.IsBlank` | fsck/quotaio_tree.c:429-430 | whether all references are zero |
| `QuotaTree.QuotaFile.FindBlockEntry` | fsck/quotaio_tree.c:454-477 | the offset of the slot that holds the id's record |
| `QuotaTree.QuotaFile.FindTreeEntry` | fsck/quotaio_tree.c:480-503 | following the digits from any node of the path gives that offset, or 0 where the path ends |
| `QuotaTree.QuotaFile.FindEntry` | fsck/quotaio_tree.c:506-510 | 0 if and only if the id is not in the map |
| `QuotaTree.QuotaFile.WriteDquot` | fsck/quotaio_tree.c:319-360 | the map is updated at the id only; a write to a stored id cannot fail; a failed write leaves the map unchanged |
| `QuotaTree.QuotaFile.DeleteDquot` | fsck/quotaio_tree.c:444-451 | the map loses the id only |
| `QuotaTree.QuotaFile.CommitDquot` | fsck/quotaio_v2.c:299-311 | a dquot without usage and limits is removed, any other stored; afterwards the id reads what was committed exactly unless that was grace times only, and every other id reads as before |
| `QuotaTree.QuotaFile.ReadDquot` | fsck/quotaio_tree.c:515-550 | what was stored for the id, or nothing |
| `QuotaTree.QuotaFile.Run` | fsck/quotaio_v2.c:299-311 | any run of read-modify-commit rounds leaves the map the commits describe, up to the first that cannot grow the file; each id then reads its last commit, exactly unless that was grace times only |
| `QuotaTree.QuotaFile.WriteDquots` | fsck/mkquota.c:45-64 | all dquots of a dictionary are stored, up to the first that cannot grow the file; each one stored reads back as written, exactly unless it was grace times only |
| `QuotaScan.ReportBlock` | fsck/quotaio_tree.c:558-590 | one report for each used slot of the block, and the block's count |
| `QuotaScan.ReportTree` | fsck/quotaio_tree.c:605-642 | below the node every data block has been read once and its records reported once |
| `QuotaScan.FindSetBits` | fsck/quotaio_tree.c:644-653 | the number of bits set in the bitmap |
| `QuotaScan.ScanDquots` | fsck/quotaio_tree.c:655-687 | the reports list the map without omission or repetition, with the right numbers of records and data blocks |
| `QuotaScan.BlocksPartitioned` | fsck/quotaio_tree.c:89-190 | every block after the header is a tree block with one place in the trie, a data block that is home to an id, or a block of the free list; the list of open blocks holds exactly the data blocks with a free slot |
| `NormText.EncodeDecode3` | lib/nls_utf8.c:176-203 | a three-byte encoding decodes to its value |
| `NormText.HangulParts` | lib/nls_utf8.c:349-384 | the string made for a syllable spells its parts, and the parts determine the syllable |
| `NormText.LookupDecomposes` | lib/nls_utf8.c:394-462 | a decomposition the lookup gives needs no further decomposition |
| `NormOrder.ExchangeKeepsOrder` | lib/nls_utf8.c:706-732 | exchanging one reorderable pair does not change the canonical order |
| `NormOrder.CanonicalOrdering` | lib/nls_utf8.c:706-732 | however reorderable pairs are exchanged, once none is left the text is `Reorder` of what it was |
| `NormSettle.ExchangeSettles` | lib/nls_utf8.c:706-732 | every exchange lessens a measure of disorder |
| `NormSettle.RunEnds` | lib/nls_utf8.c:706-732 | so no run of exchanges goes on for ever |
| `NormSettle.Settles` | lib/nls_utf8.c:706-732 | and some run leads from every text to its canonical order |
| `NormOrder.ReorderIsCanonical` | lib/nls_utf8.c:706-732 | `Reorder` is a permutation without reorderable pairs |
| `NormOrder.ExpectedIsReorder` | lib/nls_utf8.c:706-732 | what the repeated scans deliver, class by class, is `Reorder` when no lookup fails |
| `NormOrder.ExpectedFails` | lib/nls_utf8.c:768-770 | a failed lookup anywhere is never passed over |
| `NormParse.ValidIsGoodAndClean` | lib/nls_utf8.c:394-462 | well-formed text is text all of whose lookups succeed and which has no stray continuation bytes |
| `NormParse.GoodMeans` | lib/nls_utf8.c:745-770 | the lookups that are made on the way are those at bytes that are no continuation bytes |
| `NormParse.ValidMeans` | lib/nls_utf8.c:745-770 | a text all of whose lookups succeed is well-formed exactly when no byte is stray |
| `NormParse.FlatGood` | lib/nls_utf8.c:768-770 | the decomposed text contains a failure exactly when some lookup fails |
| `NormCursor.Cursor.constructor` | lib/nls_utf8.c:664-687 | a new cursor is about to deliver what is expected of the text: characters decomposed, marks by class, up to a failed lookup |
| `NormCursor.Cursor.Enter` | lib/nls_utf8.c:776-792 | going into a decomposition keeps what is still to be delivered |
| `NormCursor.Cursor.OnChar` | lib/nls_utf8.c:794-846 | delivers the next expected byte of a character of the current class, or changes only the position of the scan |
| `NormCursor.Cursor.Step` | lib/nls_utf8.c:745-847 | one round of the loop delivers the next expected byte, ends, fails, or comes closer to one of these |
| `NormCursor.Cursor.Byte` | lib/nls_utf8.c:733-848 | each call ends and delivers the next byte still to be delivered; 0 comes at the end, and -1 only when some lookup fails |
| `NormCursor.Drain` | lib/nls_utf8.c:733-848 | repeated calls deliver exactly the expected bytes and end in failure if and only if a lookup fails |
| `NormCursor.Normalized` | lib/nls_utf8.c:664-848 | a whole text: success exactly when it does not begin with a continuation byte and every other byte that should start a known character does; failure tells the truth exactly for texts without stray bytes, with an unknown character, or with a continuation byte in front; of well-formed text the bytes are its canonical order |
| `NormCursor.NormalForm` | lib/nls_utf8.c:733-848 | for well-formed text these bytes are the decomposed text in canonical order |
| `NormCursor.FailureReported` | lib/nls_utf8.c:69-75 | no lookup fails exactly when every byte but continuation bytes starts a known character; the text is well-formed exactly when also no continuation byte is stray |
| `NormCursor.StrayIsDelivered` | lib/nls_utf8.c:69-75 | a text of two bytes that is ill-formed and not reported |
| `NormCursor.Casefold` | lib/nls_utf8.c:889-918 | of text without stray bytes the folded bytes and their number when they fit, and otherwise the error for a long name; of well-formed text these are the bytes of its decomposition in canonical order; invalid is reported exactly for a leading continuation byte |
| `NormUtf.FormIsWhole` | lib/nls_utf8.c:166-171 | the length taken from its first byte is the length of the UTF-8 form, of one to four bytes, of every code point |
| `NormUtf.FormIsUtf8` | lib/nls_utf8.c:176-203 | that form is the one the conversion from UTF-16 gives, and for three bytes the one of the three-byte helpers |
| `NormUtf.ContIs` | lib/nls_utf8.c:753-760 | continuation bytes are those whose two highest bits are 10 |
| `NormUtf.SyllableIs` | lib/nls_utf8.c:350-386 | a Hangul syllable stands for its two or three jamo, by the numbers of section 3.12 of The Unicode Standard, exactly when its leaf says so; any other leaf is as the trie has it |
| `NormUtf.TextIsValid` | lib/nls_utf8.c:664-848 | the UTF-8 text of any code points that the table knows is well-formed, has no stray byte and does not begin with one, and its characters are those of its code points, one after the other; so the promises for well-formed text hold of it |
| `RbTree.LeftHolds` | fsck/dict.c:82-104 | a left rotation turns the tree in focus and keeps every parent pointer and everything around it |
| `RbTree.RightHolds` | fsck/dict.c:110-129 | the same for a right rotation |
| `RbTree.LeftTurnedInorder` | fsck/dict.c:77-104 | a rotation keeps the order of the nodes |
| `RbTree.RightTurnedInorder` | fsck/dict.c:106-129 | so does the other one |
| `RbFix.HangHolds` | fsck/dict.c:567-576 | hanging a red node at an empty place keeps everything else in memory as it was |
| `RbFix.PushStep` | fsck/dict.c:584-593 | recolouring with a red uncle keeps the tree red-black but for a red node two levels up |
| `RbFix.TurnStepLeft` | fsck/dict.c:594-605 | the turn at a black uncle leaves nothing wrong but perhaps a red root |
| `RbFix.TurnStepRight` | fsck/dict.c:606-625 | the same on the other side |
| `RbFix.BlackRoot` | fsck/dict.c:628 | colouring the root black leaves a red-black tree with the same order |
| `RbShrink.SpliceHolds` | fsck/dict.c:705-718 | taking out a node with at most one child leaves the rest of the tree held in memory, its child under the old parent |
| `RbShrink.Replaced` | fsck/dict.c:660-702 | a node with two children is replaced by its successor, in place and colour, and the successor's old place closed |
| `RbShrink.Removed` | fsck/dict.c:705-718 | a node with at most one child is gone from the order; what is missing is at most one black node above its child |
| `RbShrink.StartDeficit` | fsck/dict.c:730-733 | colouring the root red makes the deficit one that the loop can move or make up for |
| `RbShrink.RedSisterLeft` | fsck/dict.c:740-746 | a red sister is turned into a black one without changing the deficit |
| `RbShrink.BlackNephewsLeft` | fsck/dict.c:747-750 | recolouring the sister moves the deficit up by one node |
| `RbShrink.NearNephewLeft` | fsck/dict.c:752-759 | the near nephew comes up, so that the far one is red |
| `RbShrink.FarNephewLeft` | fsck/dict.c:760-764 | the last turn makes up for the missing black node |
| `RbShrink.RedSisterRight` | fsck/dict.c:770-776 | the mirror image of `RedSisterLeft` |
| `RbShrink.BlackNephewsRight` | fsck/dict.c:777-780 | the mirror image of `BlackNephewsLeft` |
| `RbShrink.NearNephewRight` | fsck/dict.c:782-789 | the mirror image of `NearNephewLeft` |
| `RbShrink.FarNephewRight` | fsck/dict.c:790-794 | the mirror image of `FarNephewLeft` |
| `RbShrink.EndDeficit` | fsck/dict.c:799 | colouring the red node at which the loop ends black makes up for the missing node |
| `RbShrink.SettleRoot` | fsck/dict.c:800 | with a black root the tree is red-black again, in the same order |
| `RbDict.VerifyRedBlack` | fsck/dict.c:187-210 | not zero exactly for a red-black subtree, and then its black height |
| `RbDict.VerifyNodeCount` | fsck/dict.c:217-224 | the number of nodes |
| `RbDict.Dict.constructor` | fsck/dict.c:323-337 | an empty dictionary |
| `RbDict.Dict.RotateLeft` | fsck/dict.c:82-104 | performs the writes that `RbTree.LeftHolds` is about |
| `RbDict.Dict.RotateRight` | fsck/dict.c:110-129 | performs the writes that `RbTree.RightHolds` is about |
| `RbDict.Dict.FindPlace` | fsck/dict.c:554-565 | the empty place behind everything not above the key and before everything above it |
| `RbDict.Dict.Insert` | fsck/dict.c:542-631 | the order of entries gains exactly the new one, behind its equals; search order, black heights, colours, parent pointers, sentinel and count all hold |
| `RbDict.Dict.FixUp` | fsck/dict.c:580-628 | from a tree that is red-black but for one red pair to a red-black tree with the same order |
| `RbDict.Dict.Turn` | fsck/dict.c:594-624 | the rotations at a black uncle leave nothing wrong but the colour of the root |
| `RbDict.Dict.Unlink` | fsck/dict.c:660-722 | the node is out of the order, its child where the loop is to start, and its colour the one that went missing |
| `RbDict.Dict.Rebalance` | fsck/dict.c:728-801 | from a tree with one black node missing above a place to a red-black tree with the same order |
| `RbDict.Dict.HealLeft` | fsck/dict.c:737-765 | one round settles the tree or moves the deficit strictly closer to the root |
| `RbDict.Dict.HealRight` | fsck/dict.c:766-796 | the same on the other side |
| `RbDict.Dict.Delete` | fsck/dict.c:639-806 | the order of entries loses exactly the given node, and the same invariant holds |
| `RbDict.Dict.Lookup` | fsck/dict.c:438-469 | the first entry with the key, among duplicates too, or none |
| `RbDict.Dict.Earliest` | fsck/dict.c:457-463 | from any match to the first entry with the key |
| `RbDict.Dict.First` | fsck/dict.c:837-846 | the first entry of the order |
| `RbDict.Dict.Next` | fsck/dict.c:869-888 | the entry that follows in the order, or none behind the last |
| `RbDict.Dict.Walk` | fsck/mkquota.c:45-64 | first and next enumerate the whole order |
| `Segments.FitsIsFree` | fsck/mount.c:2704-2770 | a block the search may stop at is free in both maps, outside the current segments of a writable image, and in a segment that is empty or of the wanted type |
| `Segments.FreeSegsCount` | fsck/mount.c:104-116 | counting segment by segment gives the size of the set of segments that are empty and not current |
| `Segments.TotalCount` | fsck/mount.c:2026-2044 | where every segment's count is that of its bitmap, the counts together are the number of bits set in all segments |
| `Segments.FreshSound` | fsck/mount.c:2052-2075 | empty segments meet the invariant of bitmaps and counts, and so do segments with one block taken and recorded |
| `Image.Volume.GetFreeSegments` | fsck/mount.c:104-116 | the number of segments without valid blocks that are not current, counted by the loop and as the size of their set |
| `Image.Volume.SectionIsEmpty` | fsck/mount.c:2746-2756 | whether every segment of the section is empty |
| `Image.Volume.Probe` | fsck/mount.c:2725-2767 | stops exactly at a block that fits; a segment is skipped only when nothing in it fits |
| `Image.Volume.FindNextFree` | fsck/mount.c:2704-2770 | ends in either direction with the first block that fits, or with none when none fits. In counts and bits alone: it stops ahead of the start, outside the current segments, at a free block of the wanted type or of an empty section, and takes no empty segment when at most one more than the reserved segments are free; every such block ahead of the start is reached, so the search ends there or before. Only the segments of an opened section change, and only their type |
| `Image.SearchedSo` | fsck/mount.c:2716-2768 | what makes a block fit, unfolded: enough segments are free, by the size of their set, or the segment is not empty; and it starts an empty section or is of the wanted type |
| `Image.Volume.ReserveNewBlock` | fsck/segment.c:23-102 | refused exactly at a limit; otherwise the first block that fits, with the same two-sided statement in counts and bits; the block was free and is the only one to become live, of the wanted type and with its summary; the whole state of every segment and the three counts afterwards; no block exactly when none fits |
| `Image.Volume.ReserveAll` | fsck/segment.c:23-102 | no run of reservations hands out a live block or a block twice, and it ends early only at a limit or where no block can be had, in counts and bits as for one reservation |
| `Image.LiveKinds` | fsck/f2fs.h:426-428 | a block is live exactly when its bit is set, and data exactly when its segment has one of the three data types |
| `Image.Volume.UpdateDataBlkaddr` | fsck/mount.c:2204-2254 | the pointer follows, and the inode's extent is emptied exactly when it covered the old address |
| `Image.Volume.MigrateBlock` | fsck/defrag.c:12-61 | summaries and pointers stay inverse to each other, every file reads what it read, and the number of valid blocks is unchanged; the extent that covered the block is emptied and every other extent is as it was; both segments are dirty and the target has the type of the source |
| `Image.Volume.MoveOut` | fsck/defrag.c:74-89 | one live block moves to the first place that fits ahead of the target, or nothing changes and there is none |
| `Image.Volume.Defragment` | fsck/defrag.c:63-102 | all of that over a whole run; extents that have no block in the source range are as they were; it fails only at a live block for which no place fits; when the search leads away from the source range, success leaves nothing live in it |
| `Image.Volume.MigrateMain` | fsck/resize.c:168-209 | the whole area moves up over itself, by any number of blocks: every file reads the same, live blocks are exactly the old ones shifted, and the summaries of the old places describe the new ones |
| `Image.Volume.MoveUp` | fsck/resize.c:187-202 | one block moves up with its pointer or table entry, and files read the same |
| `Owners.DataMovedOwned` | fsck/mount.c:2204-2254 | moving a data block with its pointer keeps ownership and contents, and empties the extent that covers it and no other |
| `Owners.NodeMovedOwned` | fsck/mount.c:2256-2282 | moving a node block with its table entry does so too, and changes no extent |
| `Owners.TwoBlocksMove` | fsck/mount.c:2204-2254 | a file of two blocks with an extent is such an image; when its first block moves, the pointer follows, the extent is emptied and both blocks read as before |
| `Owners.StaysOwned` | fsck/mount.c:2204-2254 | pointing at a block where it already is keeps ownership and contents, and empties the extent that covers it |
| `ResizeAreas.UpIsSafe` | fsck/resize.c:325-391 | a table that moves up by whole segments never writes over a block it has yet to read, whatever sets are in use |
| `ResizeAreas.NatMoved` | fsck/resize.c:342-365 | a safe move puts every block in use into set 0 of its new place and changes nothing else |
| `ResizeAreas.NatLost` | fsck/resize.c:342-365 | where a block would be written over before it is read, some image loses it |
| `ResizeAreas.NatSafeIsExact` | fsck/resize.c:342-365 | a move is safe if and only if it puts every block in its place on every image |
| `ResizeAreas.NatArea.MoveBlocks` | fsck/resize.c:342-365 | performs the moves the two lemmas are about; after a safe move, block o of segment s is at newBase + 2 * s * 512 + o as it was at oldBase + 2 * s * 512 + o, or a segment behind that if its bit was set |
| `ResizeAreas.NatArea.ZeroBlocks` | fsck/resize.c:366-387 | exactly the new blocks become empty, every entry of theirs 0 |
| `ResizeAreas.NatArea.MigrateNat` | fsck/resize.c:325-391 | after a safe move every nid has its entry, every block is at its address as for MoveBlocks, new blocks are empty and the bitmap is clear |
| `ResizeAreas.NatLayout` | fsck/mount.c:1342-1363 | the table starts at its base, blocks of a segment follow one another, behind a segment comes that of the other set, and the two copies of a block are a segment apart |
| `ResizeAreas.SsaMoved` | fsck/resize.c:211-275 | under a safe plan every summary is in its place, or its place is as it was if the footer is not known; the rest of the area is zero and nothing else has changed |
| `ResizeAreas.SsaLost` | fsck/resize.c:211-275 | any unsafe plan fails on some image whose footers are all known, whatever is cached |
| `ResizeAreas.SafeIsExact` | fsck/resize.c:211-275 | a plan is safe if and only if it puts every summary in its place on every image |
| `ResizeAreas.DownForgets` | fsck/resize.c:261-270 | two images that differ in one such summary only end up the same, or keep it where another one belongs |
| `ResizeAreas.SsaArea.MigrateSsa` | fsck/resize.c:235-275 | the loops perform the writes the two lemmas are about; after a safe plan the summary of segment s, from memory if it is there and otherwise from oldBase + s, is at newBase + s - offset, or that place is as it was if the footer on the device is not known, and the rest of the area is zero |
| `Checkpoint.MidwayOld` | fsck/mount.c:1088-1125 | while the last block of the new pack is missing a mount picks the old one |
| `Checkpoint.CompleteNew` | fsck/mount.c:1127-1175 | with it in place a mount picks the new one, also where the version wraps |
| `Checkpoint.NextAfter` | fsck/mount.c:1156-1160 | the next version is after the present one and not the other way round, modulo 2^64 |
| `Checkpoint.AfterGap` | fsck/f2fs.h:41-43 | of two versions k apart the later one is after the earlier exactly when 0 < k < 2^63, and the earlier after the later exactly when k > 2^63, modulo 2^64 |
| `Checkpoint.NewerIsChosen` | fsck/mount.c:1148-1175 | of two valid packs a mount picks the newer one, whichever it is and however far it is ahead below 2^63 |
| `Checkpoint.Area.WritePack` | fsck/resize.c:548-585 | the blocks of the new pack, with a mount finding the old pack or all of the new one after every write |
| `Checkpoint.Area.WriteBits` | fsck/mount.c:1456-1545 | the nat bits are written only when the flag is kept, and then are block by block the end of the segment without touching either pack if the pack fits |
| `Checkpoint.Finished` | fsck/resize.c:591-594 | disabling the old pack leaves the new one, or nothing if it did not fit |
| `Checkpoint.TooLong` | fsck/resize.c:494-594 | an old pack of 512 blocks with 504 orphan blocks and one block of new payload: a mount finds the old pack before and none after |
| `Checkpoint.OrphanBlocks` | fsck/resize.c:565-573 | as blocks of the device, the first n behind the new payload are those behind the old one if and only if these are all alike |
| `Checkpoint.PackRead` | fsck/fsck.c:1901-1912 | a mount reads the summaries of the new pack, and never an orphan block |
| `Checkpoint.OldOrphans` | fsck/fsck.c:1901-1912 | the old pack has orphan blocks to read exactly when it says so and its summaries leave room for them; they are the blocks behind the payload |
| `Checkpoint.OrphanLost` | fsck/resize.c:494-594 | one orphan block that a mount reads before and not after |
| `Checkpoint.Area.Rebuild` | fsck/resize.c:494-594 | if the new pack fits into a segment, after every prefix of the writes a mount finds the old pack or all of the new one, and in the end the new one with its version, size, flags, summaries and no orphan blocks, which is what the old one had exactly when it had none, and with the nat bits at the end of the segment if they fit beside it; if it does not fit, no pack is left in the end |
| `Recovery.ChainDistinct` | fsck/mount.c:3289-3350 | a walk that ends never comes back to a block |
| `Recovery.ChainLongest` | fsck/mount.c:3289-3350 | no walk is longer than the one that ends |
| `Recovery.SelfLoop` | fsck/mount.c:3289-3350 | from a block that leads to itself no walk ends |
| `Recovery.GetFsyncInode` | fsck/mount.c:3250-3260 | the entry of the inode, if there is one |
| `Recovery.FindFsyncInode` | fsck/mount.c:3289-3350 | succeeds exactly when the walk ends within fewer blocks than are free; the list then has each synced inode once, with its last synced block |
| `Recovery.Recorder.RecordData` | fsck/mount.c:3391-3430 | marks the blocks that pointers lead to and succeeds exactly when all pointers but null, new and compressed ones lead into the main area; segments in which nothing was recorded become warm data |
| `Recovery.DataOfIs` | fsck/f2fs.h:534-540 | the blocks a node leads to are its addresses but 0, 0xFFFFFFFF and 0xFFFFFFFE |
| `Recovery.Recorder.DoRecord` | fsck/mount.c:3352-3431 | marks the node block and the blocks it leads to, and fails exactly when the node block is in use or an address is invalid; where nothing was recorded, the node's segment becomes warm node and the others of its blocks warm data |
| `Recovery.Recorder.TraverseDnodes` | fsck/mount.c:3433-3478 | ends on the same chain; on success the list is empty, exactly the blocks of synced inodes up to their last synced block are marked, and each segment in which nothing was recorded has the type of the first block marked in it; fails exactly when some block cannot be |
| `Recovery.Recorder.RecordFsyncData` | fsck/mount.c:3480-3502 | exactly the blocks of synced inodes are marked and the segments typed by the first block marked in them, all else is as it was, counts stay equal to the bits of both maps, and the current map stays within the recorded one; fails only when the walk does not end in time or a block cannot be marked |
| `NodePath.RoundTrip` | fsck/dump.c:641-661 | the path of a block ends in a direct node that starts where the block's index says, and passes only nodes that are not direct |
| `NodePath.SingleStart` | fsck/dump.c:641-661 | where a direct node below an indirect one starts |
| `NodePath.DoubleStart` | fsck/dump.c:641-661 | where a direct node below the double indirect one starts |
| `NodePath.PathsDiffer` | fsck/node.c:169-241 | different blocks have different places |
| `NodePath.GetNodePath` | fsck/node.c:169-241 | fills in that path, and fails exactly for blocks beyond the longest file |
| `NodeWalk.GetDnode` | fsck/node.c:243-316 | the node at the end of the path, the place in it, and the address there |
| `NodeWalk.FollowIsSub` | fsck/node.c:169-241 | the path of a block leads where counting through the tree leads |
| `NodeWalk.DumpNode` | fsck/dump.c:294-350 | dumps what is under the node in order and goes on behind its capacity |
| `NodeWalk.DumpInode` | fsck/dump.c:422-470 | dumps every block that has an address, once |
| `NodeWalk.AllMeans` | fsck/dump.c:422-464 | in ascending order, each at the address its path leads to |
| `ExtentCheck.Child.constructor` | fsck/fsck.c:604-610 | nothing has been met yet |
| `ExtentCheck.Child.CheckInfo` | fsck/fsck.c:612-663 | one more block address: all that was met still continues the extent, or something is wrong for good |
| `ExtentCheck.Child.CheckLast` | fsck/fsck.c:612-663 | clear if and only if the extent maps its range block by block among the addresses met, with nothing else in it, or is the one kind that is overlooked |
| `ExtentCheck.BrokenMeans` | fsck/fsck.c:638-662 | something wrong makes the extent untrue whatever comes after it |
| `ExtentCheck.LastTest` | fsck/fsck.c:628-633 | the test of the last block decides what the others left open |
| `ExtentWalk.CheckNode` | fsck/fsck.c:1200-1337 | every address under a node is met once and in order, and a missing node is stepped over by its capacity |
| `ExtentWalk.WalkFile` | fsck/fsck.c:942-1034 | all addresses of the file are met, in ascending order, and what is not met has none |
| `ExtentWalk.CheckFile` | fsck/fsck.c:942-1038 | clear if and only if the extent describes the file that the paths of its blocks lead to, or is missed; for extents that cannot be missed, if and only if it describes the file |
| `ExtentWalk.CheckIsExact` | fsck/fsck.c:628-633 | some file exists of which the check is wrong if and only if the extent ends at block 0 and its range, in 32 bits, does not start among the inode's own blocks |
| `ExtentWalk.MissedOnHoles` | fsck/fsck.c:628-633 | every such extent passes on a file of holes, of which it is not true |
| `ExtentWalk.MissedExample` | fsck/fsck.c:628-633 | an extent of one block at block 0, for a block under a missing node |
| `DirTiles.Covered` | fsck/f2fs.h:624-650 | every block of the levels is in a bucket |
| `DirTiles.Disjoint` | fsck/f2fs.h:624-650 | no block is in two |
| `DirTiles.DirBlockIndex` | fsck/f2fs.h:640-650 | the first block of a bucket, as long as block numbers fit 32 bits; in numbers as long as the buckets double |
| `DirTiles.GetCurrentLevel` | fsck/fsck.c:1480-1491 | the level of a block, under the same condition; in numbers as long as the buckets double |
| `DirTiles.BeforeIs` | fsck/f2fs.h:624-650 | where a level starts, in numbers: 2 * (2^(level + dirLevel) - 2^dirLevel) as long as the buckets double, 2^31 blocks a level further from 2^30 buckets on, and 2^32 from level 31 on |
| `DirTiles.BucketIs` | fsck/f2fs.h:624-650 | the blocks of the bucket of a hash at any level, in numbers, without the bucket functions |
| `DirTiles.SearchedAt` | fsck/fsck.c:1493-1511 | a block of a level is searched for a hash exactly when it is one of two given by the hash modulo 2^(level + dirLevel) |
| `DirTiles.CheckPosition` | fsck/fsck.c:1493-1511 | an entry is accepted exactly where a lookup for its hash would search; at the first level, exactly in the two blocks from 2 * (hash % 2^dirLevel) on |
| `Dentry.FindTarget` | fsck/dir.c:64-98 | the first entry of the block with the name |
| `Dentry.RoomFor` | fsck/dir.c:20-36 | the first run of free slots that is long enough, or none if there is none |
| `Dentry.Added` | fsck/dir.c:198-216 | a name that was absent is found at its slot and the block stays well formed; a lookup changes only for the name behind a spoiling one, as it was or with a zero in front |
| `Dentry.OtherName` | fsck/dir.c:198-216 | another live name changes exactly when it lies right behind a name that fills its slots and does not start with a zero byte |
| `Dentry.SpoiledName` | fsck/dir.c:198-216 | when a name spoils the one behind it, a lookup of that one does not come to its entry any more, and one of the same name with a zero in front finds something |
| `Dentry.SpoiledExample` | fsck/dir.c:198-216 | a block in which the name behind can not be found any more |
| `Directory.Dir.FindInLevel` | fsck/dir.c:110-165 | what the blocks of the name's bucket say about it, first one first; as long as the buckets double, the two blocks given in numbers |
| `Directory.Dir.FindEntry` | fsck/dir.c:167-179 | what the levels say about it, first one first |
| `Directory.AddedLookup` | fsck/dir.c:221-334 | what lookups find once an entry is in a block of its own bucket: the new name, and for all others but the spoiled one what they found |
| `Directory.SpoiledLookup` | fsck/dir.c:198-216 | adding an entry and spoiling the name behind first, then adding it where it does no harm, are the same to every lookup |
| `Directory.NameGone` | fsck/dir.c:198-216 | a name that only the entry behind has is missing from the directory once it is spoiled |
| `Directory.Dir.AddLink` | fsck/dir.c:221-334 | refused exactly at the greatest depth; otherwise one entry goes to the first slots with room in the first block of its bucket in the first level that has any, or to a new level, as long as the buckets double one of the two blocks given in numbers; an absent name is found afterwards, and every other lookup gives what it would give had only the name behind been spoiled, which for all but that name is what it gave |
| `NatJournal.Nat.LookupInJournal` | fsck/mount.c:2862-2878 | the first item for the nid |
| `NatJournal.Nat.GetNatEntry` | fsck/mount.c:2179-2202 | the journal over the table |
| `NatJournal.LookupIsOver` | fsck/mount.c:2542-2577 | the first item and the last one give the same exactly where the journal is settled |
| `NatJournal.Nat.Flush` | fsck/mount.c:2542-2577 | a lookup is unchanged by flushing exactly where the first and last items for the nid agree; always when nids are distinct |
| `NatJournal.LoadTable` | fsck/mount.c:3097-3158 | entries, bits and both counts as the table says |
| `NatJournal.MergeJournal` | fsck/mount.c:3160-3193 | items of the journal replace what the table says, for every nid; bits and both counts follow |
| `NatJournal.BuildArea` | fsck/mount.c:3065-3199 | entries, bitmap and both counts are given by table and journal alone, also for nid 0 and the node and meta inodes; the count of valid entries is that of live ordinary nids exactly when `Off` is 0, as it is when the journal has ordinary nids only |
| `NatJournal.CountIsOff` | fsck/mount.c:3139-3190 | what the count is off by: live last items for special nids, and what the journal does to nid 0 |
| `NatJournal.OffExample` | fsck/mount.c:3160-3193 | a journal item that puts the count off |
| `BlockCache.FirstMet` | lib/libf2fs_io.c:260-278 | a cached block is met before any free slot |
| `BlockCache.ProbesAround` | lib/libf2fs_io.c:253-258 | the other places for a block are its first one moved by the offsets of the table, around the ends of the cache |
| `BlockCache.LoadArranged` | lib/libf2fs_io.c:281-295 | whatever is evicted, every cached block stays findable and in one slot |
| `BlockCache.Cache.Find` | lib/libf2fs_io.c:260-278 | the block's slot if it is cached; otherwise a free slot or the least used of all it may use |
| `BlockCache.Cache.IoRead` | lib/libf2fs_io.c:281-295 | the block is cached and the cache agrees with the device |
| `BlockCache.Cache.Read` | lib/libf2fs_io.c:522-548 | what the device holds, across block boundaries |
| `BlockCache.Cache.UpdateCache` | lib/libf2fs_io.c:311-371 | cached blocks agree with the device as it will be |
| `BlockCache.Cache.Write` | lib/libf2fs_io.c:567-596 | device and cache both hold the data, and agree |
| `BlockCache.Cache.Run` | lib/libf2fs_io.c:522-596 | any sequence of reads and writes gives what the bare device would give |
| `BlockCache.FindIn` | lib/libf2fs_io.c:260-278 | the search as a function of the slots, with the same meaning |
| `DeviceCache.Disks.constructor` | lib/libf2fs_io.c:54-68 | several devices behind an empty cache |
| `DeviceCache.Disks.ReadBlock` | lib/libf2fs_io.c:522-548 | a block from the cache by its number alone, or else from the given device |
| `DeviceCache.Disks.WriteBlock` | lib/libf2fs_io.c:567-596 | a cached block by its number alone, and the block of the given device |
| `DeviceCache.ThroughIsBare` | lib/libf2fs_io.c:54-68 | where every block number belongs to one device, any run gives what the bare devices would give |
| `DeviceCache.Confused` | lib/libf2fs_io.c:54-68 | two reads of one number on two devices give the first device's block twice |
| `DeviceCache.TransparentIff` | lib/libf2fs_io.c:54-68 | all runs of the accesses foreseen give what the bare devices would give if and only if no block number is used on two devices |
| `DeviceCache.TwoDevices` | lib/libf2fs_io.c:54-68 | two devices of one block each, of which the second is read wrongly |
| `Utf.Decoded8` | lib/libf2fs.c:57-100 | decoding undoes encoding of every 31-bit number, in all six forms and wherever the bytes stand |
| `Utf.Decoded16` | lib/libf2fs.c:102-155 | the same for UTF-16, surrogate pairs included |
| `Utf.Undecodable` | lib/libf2fs.c:57-100 | decoding fails exactly at a continuation byte, at 0xFE or 0xFF, and where fewer bytes are left than the first byte asks for |
| `Utf.Undecodable16` | lib/libf2fs.c:141-155 | in UTF-16 decoding fails exactly at a high surrogate without a low one behind it; a pair gives one code point above 0xFFFF, and any other unit itself |
| `Utf.Surrogates` | lib/libf2fs.c:102-116 | a code point above 0xFFFF becomes a high and a low surrogate that give it back |
| `Utf.Utf8ToUtf16` | lib/libf2fs.c:118-139 | decodes and encodes character by character up to a NUL, with both errors |
| `Utf.Utf16ToUtf8` | lib/libf2fs.c:204-225 | the same in the other direction |
| `Utf.RoundTrip` | lib/libf2fs.c:57-225 | every sequence of code points without NUL and high surrogates converts there and back, exactly when the buffers are large enough |
| `Utf.BackIsText` | lib/libf2fs.c:204-225 | whatever units come in, the bytes that go out are the shortest forms of such code points |
| `Utf.ComesBackExactly` | lib/libf2fs.c:57-225 | a byte sequence converts there and back to itself if and only if it is the text of such code points and the buffers are large enough |

## Left out

- I/O errors, short reads and allocation failure, except the failure of a quota file to grow, which is the field `limit`.
- Byte layout, endianness and checksums: fields are numbers, and a checkpoint block passes its checksum exactly when it is whole.
- QuotaTree.QuotaFile.WriteDquots: the ids are distinct and new to the file, as those of a dictionary without duplicates written into a new file are.
- Quota: file header, magic numbers, grace-time updates, a callback that aborts the scan, and 32-bit overflow of byte offsets in files beyond 4 GiB.
- QuotaTree.QuotaFile.CommitDquot: takes the offset the caller read from the file as given, because every caller reads the dquot from the same file first or knows that it is not stored.
- NormCursor.Cursor.Byte: of text with stray continuation bytes only success and failure are stated, because such bytes are delivered wherever a scan meets them, in no promised order.
- NormCursor.Casefold: for the same text only the cases that end in an error before the first byte, and what success implies, are stated.
- Normalisation: the character tables themselves (`utf8data.h` is not part of this model), version selection and the length functions.
- Dictionaries: key comparison is that of unsigned numbers, as all users have it; node data, allocator hooks, loading and merging; `NULL` and the sentinel are one pointer; pointers are indices into one memory, so that nothing is said about nodes shared between dictionaries.
- Blocks of the main area: zoned devices, compressed clusters, and fsck's own bitmaps and counters in `reserve_new_block`.
- Image.Volume.Defragment: covers the loop over the source range on an image with empty journals and a clean checkpoint; moving the current segments and writing the checkpoint afterwards are left out.
- Image.Volume.MigrateBlock: the summaries of current segments, which the code also keeps in memory, are one map with those on the device.
- Image.Volume.UpdateDataBlkaddr: the file index of a node block is a field of the block, where the code derives it from the node's offset.
- ResizeAreas.NatArea.MigrateNat: the largest nid is the end of a block, as the table's size in segments makes it.
- Resizing: the superblock layout, `migrate_sit`, `shrink_nats` and the counts in the new checkpoint.
- Recovery: `last_dentry`, which nothing here reads; `is_recoverable_dnode` is a property of a block.
- NodeWalk.GetDnode: models lookup only, not the allocation of missing nodes.
- ExtentWalk.CheckFile: files with inline data, for which any extent is unmatched, and compressed clusters are left out; a node that fails its own checks is not distinguished from a missing one.
- DirTiles.CheckPosition: is stated for blocks of levels that take fewer than 2^32 blocks, because the 32-bit sum wraps beyond.
- Directory: block numbers do not overflow, names are not empty and take at most a block, the hash is a parameter, and link counts and sizes of the parent inode are left out; a zero byte behind the last slot of a block, which the code writes outside the block, is dropped.
- DeviceCache.Disks.ReadBlock: is given a device and a block number relative to it, which the code computes from the address; as in WriteBlock, accesses are whole blocks.
- BlockCache: no dry run, no `dev_fill`, statistics, and the slots that are not cleared on allocation: the cache starts with no valid slot.
- Utf: the terminator, for which the callers leave room; wide characters have 32 bits, as the source makes them on Windows too.
- The rest of the repository: checking and repairing whole images, formatting, `sload`, compression, extended attributes, printing and option parsing.
