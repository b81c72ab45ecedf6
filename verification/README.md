# Verified model of the uCore tools and libraries

This project models five parts of the uCore teaching system (lab 8) and proves what they are for:

* the builder of SFS images, `lab8/tools/mksfs.c`: allocation, the three-level block index, the two hashed caches,
  the walk over a host directory, the flush with its free map, and a reader of the finished image
  (modules `SfsLayout`, `SfsIndex`, `SfsState`, `SfsAppend`, `SfsTree`, `SfsGrowth`, `SfsWalk`, `SfsClose`,
  `Mksfs`, `SfsReader`, `SfsAccount`, `SfsMirror`,
  `SfsImage`, `SfsSearch`, `SfsLinks`);
* the skew heap, `lab8/libs/skew_heap.h` (`SkewHeap`);
* the formatter and the number parser, `lab8/libs/printfmt.c` and `lab8/libs/string.c`
  (`Sink`, `Numbers`, `Printf`, `FormatLaws`, `TextLaws`), and the copying functions of the latter (`Memory`);
* the tokenizer of the shell, `gettoken` in `lab8/user/sh.c` (`Shell`, `ShellLaws`);
* the random number generator, `lab8/libs/rand.c` (`Rand`, `RandValues`).

`Modular` holds arithmetic and `Common` types that several modules share.

`dafny verify dfyconfig.toml` checks the whole project.

## How the image builder is modelled

`Mksfs.Sfs` is the structure `sfs_fs`; its methods are the C functions, and those that would print a message and
exit answer false. Each is proved against a function or a relation on `SfsState.State`, the same fields as a value
plus bookkeeping: the blocks of each file in order, the use of every number, how often each block was written.
`SfsState.Inv` is the invariant that all of them keep. `SfsTree.Node` is the host directory, a finite tree whose
nodes carry host inode numbers; `SfsTree.WellFormed` says that a number names one object and that a directory occurs
once. `SfsTree.Placed` is a tree of inode numbers, and `SfsTree.PlacedAt` says that it is in the image.
`SfsReader.ReadTree` looks at the bytes of the image only, and `SfsMirror.KidsMirror` says what of the host directory
it shows in terms of the entries themselves.

The reader of a directory tree takes a depth, since an arbitrary image may have cycles; the theorem holds for every
depth from the height of the tree on.

## Where the code differs from what is said about it

* `add_entry` accepts names of 255 bytes but writes 256 of the 260 bytes of an entry, so names survive only up to
  252 bytes (`SfsLayout.EntryReadsBack`, `SfsImage.KidsExactIff`).
* `alloc_cache_block` files a block under the hash of its argument, which is always 0; the search for it would
  usually fail (`Mksfs.SearchFindsIff`, and `SfsSearch` for runs in which it does), but it is never made
  (`Mksfs.PointersCurrent`).
* `create_sfs` stores the number of blocks in 32 bits before it caps it, so an image file of 2^44 bytes or more may
  count as a small one; `Mksfs.CapWorksIff` says exactly when the cap works, and `Mksfs.HugeFileIsTooSmall` gives
  a file of 16 TiB that is refused.
* The link count has 16 bits, so that of a file is right for fewer than 65536 entries only
  (`SfsImage.LinkCountIsExactIff`); `SfsLinks` gives a directory for which the image says 2 instead of 65538.
* `rand` is documented to return values from 0; it never returns 0 (`Rand.OutputsOfOnePeriod`).
* `printnum` is documented for base 1, in which it terminates for 0 only (`Numbers.PrintNumEndsIff`).
* `strtol` is documented to skip whitespace and, in base 16, a prefix 0X; it skips blanks, tabs and 0x only. It answers
  as documented exactly if neither occurs (`Numbers.ParsedAsDocumentedIff`, `Numbers.NewlineIsNotSkipped`,
  `Numbers.CapitalPrefix`).
* `%d` puts the sign before the padding, so negative numbers padded with blanks do not read back, and the flag to pad
  on the right pads numbers on the left, with minus signs, so that `%-2d` shows 7 as -7
  (`FormatLaws.SignedReadsBackIff`, `FormatLaws.MinusPadding`).
* `gettoken` terminates a word only in the next call, so a redirection sees its file name together with the rest
  of the command (`Shell.TerminatedWhenReturnedIffLast`).

## Model

| member | source | states |
|---|---|---|
| `SfsImage.CreateImg` | lab8/tools/mksfs.c:544-559 | create_img succeeds exactly if the image file has room for what the directory needs and the format can hold it; then a byte-level reader that starts at block 1 gets back, at every level, exactly the directories, files and symbolic links whose names do not start with a dot, each with its contents and the first 252 bytes of its name, two entries share an inode exactly if they are hard links to one host file, directories and links have increasing numbers of their own, types, sizes, link counts, free map and super block agree with the contents, the inodes read, with contents and index blocks, account for every number handed out, and each block below the last one used is written exactly once and no other |
| `SfsImage.ImageReads` | lab8/tools/mksfs.c:466-559 | everything a reader finds in the flushed image of a finished walk: tree, sharing, link counts, free map |
| `SfsImage.CreateSfs` | lab8/tools/mksfs.c:223-254 | create_sfs fails exactly if the bookkeeping blocks leave nothing over; otherwise the state is the initial one and keeps the invariant |
| `Mksfs.CapWorksIff` | lab8/tools/mksfs.c:226-230 | the cap on the number of blocks works if and only if that number fits into 32 bits or leaves at least the cap there |
| `Mksfs.BigEnoughIff` | lab8/tools/mksfs.c:226-235 | create_sfs goes on if and only if the number of blocks, reduced to 32 bits, is at least 4 |
| `Mksfs.HugeFileIsTooSmall` | lab8/tools/mksfs.c:226-235 | an image file of 16 TiB counts as having no block and is refused as too small |
| `SfsImage.KidsExactIff` | lab8/tools/mksfs.c:428-437 | the image shows a directory with its full names if and only if no kept name in it exceeds 252 bytes |
| `SfsImage.ExactIff` | lab8/tools/mksfs.c:428-437 | the same for a whole tree |
| `SfsImage.LongNameIsCut` | lab8/tools/mksfs.c:428-437 | a name of 253 bytes is accepted and does not survive |
| `SfsMirror.KidsMirrored` | lab8/tools/mksfs.c:473-511 | whatever the walk makes of a directory, its kids are in order and one for one the entries that are directories, files or symbolic links and whose names do not start with byte 46, with clipped names and their objects, down to the leaves |
| `SfsMirror.Mirrored` | lab8/tools/mksfs.c:473-511 | the same for any node |
| `SfsMirror.Indices` | lab8/tools/mksfs.c:476-506 | the positions of those entries, by membership and order |
| `SfsMirror.FitsIff` | lab8/tools/mksfs.c:110-116 | what the format can hold, in numbers: 128 MiB, 4095 bytes of target, 32766 entries, names of 255 bytes |
| `SfsImage.EnoughIff` | lab8/tools/mksfs.c:223-254 | when create_img succeeds, in numbers and about the entries themselves |
| `SfsImage.InodesOnDisk` | lab8/tools/mksfs.c:428-473 | inodes in the image: type, size, and links, which are 2 + child directories (at most 32768) for a directory, the number of entries modulo 65536 for a file, 1 for a symbolic link |
| `SfsImage.LabelReads` | lab8/tools/mksfs.c:239-239 | the label of the file system reads back from the super block |
| `SfsImage.LinkCountIsExactIff` | lab8/tools/mksfs.c:436-436 | the link count of a file in the image is the number of entries the host directory has for it if and only if that is below 65536 |
| `SfsLinks.TreeIsAccepted` | lab8/tools/mksfs.c:466-514 | three directories with 21846 hard links each to one file are accepted for an image of 2^31 bytes, and that makes 65538 entries for the file |
| `SfsLinks.MiscountedLinks` | lab8/tools/mksfs.c:544-559 | the image that create_img makes of them gives the file a link count of 2 |
| `SfsLinks.CountIsTwo` | lab8/tools/mksfs.c:436-436 | so does every image that agrees with them |
| `SfsImage.SharingKept` | lab8/tools/mksfs.c:449-457 | file entries have the same inode number exactly if they have the same host number |
| `SfsImage.FreeMapReads` | lab8/tools/mksfs.c:312-335 | a free-map bit is set exactly for the existing numbers that were not handed out, the padding of the last block included |
| `SfsImage.OnesCount` | lab8/tools/mksfs.c:312-335 | the number of ones of a map with the bits of one interval is the length of the interval |
| `SfsImage.SpaceOnDisk` | lab8/tools/mksfs.c:223-242 | free map, count of its ones and unused_blocks of the super block agree |
| `SfsImage.SuperReads` | lab8/tools/mksfs.c:150-157 | magic number, block count and unused count are read back from the super block |
| `SfsReader.TreeReads` | lab8/tools/mksfs.c:397-542 | the reader gets back every placement in the state from the bytes of the image, for every depth that suffices |
| `SfsReader.KidsRead` | lab8/tools/mksfs.c:466-514 | the entries of a directory are read back in order, with names and objects |
| `SfsReader.FileReads` | lab8/tools/mksfs.c:516-530 | the contents of a file are read back to the byte |
| `SfsReader.ContentsOnDisk` | lab8/tools/mksfs.c:516-530 | the first k blocks of a file hold the first k chunks of its contents |
| `SfsReader.LinkReads` | lab8/tools/mksfs.c:532-542 | the target of a symbolic link is read back |
| `SfsReader.NumberOnDisk` | lab8/tools/mksfs.c:397-426 | following direct, indirect and double-indirect numbers in the bytes of the image gives the k-th block of the file |
| `SfsReader.IndexPath` | lab8/tools/mksfs.c:404-422 | the slots that lead to block k of a file are in use and hold its number |
| `SfsReader.InodeFits` | lab8/tools/mksfs.c:134-142 | every field of a cached inode fits its C type |
| `SfsReader.CompleteOnDisk` | lab8/tools/mksfs.c:302-349 | after the flush the image holds the encoded inodes and index blocks and all data |
| `SfsAccount.RootAccount` | lab8/tools/mksfs.c:173-212 | conservation: the blocks handed out are the inodes a reader reaches from the root, each counted once and the root not, plus the contents and index blocks of each |
| `SfsAccount.NeedIsUsed` | lab8/tools/mksfs.c:397-464 | the same for any subtree: what it needs, hard links counted once, is what a reader counts |
| `SfsAccount.KidsNeedIsUsed` | lab8/tools/mksfs.c:466-514 | the same for the entries of a directory |
| `Mksfs.Sfs.constructor` | lab8/tools/mksfs.c:236-253 | the initial state: root inode, empty caches, numbers from behind the free map |
| `Mksfs.InitialInv` | lab8/tools/mksfs.c:223-254 | the initial state keeps the invariant |
| `Mksfs.Sfs.AllocIno` | lab8/tools/mksfs.c:173-180 | hands out the next number, fails exactly if there is none |
| `Mksfs.Sfs.AllocCacheBlock` | lab8/tools/mksfs.c:182-190 | a zeroed index block, filed under the hash of the argument |
| `Mksfs.Sfs.SearchCacheBlock` | lab8/tools/mksfs.c:192-199 | finds a number exactly if it is in the chain of its own hash |
| `Mksfs.SearchFindsIff` | lab8/tools/mksfs.c:182-199 | a cached index block is found by the search if and only if its number hashes to 0 |
| `SfsSearch.SearchMisses` | lab8/tools/mksfs.c:182-199 | after every run of open_dir on a directory with one file of 13 blocks, in an image of one free-map block, there is a cached index block that the search would not find |
| `SfsSearch.RunNumbers` | lab8/tools/mksfs.c:428-457 | in such a run, call by call: the entries are 3, 4 and 20, the inode is 5, its blocks are 6 to 18 |
| `SfsSearch.MissedNumber` | lab8/tools/mksfs.c:182-199 | so the index block is number 19, cached in chain 0 and not in chain 760, where the search would look |
| `SfsSearch.SearchAfterRun` | lab8/tools/mksfs.c:182-199 | the calls of such a run, and the search for 19 in the state they leave: it finds nothing |
| `Mksfs.Sfs.AllocCacheInode` | lab8/tools/mksfs.c:201-212 | a blank inode with the given number or else the next one, filed under its host number |
| `Mksfs.Sfs.SearchCacheInode` | lab8/tools/mksfs.c:214-221 | finds an inode with the host number, or there is none |
| `Mksfs.Sfs.WriteBlock` | lab8/tools/mksfs.c:287-300 | writes the data padded with zeros, unless the assertion fails |
| `Mksfs.Sfs.UpdateCache` | lab8/tools/mksfs.c:382-395 | allocates, keeps the current block or searches; what each case does to the state |
| `Mksfs.PointersCurrent` | lab8/tools/mksfs.c:382-422 | in every state that keeps the invariant the cached l1 and l2 pointers are current, so the search branch is dead |
| `Mksfs.Sfs.Locate` | lab8/tools/mksfs.c:404-422 | the calls of update_cache before a block is stored fail only if the numbers run out |
| `Mksfs.Sfs.AppendBlock` | lab8/tools/mksfs.c:397-426 | fails exactly if the file is too big or the numbers for its index run out; otherwise the file gains the block |
| `Mksfs.Sfs.PutBlock` | lab8/tools/mksfs.c:433-435 | allocate, write and append: the file gains a block with these bytes, nothing else changes, the invariant stays |
| `Mksfs.Sfs.AddEntry` | lab8/tools/mksfs.c:428-437 | when it succeeds, the entry it adds, and the 16-bit link count it increments |
| `Mksfs.Sfs.OpenFile` | lab8/tools/mksfs.c:516-530 | all chunks of the contents are put into the file, or exactly why not |
| `Mksfs.Sfs.OpenLink` | lab8/tools/mksfs.c:532-542 | the target is put into the link, unless it fills a block |
| `Mksfs.Sfs.FindFile` | lab8/tools/mksfs.c:450-455 | the cached file with this host number, which holds these contents, or a new one |
| `Mksfs.Sfs.AddFile` | lab8/tools/mksfs.c:449-457 | succeeds exactly if the entry fits; a known host number costs no block but the entry |
| `Mksfs.Sfs.AddLink` | lab8/tools/mksfs.c:459-464 | succeeds exactly if the entry fits; the link is placed with one link |
| `Mksfs.Sfs.OpenDir` | lab8/tools/mksfs.c:466-514 | succeeds exactly if all kept entries fit, and takes exactly the blocks they need; then they are all placed, in order, and nothing placed before has changed |
| `Mksfs.Sfs.VisitEntry` | lab8/tools/mksfs.c:485-510 | one kept entry, whatever its kind |
| `Mksfs.Sfs.AddDir` | lab8/tools/mksfs.c:439-447 | succeeds exactly if the subtree fits; the assertion that the directory is not cached holds; the parent gains an entry and a link |
| `Mksfs.Sfs.FreeMapWords` | lab8/tools/mksfs.c:317-332 | the words of one free-map block have exactly the bits of the free numbers in its range |
| `Mksfs.Sfs.WriteFreeMap` | lab8/tools/mksfs.c:312-335 | all free-map blocks, ending just before the first number that can be allocated |
| `Mksfs.Sfs.Close` | lab8/tools/mksfs.c:312-349 | every number below next_ino has been written exactly once with what belongs there, and no other; the assertions of write_block hold |
| `SfsWalk.DirVisited` | lab8/tools/mksfs.c:439-447 | add_dir as a whole: placement, sharing, links and what it preserves |
| `SfsWalk.WalkedMore` | lab8/tools/mksfs.c:473-511 | one more entry extends what the walk has built |
| `SfsWalk.WalkStep` | lab8/tools/mksfs.c:473-511 | the walk gets past an entry exactly if it is hidden, or its name and object fit |
| `SfsWalk.NextUnvisited` | lab8/tools/mksfs.c:440-441 | no directory of the next entry has been cached |
| `SfsGrowth.FileVisited` | lab8/tools/mksfs.c:449-457 | add_file as a whole |
| `SfsGrowth.LinkVisited` | lab8/tools/mksfs.c:459-464 | add_link as a whole |
| `SfsGrowth.PlacedFrame` | lab8/tools/mksfs.c:428-542 | what is in place stays in place while directories outside it grow |
| `SfsGrowth.AddsTrans` | lab8/tools/mksfs.c:428-542 | steps compose: link counts of files add up, new numbers increase, new host numbers join |
| `SfsGrowth.FilesHoldFrame` | lab8/tools/mksfs.c:449-457 | cached files keep their contents |
| `SfsGrowth.InodeConserved` | lab8/tools/mksfs.c:201-212 | a new inode keeps the block account |
| `SfsAppend.PutConserved` | lab8/tools/mksfs.c:397-437 | a new block and its index blocks keep the block account: numbers handed out = (inodes - 1) + sum of contents and index blocks |
| `SfsAppend.AppendedInv` | lab8/tools/mksfs.c:397-426 | append_block keeps the invariant, the index of every file included |
| `SfsAppend.AppendedEffect` | lab8/tools/mksfs.c:397-426 | what append_block changes and what it leaves alone |
| `SfsAppend.IndexSpellsBlocks` | lab8/tools/mksfs.c:397-426 | looking up block k through the three levels gives the k-th number appended |
| `SfsAppend.AppendKeepsLookups` | lab8/tools/mksfs.c:397-426 | an append adds its number at the end and disturbs no other lookup of any file |
| `SfsState.WithInodeInv` | lab8/tools/mksfs.c:201-212 | a new inode keeps the invariant |
| `SfsState.WithWriteInv` | lab8/tools/mksfs.c:287-300 | writing a newly allocated block keeps the invariant |
| `SfsState.WithLinkInv` | lab8/tools/mksfs.c:436-436 | counting a link keeps the invariant |
| `SfsIndex.GrowIndirect` | lab8/tools/mksfs.c:408-413 | the first block behind the direct ones gets an indirect block |
| `SfsIndex.GrowDouble` | lab8/tools/mksfs.c:414-421 | the first block behind the indirect ones gets a double-indirect block and its first child |
| `SfsIndex.GrowChild` | lab8/tools/mksfs.c:414-421 | a further child of the double-indirect block |
| `SfsIndex.FillSlot` | lab8/tools/mksfs.c:408-422 | storing the number extends the spelled sequence and disturbs no earlier block |
| `SfsIndex.IndexBlocksGrow` | lab8/tools/mksfs.c:404-422 | index blocks allocated for block n are the difference of 0 (up to 12 blocks), 1 (up to 1036), 2 + ceil((n - 1036) / 1024) |
| `SfsClose.SetBitAdds` | lab8/tools/mksfs.c:331-331 | or-ing 1 << k into a word adds 2^k if that bit was off |
| `SfsClose.SetBitReads` | lab8/tools/mksfs.c:331-331 | or-ing 1 << k into a word sets bit k and no other |
| `SfsClose.OneBitMore` | lab8/tools/mksfs.c:330-332 | one turn of the inner loop of the free map |
| `SfsClose.FlushOne` | lab8/tools/mksfs.c:302-310 | one block more has been flushed, for the first time |
| `SfsClose.AllFlushed` | lab8/tools/mksfs.c:312-349 | the blocks flushed and those written before are the numbers below next_ino |
| `SfsClose.ChainsSeparate` | lab8/tools/mksfs.c:337-348 | no number is in two places of the chains |
| `SfsClose.FlushComplete` | lab8/tools/mksfs.c:312-349 | the finished image is complete |
| `SfsLayout.InodeReadsBack` | lab8/tools/mksfs.c:134-142 | decoding an encoded inode gives the inode |
| `SfsLayout.LittleEndian` | lab8/tools/mksfs.c:287-300 | words are stored least significant byte first |
| `SfsLayout.InodeHeadReadsBack` | lab8/tools/mksfs.c:134-142 | size, type and links, blocks, indirect and double-indirect number are at byte offsets 0, 4, 8, 60 and 64 |
| `SfsLayout.EntryLayout` | lab8/tools/mksfs.c:168-171 | an entry starts with the inode number, and its name follows at byte 4 |
| `SfsLayout.PaddedWords` | lab8/tools/mksfs.c:287-300 | the words written to a block are read back |
| `SfsLayout.EntryReadsBack` | lab8/tools/mksfs.c:428-437 | an entry reads back with its name cut to 252 bytes; the name survives if and only if it is no longer |
| `SkewHeap.Entry.Init` | lab8/libs/skew_heap.h:23-27 | the three links are cleared |
| `SkewHeap.Merge` | lab8/libs/skew_heap.h:29-59 | the links of the result form the merged tree, the returned root keeps its parent link, and the calls of the comparator object are as many as the tree function counts |
| `SkewHeap.Comparing.Compare` | lab8/libs/skew_heap.h:37-37 | one call of the comparator, counted |
| `SkewHeap.CallsBetween` | lab8/libs/skew_heap.h:29-59 | a merge makes at least as many calls as the shorter path to the right has nodes, and fewer than both together |
| `SkewHeap.MergedNodes` | lab8/libs/skew_heap.h:29-59 | merging keeps exactly the nodes of both heaps |
| `SkewHeap.MergedDistinct` | lab8/libs/skew_heap.h:29-59 | no node occurs twice after a merge: the result is a tree |
| `SkewHeap.MergedOrdered` | lab8/libs/skew_heap.h:29-59 | merging keeps heap order for every sound comparator |
| `SkewHeap.RootIsLeast` | lab8/libs/skew_heap.h:29-59 | the root of an ordered heap is a least element |
| `SkewHeap.Insert` | lab8/libs/skew_heap.h:61-67 | the result is a well-formed heap on the old nodes and the new one |
| `SkewHeap.Unlink` | lab8/libs/skew_heap.h:69-85 | links and root after the removal of a root, left or right child |
| `SkewHeap.Remove` | lab8/libs/skew_heap.h:69-85 | the result is a well-formed heap on exactly the other nodes, its root without parent |
| `SkewHeap.RemovedNodes` | lab8/libs/skew_heap.h:69-85 | removal takes out exactly the node |
| `SkewHeap.RemovedOrdered` | lab8/libs/skew_heap.h:69-85 | removal keeps heap order |
| `SkewHeap.MergeAmortised` | lab8/libs/skew_heap.h:29-59 | comparator calls plus the rise in right-heavy nodes are at most 2 lg(size(a) + 1) + 2 lg(size(b) + 1) |
| `SkewHeap.OpAmortised` | lab8/libs/skew_heap.h:61-85 | amortised cost of one insertion or root removal |
| `SkewHeap.RunFromEmpty` | lab8/libs/skew_heap.h:29-85 | a run of n insertions and root removals from the empty heap makes at most n (4 lg(n + 1) + 2) comparator calls |
| `SkewHeap.Run` | lab8/libs/skew_heap.h:61-85 | a run of insertions and root removals on the links: the heap it leaves is well-formed, and the calls that the comparator object counts are within that bound |
| `SkewHeap.PopKeepsHeap` | lab8/libs/skew_heap.h:69-85 | removing the root removes a least element |
| `SkewHeap.DrainedIsSorted` | lab8/libs/skew_heap.h:29-85 | removing roots until nothing is left hands out every entry once, in order |
| `Sink.SprintBuf.Put` | lab8/libs/printfmt.c:309-315 | counts every character, stores it only while there is room |
| `Numbers.PrintNum` | lab8/libs/printfmt.c:53-69 | emits the digits, padded on the left to the width, for all bases up to 16 and numbers for which it ends |
| `Numbers.PrintNumEndsIff` | lab8/libs/printfmt.c:53-69 | the recursion ends if and only if the base is at least 2 or the number is 0 |
| `Numbers.OneInBaseOne` | lab8/libs/printfmt.c:43-61 | in base 1 every nested call for 1 is given 1 again |
| `Numbers.DigitsSpellValue` | lab8/libs/printfmt.c:53-69 | the digits printed have the value of the number |
| `Numbers.LeadingZeros` | lab8/libs/printfmt.c:63-66 | zero padding does not change the value |
| `Numbers.Strtol` | lab8/libs/string.c:215-271 | for any base: value, wrapped to 64 bits, and end position are those of the reference parser |
| `Numbers.ReadHead` | lab8/libs/string.c:215-242 | blanks, sign and prefix |
| `Numbers.ParsedAsDocumentedIff` | lab8/libs/string.c:193-270 | value and end position are what the comment promises if and only if no whitespace other than blanks and tabs comes first and there is no 0X in base 16; otherwise strtol stops too early |
| `Numbers.HeadAsDocumentedIff` | lab8/libs/string.c:193-242 | the same for the start of the digits, the base and the sign, against a head that is defined from the comment alone |
| `Numbers.NewlineIsNotSkipped` | lab8/libs/string.c:220-223 | a newline and 7 read as 0 and stop at once, where the comment promises 7 |
| `Numbers.CapitalPrefix` | lab8/libs/string.c:233-242 | 0X1f in base 16 reads as 0 and stops at the X |
| `Numbers.ReadDigits` | lab8/libs/string.c:244-265 | the longest run of digits of the base, accumulated with 64-bit wrap-around |
| `Numbers.PrintedReadsBackIff` | lab8/libs/printfmt.c:53-69 | what printnum prints in base 2 to 16 with any width and any of the three pad characters is read back by strtol, to the end, if and only if the number is below 2^63 and, where the padding is minus signs, there is none or a single one before 0 |
| `Numbers.NegativeReadsBackIff` | lab8/libs/printfmt.c:245-252 | a negative number reads back if and only if it is at least -2^63 and the padding between sign and digits is zeros or there is none, for all three pad characters |
| `Printf.Strnlen` | lab8/libs/string.c:33-40 | the length, capped |
| `Printf.PutString` | lab8/libs/printfmt.c:221-242 | a string with width, precision, padding and replaced characters |
| `Printf.PutSigned` | lab8/libs/printfmt.c:244-252 | sign first, then the padded digits |
| `Printf.PutError` | lab8/libs/printfmt.c:207-219 | the message for an error code of either sign |
| `Printf.PutConversion` | lab8/libs/printfmt.c:202-285 | every conversion character |
| `Printf.ReadModifiers` | lab8/libs/printfmt.c:155-200 | flags, width, precision and length modifiers, and where they end |
| `Printf.BackUp` | lab8/libs/printfmt.c:287-292 | the cursor comes back to just behind the percent sign of the escape |
| `Printf.PutEscape` | lab8/libs/printfmt.c:150-293 | one escape: its output, the cursor and the arguments taken |
| `Printf.VPrintFmt` | lab8/libs/printfmt.c:135-295 | terminates on every format, never reads past its NUL, and emits the reference output |
| `Printf.VSNPrintF` | lab8/libs/printfmt.c:347-358 | the buffer holds the first min(total, size - 1) characters and a NUL, nothing else changes, the result is the full length; -E_INVAL for a null buffer or size 0 |
| `FormatLaws.LiteralText` | lab8/libs/printfmt.c:143-148 | text without percent signs is copied |
| `FormatLaws.UnknownEscapeIsCopied` | lab8/libs/printfmt.c:287-292 | an unrecognised escape is copied as it stands |
| `FormatLaws.SpelledEscape` | lab8/libs/printfmt.c:150-285 | an escape written from its flags is read as those flags, anywhere in a format |
| `FormatLaws.SignedReadsBackIff` | lab8/libs/printfmt.c:244-252 | %d output with any of the three pad characters reads back if and only if the number is a long and there is no padding, or it is zeros, blanks before a number that is not negative, or the one minus sign of -0 |
| `FormatLaws.MinusPadding` | lab8/libs/printfmt.c:158-161 | %-2d shows 7 as -7, which reads back as -7 |
| `FormatLaws.BlankAfterSign` | lab8/libs/printfmt.c:244-252 | -7 printed with %3d does not read back |
| `FormatLaws.UnsignedReadsBackIff` | lab8/libs/printfmt.c:254-279 | %u, %o and %x from format string, with any flags, and the unsigned int or long that was passed to the number read: recovered if and only if it is below 2^63 and, where the padding is minus signs, there is none or a single one before 0 |
| `FormatLaws.PointerReadsBackIff` | lab8/libs/printfmt.c:266-279 | %p likewise, read in base 16 or with the base left open: recovered if and only if it is below 2^63 and the padding between 0x and the digits is zeros or there is none |
| `FormatLaws.FormatReadsBack` | lab8/libs/printfmt.c:244-252 | the same from format string, with any flags, and the int or long that was passed to the number read |
| `FormatLaws.SignedIsTakenOut` | lab8/libs/printfmt.c:94-105 | getint takes out the int or long that was put into the slot |
| `FormatLaws.UnsignedIsTakenOut` | lab8/libs/printfmt.c:76-87 | getuint takes out the unsigned int or unsigned long that was put into the slot |
| `TextLaws.StringIsPrinted` | lab8/libs/printfmt.c:221-242 | %s: length, position, padding and characters of what is printed |
| `TextLaws.CharIsPrinted` | lab8/libs/printfmt.c:202-205 | %c prints one byte |
| `TextLaws.PercentIsPrinted` | lab8/libs/printfmt.c:282-285 | %% prints a percent sign and takes no argument |
| `TextLaws.ErrorIsPrinted` | lab8/libs/printfmt.c:12-41 | %e prints the message of a code of either sign, or the word error and the absolute value, which reads back |
| `TextLaws.StarIsWidth` | lab8/libs/printfmt.c:179-195 | %*d takes the width from one argument and the number from the next |
| `TextLaws.StarIsPrecision` | lab8/libs/printfmt.c:179-195 | %.*s prints as much of a string as the argument before it says |
| `TextLaws.DigitsAreSmall` | lab8/libs/printfmt.c:68-68 | numbers are printed with decimal digits and small letters |
| `TextLaws.OneDigit` | lab8/libs/string.c:244-262 | strtol takes small and capital letters for the same digits, 10 to 35 |
| `FormatLaws.TextThenDecimal` | lab8/libs/printfmt.c:213-214 | the message for an unknown error code is its text and the number |
| `Memory.Memmove` | lab8/libs/string.c:304-323 | for every overlap the destination gets the old source and nothing else changes |
| `Memory.CopyDownwards` | lab8/libs/string.c:311-315 | the downward copy is right when the source starts before the destination |
| `Memory.CopyUpwards` | lab8/libs/string.c:316-320 | the upward copy, byte for byte, overlapping or not |
| `Memory.Memcpy` | lab8/libs/string.c:339-351 | what an upward copy leaves, also when the ranges overlap |
| `Memory.MemcpyAgrees` | lab8/libs/string.c:325-351 | memcpy does what memmove does if and only if the destination does not start inside the source or the source repeats at that distance |
| `Shell.GetToken` | lab8/user/sh.c:18-47 | the next token of the reference lexer, the cursor, and the buffer up to it |
| `Shell.SkipWhitespace` | lab8/user/sh.c:24-26 | whitespace becomes NUL and no token is skipped |
| `Shell.ScanWord` | lab8/user/sh.c:36-44 | a word runs to the next separator outside quotes; quotes become blanks |
| `Shell.Tokenize` | lab8/user/sh.c:18-47 | a whole run returns exactly the reference tokens and changes only whitespace, symbols and quotes |
| `ShellLaws.QuotedIsOdd` | lab8/user/sh.c:37-43 | a position is quoted exactly if an odd number of quotes precedes it |
| `ShellLaws.TokenAtIff` | lab8/user/sh.c:18-47 | tokens by characters and quote counts alone: a symbol outside quotes, or a position that does not break the command behind one that does |
| `ShellLaws.WordGoesOn` | lab8/user/sh.c:36-44 | a word ends exactly at the next whitespace or symbol outside quotes |
| `ShellLaws.AfterRun` | lab8/user/sh.c:18-47 | the buffer after a run, byte by byte |
| `ShellLaws.QuotedText` | lab8/user/sh.c:36-44 | no token starts inside the first quotes, a word that reaches them ends behind them, and the quoted text stays unchanged between two blanks |
| `ShellLaws.OneQuotedWord` | lab8/user/sh.c:36-44 | a command in quotes is one word |
| `ShellLaws.WordInBuffer` | lab8/user/sh.c:18-47 | after a run the C string at a word is what the buffer holds up to its end |
| `Shell.WordsAreTerminated` | lab8/user/sh.c:18-47 | after a run the C string at each word is that word |
| `Shell.WordWhenReturned` | lab8/user/sh.c:18-47 | at the moment a word is returned it still runs on into the rest of the command |
| `Shell.TerminatedWhenReturnedIffLast` | lab8/user/sh.c:133-150 | a redirection that uses its word at once gets exactly that word if and only if the command ends with it |
| `Shell.UnterminatedWord` | lab8/user/sh.c:133-150 | in "a b" the first word is not yet terminated when it is returned |
| `Shell.TokensAreStarts` | lab8/user/sh.c:18-47 | reference tokens are in order and start where tokens start |
| `Shell.StartsAreTokens` | lab8/user/sh.c:18-47 | every position where a token starts is a reference token |
| `Rand.Generator.Rand` | lab8/libs/rand.c:11-16 | one step of the state and the value returned, with 64-bit wrap-around and the unparenthesised divisor |
| `Rand.Generator.Srand` | lab8/libs/rand.c:22-25 | the seed becomes the state |
| `Rand.MaskOfWrapped` | lab8/libs/rand.c:13-13 | the 64-bit wrap-around does not affect the masked state |
| `Rand.GeometricDivisibility` | lab8/libs/rand.c:13-13 | for a = 1 mod 4 the sum of the first n powers of a has exactly the factors 2 that n has |
| `Rand.OrbitCoincides` | lab8/libs/rand.c:13-13 | two states of an orbit modulo 2^k coincide exactly if their distance is a multiple of 2^k |
| `Rand.FullPeriodPow2` | lab8/libs/rand.c:13-13 | for every k the orbit modulo 2^k visits each residue exactly once |
| `Rand.FullPeriod` | lab8/libs/rand.c:11-25 | from every seed 2^48 calls put the state through each 48-bit value exactly once |
| `Rand.PeriodIsExact` | lab8/libs/rand.c:11-25 | the state repeats exactly at multiples of 2^48 calls |
| `RandValues.LowBitsIgnored` | lab8/libs/rand.c:14-14 | states that agree but for their low 12 bits give the same value |
| `RandValues.OutputSteps` | lab8/libs/rand.c:14-15 | counting the other bits up goes through the values 1 to 2^31 - 1 in order and round again |
| `RandValues.FirstValue` | lab8/libs/rand.c:4-16 | the first call leaves the state 25214903928 and returns 6155983 |
| `RandValues.ValuesOfOnePeriod` | lab8/libs/rand.c:11-16 | over a period from any seed each value up to 32 is returned 33 * 4096 times and each other value up to RAND_MAX 32 * 4096 times |
| `Rand.OutputsOfOnePeriod` | lab8/libs/rand.c:9-15 | the values returned over a period are exactly 1 to RAND_MAX; 0 never is |

## Left out

- Kernel code, drivers, `list.h`, `atomic.h` and the test programs: not modelled.
- Host I/O of the image builder (open, read, pwrite, readdir, chdir, malloc, stat): the host directory is a value, reads deliver successive chunks of the contents, and the image is a map from block numbers to bytes; I/O errors are not modelled.
- The path list behind error messages (`subpath_push`, `subpath_pop`, `subpath_show`) and the check of the image file name in `open_img`: diagnostics only.
- Cached blocks and inodes are identified by their block numbers in maps and chains of numbers, not by pointers to one object each; aliasing between cache objects is not captured.
- SfsImage.CreateImg: the host directory has one object per number and lists each directory once, as a file system does; number 0, which the builder gives to the root, names nothing.
- SkewHeap.Merge: the comparator is an object around a function that looks at nothing the heap changes; every entry has a fixed rank, and -1 promises that the first rank is not above the second, any other answer the converse.
- Printf.PutError: the error code -2^31, whose negation overflows in C, is negated mathematically.
- Printf.ReadModifiers: widths, precisions and the count of `l` flags are unbounded integers; their overflow is undefined in C.
- Printf.VPrintFmt: widths and precisions are unbounded integers and the arguments are a sequence of words and strings.
- Printf.VSNPrintF: the count is an unbounded integer; addresses do not wrap around.
- Numbers.PrintNum: bases above 16, for which there are no digit characters, base 0, by which it divides, and base 1 with a number other than 0, for which it does not end.
- The console functions built on `vprintfmt`, and the string functions that only compare, copy or measure.
- `runcmd`, `reopen`, `readline` and `main` of the shell.
