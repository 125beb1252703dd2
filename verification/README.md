# A verified model of the FAT engine, the soft UART and the checksums

This project models, in Dafny 4.11, the FAT file system engine in `FatFs/ff.c` from the drive up to
open files and directories, and two small cores beside it: the bit-banged UART of
`boards/my_machine.c` and the checksums of `grbl/crc.c`. Everything stated here is proved by
Dafny's verifier about the model; nothing was executed.

## Configuration

The model takes `ff.c` with `FF_FS_READONLY` 0, `FF_FS_EXFAT` 0, `FF_FS_TINY` 0, `FF_LBA64` 0,
`FF_USE_FASTSEEK` 1, `FF_USE_FIND` 1, `FF_USE_MKFS` 1, `FF_USE_CHMOD` 1, `FF_USE_LFN` 1, `FF_MAX_LFN` 255,
`FF_LFN_UNICODE` 0, a single-byte code page, and 512-byte sectors. The shipped `FatFs/ffconf.h` is
read-only and has fast seek, find, mkfs and chmod off; what is proved about mounting, reading, seeking and
looking up names applies to the shipped build as it stands.

## How the model is built

The layers follow the code. An object whose fields the code updates is a class; the specification of
each layer is a function or relation on plain values, and the layer above sees only that.

| layer | modules | what it is reduced to |
|---|---|---|
| bytes, sectors, layout | `Numbers`, `Bytes`, `Sectors`, `Geometry` | sequences of bytes, the layout fields of a volume |
| drive and access window | `Volume` | the *image*: what the drive would hold if the window were written back now |
| FAT entries | `FatTable`, `FatAccess` | the table `cluster -> value` read from the image |
| cluster chains | `Chains`, `Allocation`, `ChainOps`, `FreeScan` | disjoint, acyclic, terminated chains; a count of free clusters |
| open files | `FileLayout`, `Files`, `FileRead`, `FileGrow`, `FileWrite`, `FileSeek`, `FileTruncate`, `LinkMap`, `FastSeek`, `Session`, `Pairs`, `LostSector` | a byte array with a position and a capacity; two of them that share their room |
| names | `Lfn`, `LongRuns`, `ShortName`, `Pattern` | unit sequences, 8.3 fields, the meaning of `?` and `*` |
| directories | `Directory`, `DirScan`, `DirStore`, `DirAttr` | the slots of a table, on any FAT contents |
| format and mount | `Format`, `FormatFat`, `Mount` | a layout, the boot sector that states it, and an empty FAT |
| soft UART | `SoftUart` | edges and samples in time |
| checksums | `Crc` | division of polynomials over GF(2) |

A volume is *watched* while files are open: two ghost fields remember the sector the access window
showed at first, which stays in no free cluster, and how long the log of drive states was. Every
operation keeps both promises `Files.Watched` makes: the window only ever shows that sector or one of
the FAT, and on FAT16 and FAT32 every drive state since has a well-formed FAT.

Proofs about methods work on snapshots: a method body starts with `hide *` and calls small lemmas
that unfold one definition each.

## Results about the code that are not what its comments say

* `pattern_match` counts the question marks of a wildcard term in eight bits, and the count's overflow
  into bit 8 is the mark of a star. `Pattern.FindsExactly` gives the exact condition under which the
  test of `f_findnext` agrees with the meaning of the pattern on the names it is given,
  `Pattern.Disagrees` a nonempty name on which it is wrong for every pattern outside the condition, and
  `Pattern.QuestionMarksWrap` one such pattern: 256 question marks find the name `A`.
* CREATE_LINKMAP fails on a sound chain that ends in the volume's last cluster with the number
  `n_fatent` as its end mark, because that value looks like the next cluster.
  `FastSeek.CreateLinkMap` states that this is the only case, and `FastSeek.LinkMapCanFail` shows a
  well-formed FAT with such a chain.
* The scan of `f_getfree` on FAT16 and FAT32 includes entries 0 and 1. `FreeScan.ScanIsRight` states that
  it is right if and only if both are nonzero, `FreeScan.ScanCanBeWrong` shows a well-formed FAT on
  which it is wrong, and `FormatFat.BlankIsEmpty` that it is right on a volume `f_mkfs` made.
* `mount_volume` adds up the layout in 32 bits. `Mount.MountedIsValid` states exactly when an accepted
  volume really has its areas apart and on the drive, and `Mount.WrappedVolumeMounts` gives a boot
  sector that is accepted although it has not.
* A file truncated at a sector boundary can keep a clean buffer over a sector it has lost. Another
  file may take the cluster, write to it and give it back. A seek of the first file past its end can
  then make the sector its own again without filling the buffer, which `f_lseek` does only if the
  position lies in another sector (`FatFs/ff.c:4507`). `FileSeek.Seek` gives the exact condition,
  known before the call, under which the buffer is wrong afterwards, and `Pairs.PerformTurns` that
  this is the only way two open files can get in each other's way. `LostSector.LostAndFound` is a run
  on a volume of two clusters: the same byte of a file is read twice, with no write to the file between,
  first as the file had it before it was cut and then as the other file left it.

## Model

| member | source | states |
|---|---|---|
| Geometry.SectorIsInOneCluster | FatFs/ff.c:1114-1122 | clusters do not overlap: a sector of the data area has one cluster number and one offset in it |
| Geometry.ClusterInDataArea | FatFs/ff.c:1114-1122 | every cluster number in range has all its sectors between the data start and the end of the drive, and none is sector 0 |
| Volume.SyncWindow | FatFs/ff.c:1025-1043 | writing the window back does not change the image; afterwards the drive equals it; at every write on the way the FAT on the drive is the FAT of the image, with the second FAT a copy of what was written |
| Volume.MoveWindow | FatFs/ff.c:1047-1068 | the window shows the sector asked for, the image is the same, and only what was due was written |
| Volume.PokeIsUpdate | FatFs/ff.c:1229-1233 | changing one byte of a window over the first FAT changes one byte of the FAT in the image, whatever the drive still holds |
| Volume.OverlayKeepsRest | FatFs/ff.c:1034-1036 | a dirty window over the first FAT changes nothing outside the two FATs and keeps the copies alike |
| FatTable.PutGet12 | FatFs/ff.c:1222-1234 | reading any 12-bit entry after one was written gives the value written modulo 2^12, or the old value for every other entry, neighbours sharing a byte included |
| FatTable.PutGet16 | FatFs/ff.c:1236-1241 | the same for 16-bit entries |
| FatTable.PutGet32 | FatFs/ff.c:1243-1254 | the same for 28-bit entries |
| FatTable.ReservedBitsKept | FatFs/ff.c:1249-1251 | the four reserved bits of every FAT32 entry survive any write |
| FatTable.PutEntryIsUpdate | FatFs/ff.c:1220-1257 | put_fat followed by get_fat is a map update of the whole table, in all three encodings |
| FatTable.EntryFits | FatFs/ff.c:3502-3507 | the size mount checks covers the bytes of every entry below n_fatent |
| FatAccess.GetFat | FatFs/ff.c:1131-1172 | the entry of a cluster as the image's table has it, 1 for a number out of range; the image does not change, also when the entry straddles two sectors |
| FatAccess.GetFat12 | FatFs/ff.c:1148-1154 | a 12-bit entry put together from two windows is the entry of the image's first FAT |
| FatAccess.PutFat | FatFs/ff.c:1209-1258 | the image's table is updated at the cluster and nowhere else, nothing outside the FATs changes, FR_INT_ERR exactly for a number out of range, and on FAT16 and FAT32 the drive never holds half of an update |
| FatAccess.PutFat12 | FatFs/ff.c:1222-1234 | both halves of a 12-bit entry land in the first FAT across a sector boundary |
| FatAccess.PutFat32 | FatFs/ff.c:1243-1254 | a 28-bit entry is stored without disturbing the reserved bits, and every drive state written on the way has the old table |
| Chains.ChainUnique | FatFs/ff.c:1424-1456 | a chain is determined by its first cluster |
| Chains.ChainDistinct | FatFs/ff.c:1424-1456 | a terminated chain visits no cluster twice |
| Chains.ChainsDisjoint | FatFs/ff.c:1424-1456 | chains with different heads share no cluster |
| Chains.AllocateKeeps | FatFs/ff.c:1570-1573 | giving a free cluster an end mark keeps the table a set of disjoint, acyclic, terminated chains |
| Chains.LinkKeeps | FatFs/ff.c:1571-1573 | so does linking the end of a chain to a new one |
| Chains.LinkedChain | FatFs/ff.c:1571-1573 | linking lengthens the chain that ended there by the new cluster, and leaves every other chain as it is |
| Chains.CutKeeps | FatFs/ff.c:1418-1421 | an end mark in the middle of a chain keeps the table well formed; the rest becomes a chain of its own |
| Chains.FreeHeadKeeps | FatFs/ff.c:1424-1432 | freeing the first cluster of a chain keeps the table well formed and makes the next cluster a head |
| Chains.FreeCountUpdate | FatFs/ff.c:1433-1436 | how one entry's change moves the number of free clusters |
| Allocation.RemovedIsFreed | FatFs/ff.c:1424-1456 | the loop of remove_chain frees exactly the clusters of the chain, and the count of free clusters grows by its length |
| Allocation.RemovedStep | FatFs/ff.c:1424-1456 | on any table, cyclic or broken, each turn that goes on raises the number of free entries, which bounds the loop |
| Allocation.SearchedIsComplete | FatFs/ff.c:1548-1567 | without entries of value 1 the circular search fails exactly on a full table, and what it finds was free |
| Allocation.ChosenIsFree | FatFs/ff.c:1534-1568 | with the try of the adjacent cluster and the suggested start in front of it, create_chain still finds a free cluster whenever there is one |
| Allocation.ChosenInTable | FatFs/ff.c:1548-1570 | whatever the table holds, a cluster it takes was free |
| Allocation.StretchedKeeps | FatFs/ff.c:1570-1573 | stretching keeps the table well formed at both of its steps and uses up one free cluster |
| Allocation.StretchedChain | FatFs/ff.c:1570-1573 | the chain that ended at the cluster now ends at the new one, and is otherwise the same |
| Allocation.CreatedOnWellFormed | FatFs/ff.c:1504-1570 | on a well-formed table create_chain answers 0 exactly when it has to allocate and nothing is free, and otherwise a cluster of the table |
| ChainOps.FreeLoop | FatFs/ff.c:1424-1456 | the loop frees what the specification says, on any FAT contents, keeps the cached count right or unknown, and on FAT16 and FAT32 leaves a well-formed table on the drive at every write |
| ChainOps.RemoveChain | FatFs/ff.c:1399-1484 | the whole of remove_chain with its cut at the predecessor: error cases, new table, cached count, marked for FSINFO exactly when it changes, and a well-formed FAT on the drive at every interruption point on FAT16 and FAT32 |
| ChainOps.SearchFree | FatFs/ff.c:1548-1567 | the wrap-around loop finds what the complete search specifies |
| ChainOps.CreateChain | FatFs/ff.c:1494-1587 | the value returned, the new table and the cached count in every case, marked for FSINFO exactly when a cluster is taken; well-formedness kept in the image and, on FAT16 and FAT32, at every write to the drive |
| ChainOps.CountFreed | FatFs/ff.c:1433-1436 | the cached count never comes to pass the number of clusters nor falls back below it, and if it was right for any table, it is right for that table with any one cluster freed |
| ChainOps.CountTracksFree | FatFs/ff.c:1433-1436 | freeing a cluster keeps the cached count right if it was, and unknown if it was |
| ChainOps.CountAllocated | FatFs/ff.c:1576-1580 | the cached count never goes from known to unknown or back, and if it was right for any table, it is right for that table with any free cluster taken |
| FreeScan.GetFree | FatFs/ff.c:4750-4832 | a known count is returned as it is; a scan returns the number of free entries, caches it and marks it for FSINFO, FR_INT_ERR on FAT12 exactly when an entry is 1 |
| FreeScan.ScanFlat | FatFs/ff.c:4804-4821 | the scan through the window counts the zero entries from 0 to n_fatent - 1 of the image's table |
| FreeScan.Scan12 | FatFs/ff.c:4774-4781 | the FAT12 scan counts exactly the free clusters, unless it meets an error mark |
| FreeScan.ScanIsRight | FatFs/ff.c:4804-4821 | the FAT16 and FAT32 scan is the number of free clusters if and only if entries 0 and 1 are nonzero |
| FreeScan.ScanCanBeWrong | FatFs/ff.c:4804-4821 | a well-formed FAT with one free cluster and entry 0 cleared, of which the scan counts two |
| FileLayout.LbaInjective | FatFs/ff.c:3893-3895 | two sectors of a file are two sectors of the drive |
| FileLayout.OneSectorWritten | FatFs/ff.c:4047-4055 | a sector that takes part of the data changes the file's bytes there and only there, growing the file if it is at its end |
| FileLayout.DirectRead | FatFs/ff.c:3896-3901 | the sectors of a multi-sector transfer inside a cluster are the file's bytes at that place |
| FileLayout.DirectWrite | FatFs/ff.c:4011-4016 | writing them splices the data into the file's bytes |
| FileLayout.SpliceTwice | FatFs/ff.c:3975 | two writes one after the other are one write of both |
| Sectors.PatchedRead | FatFs/ff.c:3908-3910 | reading from a drive with one dirty sector laid over it is reading the drive and patching that sector |
| Files.WriteData | FatFs/ff.c:4016 | a transfer to the data area changes the image as it changes the drive, and neither FAT |
| Files.WatchedWritten | FatFs/ff.c:1424-1456 | a change of the FAT that never leaves a broken one on the drive keeps the watch: the window on its home or on the FAT, the home in no free cluster |
| Files.WatchedData | FatFs/ff.c:4016 | so does a transfer to the data area |
| FileRead.FollowCluster | FatFs/ff.c:3876-3891 | at a cluster boundary inside the file the next cluster is found, never an error |
| FileRead.ToSector | FatFs/ff.c:3917-3927 | the buffer changes sectors, writing a dirty one back, without a change to the file's bytes |
| FileRead.ReadDirect | FatFs/ff.c:3896-3915 | a direct read with the dirty sector patched in is the file's bytes |
| FileRead.Read | FatFs/ff.c:3850-3940 | f_read: the file's bytes from the position, as many as asked for or as there are, with a link map in use or not; nothing else of the volume changes; what lies inside one sector comes from the buffer, whatever that holds |
| FileGrow.StretchFile | FatFs/ff.c:3979-3998 | a cluster for an open file: the chain is the same or one free cluster longer, and the file's bytes are the same |
| FileGrow.TakenChain | FatFs/ff.c:3979-3998 | the file's new chain is the old one and the new cluster, still a chain that starts at the file's head |
| FileWrite.GrowCluster | FatFs/ff.c:3976-3999 | in write mode the cluster of the position is found or taken; it is missing only when no cluster is free |
| FileWrite.WriteSector | FatFs/ff.c:4003-4045 | on a sector boundary a dirty buffer is written back, whole sectors are spliced into the file straight away; otherwise the buffer shows the sector, or is clean at the growing edge, where the sector is not loaded, and the bytes are as they were |
| FileWrite.WriteDirect | FatFs/ff.c:4011-4032 | a direct write, with the buffer refreshed if it is overtaken, is a splice of the file's bytes |
| FileWrite.Write | FatFs/ff.c:3950-4060 | f_write: the data spliced in at the position; the count is short exactly by what passes the capacity, which is the lesser of 2^32 - 1 and all the file's and all free clusters, or with a link map in use the file's clusters only; only this file's and free clusters are touched; the object is marked as modified exactly if it was or may be written to, and only then anything about it but its position changes |
| FileWrite.WrapTest | FatFs/ff.c:3971-3973 | the 32-bit overflow test clips a write exactly where it would pass 2^32 - 1 |
| FileWrite.SameCapacity | FatFs/ff.c:3971-4057 | growing a file does not change how far it can grow |
| FileSeek.StartFromCurrent | FatFs/ff.c:4456-4460 | the shortcut starts at the beginning of the cluster the file object remembers, at or before the target's |
| FileSeek.SeekWalk | FatFs/ff.c:4474-4494 | the walk ends in the target's cluster, or, in write mode, where no cluster is free |
| FileSeek.ReachesCapacity | FatFs/ff.c:4482-4485 | a seek that falls short stops exactly at the capacity |
| FileSeek.Seek | FatFs/ff.c:4444-4522 | f_lseek without a link map: the target clipped at the size or at the capacity; the file is stretched by the clusters create_chain gives and its old bytes stay, and only then the object is marked as modified; a clean buffer over bytes of the file shows the drive afterwards if and only if it was not caught, a condition on the object, the drive and the FAT before the call |
| FileSeek.SeekReach | FatFs/ff.c:4454-4502 | the clusters the file has after the seek are its own and those that asking create_chain one after another gives, as a function of the FAT before; on the drive nothing changes under the buffer |
| FileSeek.CaughtMeans | FatFs/ff.c:4503-4517 | a buffer that is right is caught only by a seek past the size, and on a sector that held no byte of the file |
| FileSeek.SeekEnd | FatFs/ff.c:3807-3828 | the seek of f_open when appending: to the end of the file, with its last sector in the buffer if the end is inside one, and without an error |
| FileTruncate.CutFile | FatFs/ff.c:4856-4869 | the clusters after the position are freed, and no others; the bytes cut off are on the drive still |
| FileTruncate.Truncate | FatFs/ff.c:4842-4882 | f_truncate: the bytes before the position are left, the rest of the volume is unchanged, and the freed clusters count as free; the object is marked as modified exactly if it was or is cut |
| Session.OpenFile | FatFs/ff.c:3797-3828 | from the start cluster and size of the directory entry on: a file object for a chain of a sound volume is valid, with the bytes on the drive, at its start or, to append, at its end |
| Session.PerformAll | FatFs/ff.c:3850-4882 | any sequence of reads, writes, seeks and truncations of the one open file is a run of a byte array with a position and one capacity throughout, whatever the sector buffer, direct transfers, seek shortcut and link map do, and the rest of the volume is kept; on FAT16 and FAT32 the drive has a well-formed FAT at every write; the object is marked as modified exactly if it was or an operation of the run writes or changes the size, and if it is not, the size, the start cluster and the bytes on the drive are those before the run, and no dirty buffer has come of it |
| Session.Perform | FatFs/ff.c:3850-4882 | one operation is one step of the byte array, with the same capacity after it; the buffer is right afterwards if and only if the operation did not catch it; no operation clears the mark of a modified object, and one that does not set it changes neither size nor start cluster and leaves no dirty buffer |
| Session.Untouched | FatFs/ff.c:3850-4882 | an operation that neither writes nor changes the size leaves the bytes of the file as they are |
| Session.OpCaughtMeans | FatFs/ff.c:4503-4517 | only a seek past the size of a file open for writing catches a buffer |
| Session.SameWithMap | FatFs/ff.c:3876-3891 | within the file a link map makes no difference to what an operation does |
| Session.SeekInside | FatFs/ff.c:4452-4518 | a seek inside the file moves the position and does nothing else |
| Session.OtherFileKept | FatFs/ff.c:3976-4056 | every other chain on the volume keeps its list of clusters and the bytes in them over any such run |
| Session.Watch | FatFs/ff.c:3247-3248 | the watch can begin on any sound volume whose window is on no free cluster and, on FAT16 and FAT32, whose drive shows a well-formed FAT |
| Session.OutsideData | FatFs/ff.c:3511-3519 | after mounting it is on none: it shows a sector outside the data area |
| Session.DriveStates | FatFs/ff.c:3850-4882 | on FAT16 and FAT32 every state the drive has been in since the watch began, so at every write of any run of operations, has a well-formed first FAT |
| Pairs.DifferentStarts | FatFs/ff.c:3797-3806 | two open files of a volume that start at different clusters share no cluster |
| Pairs.PerformBeside | FatFs/ff.c:3850-4882 | an operation on one of two open files is a step of its byte array; the other keeps its bytes and its position and stays valid in every case, and the one that acts stays valid if and only if its buffer is not caught |
| Pairs.PerformTurns | FatFs/ff.c:3850-4882 | any interleaving of reads, writes, seeks and truncations of two open files is a run of two byte arrays that share their room, each operation leaving the other array alone, on FAT16 and FAT32 with a well-formed FAT on the drive at every write; both files are right to the end if and only if no seek of the run is caught, which takes a seek past the size of a file that, unless a buffer was stale at first, was truncated at a sector boundary in the run and has not been inside a sector since; each object is marked as modified exactly if it was or a turn touched its file, and if it is not, it says what it said and its file has on the drive the bytes it had |
| Pairs.CheckedTurn | FatFs/ff.c:3850-4882 | one turn: what was caught is decided by the object that acts as it was before |
| Pairs.MisreadIs | FatFs/ff.c:3917-3936 | a clean buffer that stands on bytes of the file and is unlike the drive is found by following the FAT |
| Pairs.NeverLoose | FatFs/ff.c:4842-4882 | a file that is not truncated in the run never comes into that state |
| LostSector.LostAndFound | FatFs/ff.c:4503-4517 | a run of two files in which a byte of one is read twice, with no write to it between, and is first 0x41 and then 0x42 |
| LostSector.CutAway | FatFs/ff.c:4856-4869 | a file is written and cut to nothing: its clean buffer still holds the byte, on a sector that is free |
| LostSector.Overwrite | FatFs/ff.c:3976-4016 | the other file takes the sector, writes to it and gives it back; it keeps nothing |
| LostSector.Regain | FatFs/ff.c:4464-4507 | a seek past the end makes the sector the first file's again, and the buffer is not filled |
| LostSector.ReadTwice | FatFs/ff.c:3917-3936 | the byte read from the buffer, and after the buffer has been elsewhere, from the drive |
| LostSector.TinyMounts | FatFs/ff.c:3460-3509 | the volume of the run has the layout of a boot sector that is accepted |
| FastSeek.CreateLinkMap | FatFs/ff.c:4394-4418 | the map describes the file's chain when it fits; its stored size is 2 and 2 for each fragment whether it fits or not; FR_INT_ERR exactly when the chain ends in the last cluster with n_fatent as end mark |
| FastSeek.LinkMapCanFail | FatFs/ff.c:4402-4408 | a well-formed FAT and a chain of it for which the map cannot be made |
| FastSeek.FollowRun | FatFs/ff.c:4402-4408 | the inner loop ends at the end of a run of adjacent clusters |
| FastSeek.RunAddsOne | FatFs/ff.c:4400-4412 | a maximal run of adjacent clusters is one fragment |
| LinkMap.ClmtClust | FatFs/ff.c:1597-1615 | from a map of a chain: cluster number k of the chain for a byte in its cluster k, and 0 past the end |
| LinkMap.MapIsWalk | FatFs/ff.c:1606-1614 | that is what following the FAT k times from the first cluster gives, for the one chain that starts there |
| FileRead.MapServesTransfers | FatFs/ff.c:3880-3888 | at a cluster boundary f_read and f_write get from the map the cluster get_fat would have given |
| FastSeek.SeekFast | FatFs/ff.c:4419-4440 | the fast seek reaches the position clipped at the file size, with the file's bytes and all it relies on intact |
| FastSeek.UseLinkMap | FatFs/ff.c:4391-4418 | a file that takes a map of its chain into use is the same file |
| Pattern.PatternMatch | FatFs/ff.c:2752-2790 | the recursive matcher with its pre-skip, retries and early end accepts exactly what its specification does, which takes the question marks of a term modulo 256 |
| Pattern.ScanTerm | FatFs/ff.c:2775-2778 | a wildcard term is packed into its count modulo 256 and a mark that is set by a star or by 256 question marks |
| Pattern.TooShort | FatFs/ff.c:2779-2788 | giving up the retries at the end of the name loses no match |
| Pattern.TooManyTerms | FatFs/ff.c:2774 | a pattern with more wildcard terms than the recursion allows accepts no name |
| Pattern.TermMeaning | FatFs/ff.c:2773-2780 | a run of ? and * asks for at least, or exactly, as many characters as it has question marks, whatever their order |
| Pattern.AcceptsMeansMatches | FatFs/ff.c:2752-2790 | within the recursion limit and with fewer than 256 question marks a term, acceptance is matching |
| Pattern.Disagrees | FatFs/ff.c:2752-2790 | for every pattern with more wildcard terms than the limit, or with a term of 256 question marks or more, a nonempty name on which the test is wrong |
| Pattern.FindsExactly | FatFs/ff.c:4670-4675 | the test of f_findnext is right on every name it is given, none of them empty, if and only if the pattern has at most four wildcard terms, each with fewer than 256 question marks |
| Pattern.CaseDoesNotMatter | FatFs/ff.c:2721-2726 | with any characters of pattern or name replaced by their other case, in ASCII or by the code page's table, the test answers the same |
| Pattern.OneCharFinds | FatFs/ff.c:2712-2736 | and nothing else is taken for equal: a pattern of one plain character finds exactly the names of one character that is the same up to case |
| Pattern.OneWildFinds | FatFs/ff.c:2773-2790 | a question mark alone finds the names of one character, a star alone finds every name |
| Pattern.QuestionMarksWrap | FatFs/ff.c:2775-2778 | 256 question marks find the name A, which does not match them |
| Pattern.TestName | FatFs/ff.c:4674 | the call as f_findnext makes it |
| Lfn.UnitPlaces | FatFs/ff.c:513 | the thirteen units of a long entry lie one after the other, in bytes 1 to 10, 14 to 25 and 28 to 31 |
| Lfn.PutLfn | FatFs/ff.c:1928-1952 | every byte of a long entry: its thirteen units of the name, terminator and fillers, order, and the flag exactly when it holds the end of the name; the rest of the window is untouched |
| Lfn.PickLfn | FatFs/ff.c:1890-1918 | an entry is accepted exactly when its form is right and its units have a place in the buffer, and then they are stored there, with a terminator after a full last part |
| Lfn.CmpLfn | FatFs/ff.c:1854-1882 | an entry is accepted exactly when its form is right and its units agree with the buffer under the case conversion |
| Lfn.StoredNameRoundTrip | FatFs/ff.c:1939-1952 | a name of 1 to 255 units stored last part first is read back with its terminator into any buffer, and only the first stored entry is flagged |
| Lfn.StoredNameFound | FatFs/ff.c:1863-1881 | cmp_lfn accepts all entries of a stored name exactly when the searched name has its length and agrees but for case, whatever is behind the terminator in the buffer |
| LongRuns.OneRun | FatFs/ff.c:2316-2324 | two runs that end at one entry begin at one entry |
| LongRuns.TracksNext | FatFs/ff.c:2316-2324 | a long entry continues the open run exactly when it has the next lower order, the same checksum and is accepted; otherwise no run is open |
| LongRuns.TracksShort | FatFs/ff.c:2324-2330 | at a short entry the test on ord and sum holds exactly when a run down to 1 with its checksum ends there |
| LongRuns.StoredRun | FatFs/ff.c:2494-2507 | the entries of a stored name are such a run, whatever is before them |
| Directory.DirSdi | FatFs/ff.c:1666-1704 | the object points at the slot of an offset exactly when the table has that slot, on any FAT contents; FR_INT_ERR otherwise |
| Directory.WalkClusters | FatFs/ff.c:1690-1696 | the walk along the chain ends, its remaining offset falling with each cluster |
| Directory.DirNext | FatFs/ff.c:1714-1765 | the next slot, FR_NO_FILE at the end of the table or at the largest size, FR_INT_ERR exactly at a link that is neither a cluster nor an end mark |
| DirScan.SumSfn | FatFs/ff.c:2022-2033 | the checksum loop is the fold of rotate and add over the eleven bytes |
| DirScan.SumTurns | FatFs/ff.c:2022-2033 | each byte is added to the sum so far turned right by one bit, as a relation on bits |
| DirScan.SumsDiffer | FatFs/ff.c:2022-2033 | short names that differ in exactly one byte have different checksums |
| DirScan.DirRead | FatFs/ff.c:2275-2342 | stops at the first entry of the kind asked for, with its attribute in the object and the entry in the window; the place of the long name is reported exactly when the entries from it on are an unbroken run n..1 with the short entry's checksum, and the buffer is what picking them made; ends on cyclic chains too |
| DirScan.DirFind | FatFs/ff.c:2353-2425 | finds the first entry that has the name by its long entries or by its short field, with its attribute in the object and the entry in the window; fails only if no entry up to the end of the table has; blk_ofs is the place of the last flagged long entry since an entry of another kind, which is where the long entries begin if it was found by them |
| DirScan.StoredNameRead | FatFs/ff.c:2287-2339 | where a stored name stands, dir_read reports its first slot and has the name in the buffer |
| DirScan.StoredNameHit | FatFs/ff.c:2392-2417 | where a stored name stands, dir_find hits by long name exactly for names equal to it but for case |
| DirStore.StoreName | FatFs/ff.c:2492-2523 | the entries of a name and its short entry are in their slots; every other slot of the table, every other sector and the FAT are as they were; the window shows the short entry |
| DirStore.ChainApart | FatFs/ff.c:1741-1760 | the slots of a directory on a terminated chain are different places on the drive |
| DirStore.RootApart | FatFs/ff.c:1686-1688 | and so are those of the static root directory |
| DirStore.StoredThenRead | FatFs/ff.c:2492-2523 | a name stored by dir_register is the name dir_read brings back, whatever the other fields of its short entry have become |
| DirStore.StoredThenFound | FatFs/ff.c:2492-2523 | and dir_find finds it by its long name exactly when asked for it but for case |
| DirStore.StoredShortPrints | FatFs/ff.c:2516-2522 | a name that needs no long entries is printed back from the short entry stored for it |
| DirAttr.StampAttr | FatFs/ff.c:5045-5048 | the attribute of a new entry is written into it through the window, and nothing else of the image changes |
| DirAttr.StoredStamped | FatFs/ff.c:5045-5048 | a stored name whose short entry is changed in place is still stored, with the entry as it is now |
| DirAttr.StoredIsReported | FatFs/ff.c:2353-2425 | a search for a stored name, in whatever case, that gets as far as its entries stops at its short entry and reports the attribute the image has there |
| DirAttr.MixAttr | FatFs/ff.c:5198-5207 | f_chmod changes exactly the bits of the mask among read-only, hidden, system and archive |
| DirAttr.Chmod | FatFs/ff.c:5198-5208 | in the entry the object points at, and in nothing else of the image |
| DirAttr.ChmodIsReported | FatFs/ff.c:5180-5219 | after it the same search stops at the same slot and reports the new attribute |
| DirAttr.OneOutcome | FatFs/ff.c:2353-2425 | an image has one outcome of a search: the entry found is determined |
| DirAttr.FoundIsOutcome | FatFs/ff.c:2353-2425 | and it is what dir_find reports |
| ShortName.CreateName | FatFs/ff.c:2801-2927 | the long name is the segment without trailing spaces and dots; the short name is made from it; the path goes on behind the segment and all its separators; FR_INVALID_NAME only for a segment with a bad character, of more than 255 characters, or with nothing left |
| ShortName.MakeShort | FatFs/ff.c:2846-2927 | the flags and the field for every name: NS_LOSS exactly when a character is left out, replaced or finds no room, or there is no body; no long name exactly when body and extension fit, need no replacement and do not mix cases; the field holds what was stored of body and extension, each closed by the first character without room |
| ShortName.LossExactly | FatFs/ff.c:2846-2905 | of a name in ASCII NS_LOSS is set if and only if it is not of the 8.3 form |
| ShortName.FieldPrintsName | FatFs/ff.c:2655-2689 | if NS_LOSS is clear, the field is printed as the name but for case, whatever the case flags |
| ShortName.OneFieldOneName | FatFs/ff.c:2412 | so two such names have one field if and only if they are equal but for case |
| ShortName.FieldIsLegal | FatFs/ff.c:2890-2905 | the field of a name in ASCII holds no small letter, no space but as padding and no character a short name may not have |
| ShortName.CharacterLists | FatFs/ff.c:2822-2904 | which ASCII characters a name, a short name and a path segment may not have |
| ShortName.PrintShort | FatFs/ff.c:2655-2689 | what is printed for an entry without a long name |
| ShortName.ShortNameRoundTrip | FatFs/ff.c:2655-2689 | field and case flags of such a name print back the name |
| ShortName.CreatedShortPrints | FatFs/ff.c:2846-2927 | from the flag byte create_name leaves |
| Mount.CheckFs | FatFs/ff.c:3238-3275 | which sectors pass for the boot sector of a FAT volume |
| Mount.MountVolume | FatFs/ff.c:3460-3509 | which boot sectors are accepted, and the layout taken from them |
| Mount.MountedIsValid | FatFs/ff.c:3485-3509 | an accepted layout has every FAT entry in the first FAT, its areas apart and all clusters on the drive if and only if it ends on the drive when its sums are not wrapped |
| Mount.WrappedVolumeMounts | FatFs/ff.c:3485-3509 | a boot sector that is accepted on a drive on which its layout is not valid |
| Mount.PowerOfTwoTest | FatFs/ff.c:3471-3472 | the bit test on the cluster size passes exactly the powers of two |
| Format.ChooseLayout | FatFs/ff.c:6101-6173 | the retry loop ends for every volume size and option set, with a consistent layout or none, as the turns say |
| Format.OutcomeExactly | FatFs/ff.c:6101-6173 | for every volume size and every option what the loop comes to: it aborts if and only if no layout is feasible, a condition on size and options, and otherwise which sub-type and which cluster size it takes |
| Format.PickedWithin | FatFs/ff.c:6101-6173 | only a sub-type that is allowed; the cluster size that was asked for, or one step at most from the automatic one |
| Format.AlwaysFeasible | FatFs/ff.c:6101-6173 | with every sub-type allowed, the cluster size left open and a root directory of up to 512 entries there is a layout for every volume of 128 sectors or more |
| Format.AutoUnit | FatFs/ff.c:6105-6122 | the automatic cluster size is the table entry the volume reaches |
| Format.PowersPass | FatFs/ff.c:5849 | the test x & (x - 1) on the cluster size asked for passes exactly the powers of two and 0 |
| Format.SizeTest | FatFs/ff.c:6145 | the 32-bit test for too small a volume compares the true sums |
| Format.FatFits | FatFs/ff.c:6112-6133 | the FAT has room for every cluster and its size fits the field it is stored in, and the accepted count stands for the sub-type chosen |
| Format.StoreBootSector | FatFs/ff.c:6180-6213 | the boot sector states the layout, and its jump, names, medium, disk parameters, serial number and signatures are where they belong |
| Format.PassesForFat | FatFs/ff.c:3238-3275 | check_fs takes it for the boot sector of a FAT volume |
| Format.FormattedMounts | FatFs/ff.c:6101-6213 | mounting derives the layout that was made, with the same sub-type, cluster count, FAT start and data start, and it is a valid one |
| Format.Mkfs | FatFs/ff.c:5845-6213 | f_mkfs from its options to the boot sector: each error exactly when; on success FAT32 if nothing else is allowed and not if it is not allowed, the cluster size that was asked for, and a boot sector that passes for a FAT volume's and mounts as it was laid out |
| Format.MountFormatted | FatFs/ff.c:3460-3509 | mount_volume on the boot sector of a layout returns that layout |
| FormatFat.WrittenIsCleared | FatFs/ff.c:6224-6238 | the bytes stored at the start of a FAT, read as its entries in all three encodings: entries 0 and 1 in use, on FAT32 an end mark for the root directory, everything else free |
| FormatFat.ClearedIsWellFormed | FatFs/ff.c:6221-6238 | such a FAT is well formed, and all its clusters are free but the root directory's, as FSINFO says |
| FormatFat.FillRun | FatFs/ff.c:6232-6237 | the loop of transfers from a buffer of any number of sectors writes the first sector as it is and the rest zero, and nothing else |
| FormatFat.InitVolume | FatFs/ff.c:6220-6246 | all copies of the FAT and then the root directory are written, and nothing else |
| FormatFat.FormatDrive | FatFs/ff.c:5843-6246 | f_mkfs on a drive: it succeeds exactly when there is a buffer, room and a feasible layout; then the boot sector it stored is accepted, with the sub-type and cluster size of the choice, and the volume it describes is blank, with equal FATs and a root directory of zeros; nothing else is written, and nothing at all on failure |
| FormatFat.BlankIsEmpty | FatFs/ff.c:6220-6246 | a blank volume has a well-formed FAT with every cluster free but the root directory's, and the first scan of f_getfree counts them right |
| SoftUart.TimingInit | boards/my_machine.c:103-117 | the deadlines are whole numbers of half bits, rounded to the nearest cycle; the cast to 32 bits loses nothing |
| SoftUart.Gaps | boards/my_machine.c:108-113 | a sample and the edges on either side of it are further apart than any latency that fits half a bit less rounding |
| SoftUart.Elapsed | boards/my_machine.c:182 | the difference of two readings of the counter is the time between them, also when it wrapped |
| SoftUart.WaitFor | boards/my_machine.c:182 | a busy wait ends at the first reading at or after its deadline, within one polling step of it |
| SoftUart.WriteByte | boards/my_machine.c:173-194 | the ten edges of a frame: start, eight data bits lowest first, stop, each at its deadline but for the latency |
| SoftUart.ReadByte | boards/my_machine.c:208-244 | timeout, false start, or the byte made of the samples, each at its deadline but for the latency |
| SoftUart.InCell | boards/my_machine.c:225-233 | every sample falls inside its own bit cell |
| SoftUart.FrameIsRead | boards/my_machine.c:208-244 | a frame of a byte is read as that byte, and the reader is done before the stop bit is over |
| SoftUart.RoundTrip | boards/my_machine.c:173-244 | reading undoes writing over any byte sequence, at every clock and bit rate for which the total latency fits half a bit less rounding, with both counters free to wrap |
| SoftUart.LatencyAtLimit | boards/my_machine.c:88-90 | at 288 cycles a bit or more the bound leaves 143 cycles for all latencies together |
| SoftUart.SteadyEnd | boards/my_machine.c:182 | an end that reads its counter every 20 cycles, from any value of the counter, is one the results speak about |
| SoftUart.BoardMeetsBound | boards/my_machine.c:84-92 | the board's clock and default bit rate, and the highest rate allowed, meet the bound with 20-cycle polling at both ends |
| Crc.CcittCrc16 | grbl/crc.c:62-73 | the fast loop computes the remainder of the message and sixteen zeros divided by the V.41 polynomial |
| Crc.CcittIsDivision | grbl/crc.c:62-73 | the same about the fold the loop computes, for messages of any length |
| Crc.ModbusCrc16x | grbl/crc.c:38-56 | the nested loops compute the fold of eight shifts a byte |
| Crc.ModbusIsDivision | grbl/crc.c:38-56 | which is, bits taken in the opposite order, the remainder modulo x^16 + x^15 + x^2 + 1 of the message begun with ones |
| Crc.GrblCrc8 | grbl/crc.c:24-34 | the loop is the fold of rotate and add |
| Crc.BurstSeen | grbl/crc.c:38-73 | a register of either polynomial ends differently for messages that differ within sixteen bits |
| Crc.CcittSeesBursts | grbl/crc.c:62-73 | so ccitt_crc16 tells such messages apart |
| Crc.ModbusSeesBursts | grbl/crc.c:38-56 | and so does modbus_crc16x |
| Crc.OneByteSeen | grbl/crc.c:24-73 | in all three checks two messages that differ in exactly one byte get different values |
| Crc.CcittResidue | grbl/crc.c:62-73 | a message followed by its check, high byte first, has check zero |
| Crc.ModbusResidue | grbl/crc.c:38-56 | a message followed by its check, low byte first, has check zero |

## Left out

- Disk errors: reading and writing the drive never fails in the model, so FR_DISK_ERR, the sticky error of a file object (`fp->err`) and `validate()` are not modelled.
- FR_INT_ERR and FR_DISK_ERR exits of f_read, f_write, f_lseek and f_truncate: proved unreachable from a valid state, so they appear as cases that do not arise.
- exFAT, the TINY configuration, GPT and MBR tables, volume search, labels, time stamps, re-entrancy, and the string layer.
- FSINFO: reading and writing the cached count on the drive; the count itself is modelled from "unknown" on, with the mark that it is to be written (`fsi_flag`).
- Session.OpenFile: starts when the directory entry has been found or made; f_sync and the update of that entry are not modelled.
- The bytes between the old end and the new end of a file after a seek past its end: the code leaves them undefined, and the model says nothing about them.
- Pairs.PerformTurns: two open files; three or more, and file objects of one file, are not modelled. It stops after the turn that is caught: what an operation makes of a wrong buffer is said only of reads inside a sector and of seeks. How many clusters a file holds between its operations is bounded by its bytes and the room, not computed.
- Session.DriveStates: says nothing of FAT12, where an entry that straddles two sectors is written in two steps.
- Files.Owned: the cluster list of an open file, the mark of a stale buffer and how far the buffer is trusted are ghost fields; code never reads them.
- FileRead.Read: the data is returned as a sequence where the code fills the caller's buffer.
- FastSeek.CreateLinkMap: on a terminated chain only, as a cyclic one has no map; the table is an array of unbounded numbers, all of which stay below the cluster count.
- Session.Perform: with a link map in use no truncation, which the caller must not ask for, and no CREATE_LINKMAP, which is FastSeek.CreateLinkMap.
- Files.File: a link map in use is a sequence, so that the application does not change its table meanwhile, and the file it is used with has clusters.
- Geometry.Geo: the layout fields of FATFS are one value, fixed by mounting; `x & (csize - 1)` is written `x % csize`, csize being a power of two.
- Directory.DirNext: `stretch` is 0; taking a new cluster for a directory (dir_clear) is not modelled.
- Slot reservation (dir_alloc), numbered short names (gen_numname), dir_remove and follow_path.
- DirAttr.StampAttr: the rest of what f_open and f_mkdir store in a new entry, its times, start cluster and size, is not modelled; of f_chmod the path and the final sync_fs are not.
- DirStore.StoreName: starts from reserved slots that are different places on the drive, which holds for every terminated chain, and from a short name that is free in the directory.
- Code pages: ff_oem2uni, ff_uni2oem and ff_wtoupper are parameters; the up-case table of the single-byte code page is a parameter without zeros. The double-byte branches of name parsing in the matcher are not modelled.
- ShortName.CreateName: relative paths (`FF_FS_RPATH` is 0) are not described.
- ShortName.FieldPrintsName, ShortName.OneFieldOneName: names in ASCII only; two characters above it may have one code or one capital in the code page.
- Format.Mkfs: erase block size 1 only, for which aligning the data area adds nothing; the volume is the drive or its one partition, not one looked up in a partition table; FR_NOT_ENOUGH_CORE is in FormatFat.FormatDrive.
- FormatFat.FormatDrive: the copy of the boot sector, FSINFO and its copy, and the partition table are not written; the buffer of the boot sector is one of its own.
- Mount.MountVolume: starts with the boot sector already found.
- SoftUart.RoundTrip: both ends count the same cycles; pin direction changes and interrupts are left to the latency bounds.
- Stepper timing, serial and CAN buffers, EEPROM, pin tables and alarms.
