# FatFs R0.11

A Dafny model of the FAT file system module of the firmware (`DTS-2500_HMI0031/FATFS/ff.c`), in its shipped
configuration: sectors of 512 bytes, long names, fast seek, private sector buffers, one task. It models what the
module does to the sectors of a drive, from the packed FAT up to files, directories and the tree of directories, and
proves what a user of it relies on.

## How the model is made

- `Volume.Fatfs` is the mounted volume with its one-sector window, `Files.File` an open file with its private buffer,
  `Directories.Dir` a directory object, `Mount.WorkArea` the drive and window while mounting and formatting. Their
  methods follow the functions of the code and change the fields that the code changes.
- Drive operations may fail at any time. A failure counts up `faults`, and sectors of a failed transfer hold anything.
  Contracts speak of what holds in any case, and of what holds when `faults` is what it was before: a result
  `DiskErr` always means that it is not.
- The *logical disk*, `View()`, is the disk with the dirty window over it. Two logical disks *agree* if they differ
  in the second FAT copy at most. `Fat(fs)` is the sequence of entries that the first FAT copy encodes.
- Files and directories carry their chain of clusters as a ghost field. Tables of directories are sequences of 32-byte
  entries, and searches are specified on them by which entry has a name, not by how it is looked for.
- The tree of directories maps the first cluster of each directory (0 for the root) to its chain and its table, and
  each entry with a start cluster to the chain it owns. `Claims` and `Exclusive` say that this is what is on the disk
  and that each allocated cluster has exactly one owner; `Connected`, that every directory is below the root.
- Arithmetic of unsigned 32-bit numbers is written out where it can wrap; masks with the cluster size less one are
  written bit by bit, and proved to be remainders.

| module | what is in it |
|---|---|
| Bytes, Numbers, Volume, DataAccess, Sync | bytes and numbers; the drive and the window; writing everything back |
| FatCodec, Chains, Allocator, AllocatorRuns, FreeScan | the packed FAT, chains of clusters, allocation, and sequences of it |
| FileLayout, FastSeek, FileState, Files, FileRuns | open files, the link map, and sequences of file operations |
| Layout, Mount, Format, FormatMount | the layout of volumes, mounting and formatting |
| Lfn, NumName, Pattern | long names, numbered short names, patterns |
| DirTable, Directories, DirNames, DirSearch, DirChange, DirTheory, DirRuns, DirReading, DirWalk | directories |
| Tree, TreePaths, TreeDisk, TreeOps, TreeMake, TreeMove | the tree of directories: unlink, mkdir, rename |

## Where the code does not do what one expects

Each of these is proved with its exact condition, or with an input that shows it.

- `f_rename` can move a directory into itself or below itself. Its clusters keep their owner, but the subtree cannot be
  reached from the root any more (`TreeMove.MovedIntoItself`; the condition is in `TreeMove.Rename`).
- A name of 255 characters whose short form is lossy is not found after it has been registered
  (`DirTheory.RegisterThenFind`), and names of 254 and 255 characters are not read back (`DirReading.RegisterThenRead`).
- `f_mkfs` can leave no cluster (`FormatMount.NoClusterLeft`), and on very large drives makes a FAT that is too small
  (`FormatMount.FatTooSmall`); `FormatMount.PlannedIsSound` has the condition.
- Mounting accepts geometries whose sums wrap (`Mount.AcceptedIsSound`).
- The link map cannot be made for a chain that ends in the last cluster of the largest FAT32 volume
  (`FastSeek.MarkEndsClearly`).
- `f_getfree` counts the two reserved entries of FAT16 and FAT32 when they are zero, which they are on no volume that
  `f_mkfs` has made (`FreeScan.GetFree`, `FormatMount.FreshVolume`).
- `f_truncate` on a file that is not open for writing makes the file object unusable (`FileRuns.RunAll`).

## Model

| member | source | states |
|---|---|---|
| Volume.Fatfs.SyncWindow | DTS-2500_HMI0031/FATFS/ff.c:655-679 | Writing the window back leaves the logical disk (the disk with the dirty window over it) as it was; a dirty FAT sector goes to the second copy, too; after a failed write the window is still dirty. |
| Volume.Fatfs.MoveWindow | DTS-2500_HMI0031/FATFS/ff.c:684-705 | Any sector can be brought into the window; the logical disk stays the same, and on success the window holds the sector. After a failed read the window holds no sector, after a failed write it is what it was. |
| Sync.SyncFs | DTS-2500_HMI0031/FATFS/ff.c:715-744 | Without faults the whole logical disk is on the drive afterwards, the FAT is as it was, nothing but the FSINFO sector of a FAT32 volume has changed, and that holds the free count and the hint if they had changed. |
| FatCodec.GetFat | DTS-2500_HMI0031/FATFS/ff.c:773-817 | Reads the entry that the packed 12-, 16- or 28-bit FAT encodes for the cluster; 1 for numbers out of range; 0xFFFFFFFF only after a failed drive operation. |
| FatCodec.PutFat | DTS-2500_HMI0031/FATFS/ff.c:828-881 | Stores the value, cut to the width of an entry, in the one entry and changes no other; on FAT32 the top four bits that were set stay set, and those of all other entries stay as they are. |
| FatCodec.Put12 | DTS-2500_HMI0031/FATFS/ff.c:845-857 | The two byte stores of a 12-bit entry, which shares a byte with a neighbour, change exactly that entry of the decoded FAT. |
| Allocator.RemoveChain | DTS-2500_HMI0031/FATFS/ff.c:892-934 | The loop gives the FAT of the recursive specification of freeing a chain, and the free count stays right. |
| Chains.RemovedChain | DTS-2500_HMI0031/FATFS/ff.c:892-934 | For a chain that is complete, that specification zeroes exactly the clusters from the given position on. |
| Allocator.CreateChain | DTS-2500_HMI0031/FATFS/ff.c:945-995 | Returns the cluster that follows, or allocates the first free one in the circular order from the hint and links it; 0 for the end of a chain exactly if no cluster is free; the free count stays right. |
| Allocator.CutAfter | DTS-2500_HMI0031/FATFS/ff.c:3451-3459 | Cutting a chain behind a cluster zeroes exactly the clusters behind it and marks the new end. |
| AllocatorRuns.RunAll | DTS-2500_HMI0031/FATFS/ff.c:892-995 | Over any sequence of allocations and releases for any number of files, without faults: every file keeps a complete acyclic chain, the chains are apart, every allocated cluster is in one of them, and each step does to the chains what it says. |
| AllocatorRuns.Grown | DTS-2500_HMI0031/FATFS/ff.c:945-995 | Linking an allocated cluster behind the last one of a file keeps all of that. |
| Chains.CutKeepsOwned | DTS-2500_HMI0031/FATFS/ff.c:892-934 | Freeing the end of a chain keeps all of that. |
| Chains.ChainUnique | DTS-2500_HMI0031/FATFS/ff.c:945-995 | Two chains that begin at the same cluster are the same. |
| FreeScan.GetFree | DTS-2500_HMI0031/FATFS/ff.c:3360-3418 | The count is kept if it is known, and else counted; on FAT16 and FAT32 the scan also counts the two reserved entries if they are zero, on FAT12 an entry that holds 1 is an error. |
| FastSeek.ClmtClust | DTS-2500_HMI0031/FATFS/ff.c:1007-1024 | The link map, decoded, gives the cluster at every position of the chain, and 0 behind its end. |
| FastSeek.CreateLinkMap | DTS-2500_HMI0031/FATFS/ff.c:3004-3027 | The table holds the map of the chain exactly if it is large enough, and the size needed in any case; without drive failures it fails exactly if the value behind the last cluster looks like its successor. |
| FastSeek.MarkEndsClearly | DTS-2500_HMI0031/FATFS/ff.c:3009-3021 | Of chains ended by the mark that create_chain writes, that is the case exactly on a FAT32 volume with the largest number of clusters, for a chain that ends in the last of them. |
| FastSeek.RunGoesOn | DTS-2500_HMI0031/FATFS/ff.c:3012-3017 | The inner loop counts a maximal run of consecutive clusters. |
| FastSeek.CoversNext | DTS-2500_HMI0031/FATFS/ff.c:3009-3021 | Each pair of the table accounts for one maximal fragment of the chain. |
| Files.File.Read | DTS-2500_HMI0031/FATFS/ff.c:2541-2632 | Returns exactly the bytes of the file from the cursor on, as many as asked for or as there are, moves the cursor behind them, and stores nowhere else in the buffer. |
| Files.File.ReadDirect | DTS-2500_HMI0031/FATFS/ff.c:2587-2601 | Whole sectors read past the private buffer, with the dirty buffer laid over its own sector, are the bytes of the file. |
| Files.File.Write | DTS-2500_HMI0031/FATFS/ff.c:2642-2755 | The bytes are those before with a prefix of the data written over them from the cursor on: all of it; none if the file would reach 4 GB; and otherwise as much as the room of the clusters, when no cluster is free or the link map ends. |
| Files.File.Seek | DTS-2500_HMI0031/FATFS/ff.c:2985-3134 | The cursor goes to the offset; a file open for writing gets longer, as far as there are clusters; bytes that were there stay. With a link map the cursor is clipped to the size, and IntErr means a stale map or a chain without a clear end. |
| Files.File.FastSeek | DTS-2500_HMI0031/FATFS/ff.c:3029-3053 | Seeking by the link map ends in the state that seeking along the FAT would: the cursor, its cluster and the same bytes. |
| Files.File.SeekFollow | DTS-2500_HMI0031/FATFS/ff.c:3087-3102 | The cluster-following loop ends at the cluster of the offset, or at the end of the room when no cluster is free. |
| Files.File.Truncate | DTS-2500_HMI0031/FATFS/ff.c:3427-3474 | The file ends at the cursor and keeps exactly the clusters that its bytes take; the others are free; nothing else changes. |
| Files.File.MakeLinkMap | DTS-2500_HMI0031/FATFS/ff.c:3004-3027 | Making the map changes neither the file nor the FAT. |
| FileRuns.RunAll | DTS-2500_HMI0031/FATFS/ff.c:2541-3474 | Every sequence of reads, writes, seeks and truncations of a file in normal mode, without faults, is one of an ideal file: bytes, a cursor, and a number of clusters that is balanced with the free ones. |
| FileRuns.NothingLost | DTS-2500_HMI0031/FATFS/ff.c:2642-2755 | In such a sequence without truncation, a byte that is not written over is not lost. |
| FileRuns.NoClusterLost | DTS-2500_HMI0031/FATFS/ff.c:2642-2755 | Nor is a cluster: what the file gets was free before. |
| FileRuns.WriteSeekRead | DTS-2500_HMI0031/FATFS/ff.c:2541-2755 | What is written, sought back to and read is what was written. |
| FileState.AfterCreate | DTS-2500_HMI0031/FATFS/ff.c:2668-2683 | A cluster obtained for a file leaves its other clusters, its bytes and its buffer consistent. |
| FileState.CutContents | DTS-2500_HMI0031/FATFS/ff.c:3444-3468 | Cutting the chain behind the cursor and flushing the buffer keeps the bytes before the cursor. |
| FileState.SectorsHold | DTS-2500_HMI0031/FATFS/ff.c:2587-2603 | Sectors that follow one another within a cluster are the bytes of the file there. |
| FileLayout.FileSectorsApart | DTS-2500_HMI0031/FATFS/ff.c:755-763 | No two positions of a file are in the same sector. |
| FileLayout.ClusterMasks | DTS-2500_HMI0031/FATFS/ff.c:2568-2568 | The masks of the code, with the cluster size less one, are remainders and multiples of the cluster size. |
| Directories.Dir.Sdi | DTS-2500_HMI0031/FATFS/ff.c:1035-1073 | Setting an index gives the place of the entry in a fixed table or along the chain; IntErr exactly behind the table. |
| Directories.Dir.Next | DTS-2500_HMI0031/FATFS/ff.c:1083-1143 | The next index gives the place of the next entry; at the end of the table a chain is stretched by a cleared cluster that was free, if asked to; NoFile and Denied change nothing. |
| DirWalk.BothWays | DTS-2500_HMI0031/FATFS/ff.c:1035-1143 | Setting an index and moving on to it from the first entry give the same place, for every index of 16 bits; only the former accepts larger ones. |
| DirTable.EntryChanged | DTS-2500_HMI0031/FATFS/ff.c:1620-1624 | Storing an entry changes that one of the table and no other. |
| DirTable.ClusterFollows | DTS-2500_HMI0031/FATFS/ff.c:1107-1138 | At the end of a cluster the next entry is the first of the next cluster of the chain. |
| DirSearch.DirFind | DTS-2500_HMI0031/FATFS/ff.c:1410-1461 | Finds the first entry, before the end of the table, that has the name by its short form or by a complete long form with the right check sum; NoFile exactly if there is none. |
| DirSearch.DirAlloc | DTS-2500_HMI0031/FATFS/ff.c:1154-1179 | Finds the first room of so many free entries in a row, in a table that gets longer by zero entries if need be; Denied means that there is no room and the table cannot be stretched. |
| DirNames.ExpectsNext | DTS-2500_HMI0031/FATFS/ff.c:1433-1447 | The running order and check sum of the search stand for a run of parts of the long name down from the last part. |
| DirChange.DirRegister | DTS-2500_HMI0031/FATFS/ff.c:1530-1597 | Gives the object the short name as prepared, or with the first of 99 numbers that no object has, and writes its entries into the first room; Denied means that no number is left or there is no room. |
| DirChange.FindNumber | DTS-2500_HMI0031/FATFS/ff.c:1546-1557 | Tries the numbers in their order, and takes the first that no object has. |
| DirChange.DirRemove | DTS-2500_HMI0031/FATFS/ff.c:1608-1644 | Marks exactly the entries of the object, long ones included, as deleted. |
| DirTheory.RegisterThenFind | DTS-2500_HMI0031/FATFS/ff.c:1410-1597 | After an object has been registered under a name that no object had, a search for the name finds its entry exactly if the name has at most 254 characters or the short form can tell; else it finds nothing. |
| DirTheory.RegisterOthers | DTS-2500_HMI0031/FATFS/ff.c:1530-1597 | Registering changes nothing for any other object: each search that hit another entry before hits it after. |
| DirTheory.RegisterKeeps | DTS-2500_HMI0031/FATFS/ff.c:1530-1597 | Registering keeps short names distinct and the table zero from its end on. |
| DirTheory.RemoveOthers | DTS-2500_HMI0031/FATFS/ff.c:1608-1644 | After removing an object, every other object is found as before, and it is not. |
| DirTheory.RemoveUndoesRegister | DTS-2500_HMI0031/FATFS/ff.c:1530-1644 | Removing an object that has just been registered leaves every search as it was before. |
| DirRuns.RunAll | DTS-2500_HMI0031/FATFS/ff.c:1410-1644 | Over any sequence of creations and removals by name, without faults, short names stay distinct, each success adds or takes away exactly the one object, and each refusal has its reason: the name is there, no number is left, or there is no room. |
| DirRuns.Created | DTS-2500_HMI0031/FATFS/ff.c:1530-1597 | What a creation means for the table: the new object can be found, and no other object changes. |
| DirReading.DirRead | DTS-2500_HMI0031/FATFS/ff.c:1471-1519 | Reads the next object that is shown; its long name is put together in the buffer if it has at most 253 characters, and is given up otherwise. |
| DirReading.RegisterThenRead | DTS-2500_HMI0031/FATFS/ff.c:1471-1597 | The long name that has been registered is the one that is read, up to 253 characters. |
| DirReading.PickedTail | DTS-2500_HMI0031/FATFS/ff.c:1494-1501 | Each part that is picked puts its characters before those of the later parts. |
| DirReading.PartPickable | DTS-2500_HMI0031/FATFS/ff.c:1267-1282 | A part fits the buffer but for the last part of names of 254 and 255 characters. |
| Lfn.FitLfn | DTS-2500_HMI0031/FATFS/ff.c:1293-1318 | Writes part `ord` of a name: 13 characters, an end mark, padding, and order and check sum. |
| Lfn.PickLfn | DTS-2500_HMI0031/FATFS/ff.c:1260-1288 | Takes the characters of a part into the buffer, exactly if the part is well padded and fits. |
| Lfn.CmpLfn | DTS-2500_HMI0031/FATFS/ff.c:1229-1255 | A part matches the name in the buffer exactly if its characters do, whatever their case, and its padding is right. |
| Lfn.PartMatches | DTS-2500_HMI0031/FATFS/ff.c:1229-1318 | A part that has been written for a name matches it, but for the last part of a name of 255 characters. |
| Lfn.SumOf | DTS-2500_HMI0031/FATFS/ff.c:1390-1399 | The check sum of a short name. |
| Lfn.PartText | DTS-2500_HMI0031/FATFS/ff.c:1229-1318 | The characters, end mark and padding that an entry written as a part has. |
| NumName.GenNumname | DTS-2500_HMI0031/FATFS/ff.c:1331-1379 | Puts a tilde and the number, or for numbers above 5 a hash of the long name, behind as much of the name as there is room for. |
| NumName.NumbersApart | DTS-2500_HMI0031/FATFS/ff.c:1331-1379 | Different numbers give different names, both up to 5 or both above: the hash is injective in its seed. |
| NumName.HashInjective | DTS-2500_HMI0031/FATFS/ff.c:1346-1356 | So is the hash over all characters. |
| NumName.XorIsFlips | DTS-2500_HMI0031/FATFS/ff.c:1350-1353 | The exclusive or with 0x11021 inverts three bits besides the one shifted out. |
| Pattern.PatternMatching | DTS-2500_HMI0031/FATFS/ff.c:1747-1784 | The matcher, with its skip count and its infinite flag, accepts exactly the names of the language of the pattern. |
| Pattern.NameMatches | DTS-2500_HMI0031/FATFS/ff.c:1747-1784 | As it is called by f_findnext: ? is any character and * any run of characters, of at least the length that question marks in it ask for. |
| Pattern.RunFirst | DTS-2500_HMI0031/FATFS/ff.c:1759-1781 | A * at the head of the pattern may be dropped if the rest may then begin at any later place of the name: the infinite flag. |
| Numbers.MaskIsRemainder | DTS-2500_HMI0031/FATFS/ff.c:2568-2568 | For a power of two, the mask of the number less one is the remainder. |
| Numbers.PowerTest | DTS-2500_HMI0031/FATFS/ff.c:2239-2240 | The test of a number against the number less one tells powers of two. |
| Numbers.AndNotAligns | DTS-2500_HMI0031/FATFS/ff.c:3071-3071 | For a power of two, the complemented mask gives the multiple below. |
| Mount.WorkArea.CheckFs | DTS-2500_HMI0031/FATFS/ff.c:2128-2146 | Tells FAT boot sectors, other boot sectors, other sectors, and unreadable ones apart. |
| Mount.WorkArea.FindVolume | DTS-2500_HMI0031/FATFS/ff.c:2156-2315 | Mounts exactly if a FAT volume begins at sector 0 or at one of the partitions and its boot sector is accepted, with the geometry and counts that the boot sector and FSINFO give. |
| Mount.AcceptedIsSound | DTS-2500_HMI0031/FATFS/ff.c:2226-2277 | A geometry that is accepted is sound - its areas in order, apart and on the drive, the FAT large enough, the end mark above all cluster numbers - exactly if the sums that the code forms with 32 bits fit. |
| Mount.OneVolume | DTS-2500_HMI0031/FATFS/ff.c:2207-2222 | A drive has one place at most where mounting looks for the volume. |
| Layout.ShiftAligns | DTS-2500_HMI0031/FATFS/ff.c:4108-4117 | The data area moves on by less than an erase block, to a block boundary if the block size is a power of two. |
| Layout.ClustersFit | DTS-2500_HMI0031/FATFS/ff.c:4119-4124 | The number of clusters is that of whole ones in what the areas leave, and goes with the FAT type. |
| Layout.FatLargeEnough | DTS-2500_HMI0031/FATFS/ff.c:4086-4103 | The FAT has room for all entries, unless the 32-bit sum for its size wraps. |
| Layout.FewClustersFit | DTS-2500_HMI0031/FATFS/ff.c:4086-4124 | It does not wrap where the number of clusters is one that 28-bit entries can tell from the end mark. |
| Layout.ClusterUnitPower | DTS-2500_HMI0031/FATFS/ff.c:4076-4084 | The cluster size is a power of two up to 128 sectors, whatever size is asked for. |
| Format.Mkfs | DTS-2500_HMI0031/FATFS/ff.c:4021-4258 | Writes exactly the sectors of the plan, partition table, boot sector with its copy, FSINFO, FAT and root directory, and no other; fails if there is no plan or the areas do not fit on the drive. |
| Format.BootSectorFields | DTS-2500_HMI0031/FATFS/ff.c:4166-4205 | The fields of the boot sector read back as the numbers of the plan. |
| FormatMount.MountUndoesFormat | DTS-2500_HMI0031/FATFS/ff.c:4021-4258 | A drive that has been formatted is mounted exactly if the areas leave room for a cluster, and then with the type, cluster size, FAT, data area and counts that were planned. |
| FormatMount.BootParsed | DTS-2500_HMI0031/FATFS/ff.c:2226-2277 | Its boot sector is accepted exactly then, and parsed it is the planned geometry. |
| FormatMount.PlannedIsSound | DTS-2500_HMI0031/FATFS/ff.c:4021-4258 | For every plan that leaves room for a cluster, the mounted geometry is sound exactly if the number of entries is at most 0x0FFFFFFF. |
| FormatMount.FreshVolume | DTS-2500_HMI0031/FATFS/ff.c:4207-4255 | On the fresh volume nothing is allocated but the root directory of FAT32, the count in FSINFO is the number of free clusters, and the root directory is empty. |
| FormatMount.DataIsAligned | DTS-2500_HMI0031/FATFS/ff.c:4108-4117 | The data area begins at an erase block boundary. |
| FormatMount.NoClusterLeft | DTS-2500_HMI0031/FATFS/ff.c:4108-4124 | A case where the code fails: formatting succeeds with no cluster left, and mounting refuses the volume. |
| FormatMount.FatTooSmall | DTS-2500_HMI0031/FATFS/ff.c:4092-4094 | A case where the code fails: the size of the FAT wraps, and the volume is mounted with one FAT sector for 2^30 clusters. |
| TreeOps.Unlink | DTS-2500_HMI0031/FATFS/ff.c:3483-3543 | Removes the object and frees its chain, or refuses it for a read-only object and for a directory that shows an object; the volume stays a tree in which each allocated cluster has one owner, and every directory stays below the root. |
| TreeOps.CheckEmpty | DTS-2500_HMI0031/FATFS/ff.c:3520-3528 | Ok means that the subdirectory has no object, Denied that it shows one. |
| TreeMake.Mkdir | DTS-2500_HMI0031/FATFS/ff.c:3552-3617 | Makes a directory with its dot entries, below the one named, or refuses with its reason; also when the object cannot be registered, the cluster taken is freed again, each allocated cluster has one owner, and every directory is below the root. |
| TreeMake.MakeTable | DTS-2500_HMI0031/FATFS/ff.c:3579-3600 | The cluster of the new directory holds the two dot entries and zeros; no other table changes. |
| TreeMake.DirIsMade | DTS-2500_HMI0031/FATFS/ff.c:3601-3610 | Nothing but the new directory and its entry differs. |
| TreeMove.Rename | DTS-2500_HMI0031/FATFS/ff.c:3669-3738 | Gives the object its new name in the directory, with everything else of its entry and the archive bit set; no other object changes. Each allocated cluster still has one owner, and every directory is still below the root exactly if no directory has gone into itself or below itself. |
| TreeMove.RenameConnected | DTS-2500_HMI0031/FATFS/ff.c:3703-3730 | That condition, for all trees and moves. |
| TreeMove.MovedIntoItself | DTS-2500_HMI0031/FATFS/ff.c:3703-3730 | A case where the code fails: f_rename("A", "A/B") leaves each cluster with its owner, but A is not below the root any more. |
| TreeMove.MoveClaims | DTS-2500_HMI0031/FATFS/ff.c:3703-3730 | Storing the new entry, the entry for the parent, and the deleted entries, in the order of the code, comes to taking the chain from one entry and giving it to the other. |
| TreeMove.IsRenamed | DTS-2500_HMI0031/FATFS/ff.c:3704-3710 | No other object gets or loses a name or changes its entry. |
| TreePaths.MoveConnected | DTS-2500_HMI0031/FATFS/ff.c:3703-3730 | Moving the owner of a directory keeps all directories below the root exactly if the new parent is not in its subtree. |
| TreePaths.UnlinkConnected | DTS-2500_HMI0031/FATFS/ff.c:3532-3537 | Removing an empty directory or a file keeps all other directories below the root. |
| Tree.Detach | DTS-2500_HMI0031/FATFS/ff.c:3532-3533 | Removing an entry leaves its chain to no entry, and all other clusters to their owners. |
| Tree.Take | DTS-2500_HMI0031/FATFS/ff.c:3572-3576 | A free cluster that is taken is the only one without an entry. |
| Tree.Give | DTS-2500_HMI0031/FATFS/ff.c:3534-3535 | Freeing the chain that no entry owns leaves each allocated cluster with one owner. |
| Tree.Grow | DTS-2500_HMI0031/FATFS/ff.c:1113-1138 | A table that gets longer takes clusters that were free, for its own chain. |
| Tree.Attach | DTS-2500_HMI0031/FATFS/ff.c:3605-3609 | An entry without clusters gets the chain that no entry owns. |
| Tree.NewDir | DTS-2500_HMI0031/FATFS/ff.c:3579-3600 | A new table without objects owns nothing. |
| Tree.DropDir | DTS-2500_HMI0031/FATFS/ff.c:3601-3603 | A table without objects can be given up. |
| TreeDisk.DiskStep | DTS-2500_HMI0031/FATFS/ff.c:1530-1644 | Storing to one directory table leaves the tables of all other directories as they were. |
| TreeDisk.TreeDirsApart | DTS-2500_HMI0031/FATFS/ff.c:3483-3738 | Where each cluster has one owner, no two directories share a cluster. |

## Left out

- Numbers.MaskIsRemainder: the masks of bit flags (attributes, name status) are written as division and remainder at
  once, and only those with the cluster size are proved to be what the code writes.
- FileRuns.RunAll: speaks of files in normal mode; with a link map, each operation has its contract in `Files`, but a
  sequence of them is not put against the ideal file, because truncating a mapped file leaves the map longer than the
  chain, which the code does not notice.
- FormatMount.MountUndoesFormat: speaks of plans whose 32-bit sum for the size of the FAT does not wrap;
  `FormatMount.FatTooSmall` shows one that does.
- NumName.NumbersApart: a number up to 5 and a hash may give the same name; dir_register then goes on to the next
  number, which `DirChange.DirRegister` covers.
- Sync.SyncFs: an FSINFO sector (the second of the volume) that lies within the FAT is not modelled; mounting accepts
  such a volume, but formatting does not make one.
- TreeMake.Mkdir: after the last sector of the new table the code clears the window once more; as registering the
  object moves the window, the model leaves that out.
- TreeMove.Rename: where the entry to be moved is that of a directory without a cluster, the code stops with an internal
  error and leaves both entries; the contract says so, and nothing more of that volume.
- f_open, f_close, f_sync: creating a file is `DirChange.DirRegister`, freeing the old one's chain is
  `Allocator.RemoveChain`; storing size, time and start cluster in the directory entry is not modelled.
- follow_path and create_name: operations take the directory and the prepared name that these would give.
- f_opendir, f_readdir, f_stat, f_chmod, f_utime, labels, f_forward, f_fdisk, string functions: they add easy members
  only.
- Code pages and case folding: the upper-case table is a parameter.
- Time: time stamps are parameters, or entries keep the bytes they have.
- Locks, reentrancy, the tiny and the read-only configuration, sectors of other sizes: not in the shipped
  configuration.
- Validity of file objects across mounts (`validate`): objects belong to the volume they were made for.
- Failures of the drive: that they happen, and what they leave alone, is modelled; what can still be said of a file or
  a tree after one is not, beyond the validity of the volume object.
