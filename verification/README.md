# MainDOB storage engine and four smaller cores, modelled and proved

MainDOB keeps its files in one server, `DobFileSystem`, which has two engines over a disk of 512-byte
sectors: an exFAT engine (`boot/DobFileSystem/exfat.c`) and a FAT32 engine (`boot/DobFileSystem/main.c`).
This project models both, and three smaller algorithmic cores beside them: the multi-line text box
(`libdobui/textbox.c`, `libdobui/textbox_clip.c`), the kernel's service registry (`kernel/registry.c`) and
the line rasteriser of the charts (`libdobui/graph.c`).

Code that works step by step on shared state is a class with the same fields and methods with the same
loops. Each method is proved against a specification function or predicate on values, and what the code is
for is proved about those. Reading order:

- **exFAT, bottom up.** `ExfatScan` (which clusters the allocator meets), `ExfatVolume` (FAT with its
  one-sector cache, allocation bitmap, allocator, on real sectors, with the ghost views `fat`, `used` and
  `heap`), `ExfatDisk` (the bytes of those views), `ExfatContents` (a chain as one byte sequence),
  `ExfatFile` (open files), `ExfatRuns` (runs over several open files), `ExfatNames`, `ExfatEntrySet`,
  `ExfatSums` (checksums and fields, byte by byte), `ExfatDirectory`, `ExfatDirVolume`, `ExfatCursor` (names,
  checksummed entry sets, directories), `ExfatTree`, `ExfatTreeLaws`, `ExfatSteps` (the tree and single
  ownership), `ExfatPaths`, `ExfatNamespace`, `ExfatCreate`, `ExfatUnlink`, `ExfatRename`, `ExfatUpdate`,
  `ExfatCommands`, `ExfatTorn` (the operations on paths and runs of them), `ExfatCase` (upper and lower case),
  `ExfatPathMap`, `ExfatNodes` (the file system as a map from paths to folders and bytes), `ExfatLayout`,
  `ExfatFormat`, `ExfatMount`, `ExfatBoot` (mkfs and mount).
- **FAT32.** `FatTable` (windowed write-back cache), `FatClusters` (three-slot cluster cache), `FatChains`
  and `FatAllocation` (allocator and chains), `FatFiles` (reading), `FatWrite` and `FatClose` (saving),
  `FatSaved` (a save and what is read after it), `FatNames`, `FatSlots`, `FatDirectory`, `FatDirOps`, `FatDirMap`,
  `FatLost`, `FatMoves` (directories), `FatLaws`, `FatDirLaws` (names, entries and runs of commands, in plain
  terms), `FatAppend` (writing from any position).
- **The rest.** `TextLines`, `TextWrap`, `TextBox`, `TextLaws`; `Registry`; `Raster`. `Arith` and `Bytes` are shared.

The exFAT engine follows Microsoft's exFAT file system specification (sections 6.3.3, 7.1, 7.4, 7.6 and
7.7); names are well-formed UTF-8 in the sense of section 3 of RFC 3629, up to three bytes a character.

## Main results

- **The exFAT engine is a map from paths to folders and bytes.** From the format on, over any run of create, mkdir,
  unlink, rename and modify on path strings, each command changes that map as it says and in nothing else
  (`ExfatNodes.FormatAndRun`, `ExfatNodes.CommandOnMap`, `ExfatNodes.Undisturbed`), with exact result codes.
  Below it: `ExfatCommands.RunCommands` on real sectors, `ExfatRuns.Run` for any number of open files.
- **A FAT32 save is read back wholly new or wholly old** (`FatSaved.SaveThenRead` on `FatClose.SaveFile`), with the
  exact cases of the files that had no content.
- **A FAT32 directory is a finite map over any run** (`FatDirMap.RunDir`, `FatDirLaws`), and the table, the caches, the
  allocator and the readers are runs over plain values (`FatTable.RunFat`, `FatAllocation.RunAllocator`,
  `FatFiles.RunFd`).
- **The registry is a map from names to port and owner in every interleaving**, and no wakeup is lost
  (`Registry.RunRegistry`, `Registry.BindingStays`).
- **The text box does to the text what the keys say** (`TextBox.RunEvents`, `TextLaws`), and **every line is drawn within
  half a pixel** (`Raster.EmitLine`, `Raster.NearLineIs`).
- What is on the disk is also said byte by byte: `ExfatDisk`, `ExfatSums`, `ExfatBoot`, `FatLaws`.

## Findings

Where a property that the design or its comments promise is false of the code, the code is modelled as it
is. A lemma or method shows an input where the property fails, and the exact condition is proved.

- **A file can claim clusters it does not have.** `exfat_write` and `exfat_ftrunc` truncate the cluster
  count to 32 bits (`exfat.c:1401`, `exfat.c:1487`). `ExfatFile.NeedExact` says when the count is exact,
  `ExfatFile.NeedWraps` gives an input where it is not, and `ExfatFile.Ftrunc` and `ExfatFile.Write` say
  exactly when such a request is refused and what a request that is not refused leaves.
- **The exFAT allocator can miss free clusters.** The position of its scan is a 32-bit sum that wraps
  (`exfat.c:886`). `ExfatScan.ScanComplete` says exactly when the scan meets every cluster,
  `ExfatScan.ScanMisses` is a volume where it passes by a quarter of them, and no space is reported exactly
  when the clusters it meets are in use (`ExfatScan.NothingDelivered`). Up to 2^31 clusters it finds all
  (`ExfatScan.DeliversAll`).
- **Nothing can be created in a deep exFAT directory.** The path of the parent must be shorter than 260 bytes
  (`exfat.c:1307-1313`), although paths of 511 bytes reach it. `ExfatCreate.Create` and `ExfatRename.Rename`
  have the limit in their exact result codes, `ExfatCreate.DeepRefused` is a path it refuses.
- **A directory can be renamed to below itself.** `exfat_rename` does not compare the paths.
  `ExfatCommands.DetachesExactly` says which renames do that, `ExfatTreeLaws.MovedExactly` that exactly these
  leave a directory that does not lead to the root.
- **A formatted volume can have no room for its own FAT.** Every size of at least 2^40 sectors in a short
  stretch after a multiple of 2^40 is accepted with a bitmap of zero bytes (`exfat.c:1801`,
  `exfat.c:1810`). `ExfatLayout.SoundExactly` characterises the sizes, `ExfatLayout.WrappingAccepted` shows
  that they are accepted, `ExfatLayout.UnsoundSize` is one.
- **A failed create or rename can leave an exFAT directory torn.** `dir_find_free` links clusters one by
  one and gives up without unlinking them (`exfat.c:1214-1222`), so the directory is longer than its entry
  says. `ExfatCreate.Create` and `ExfatRename.Rename` prove exactly when; it takes 512-byte clusters and a
  name of more than 210 UTF-16 units (`ExfatCreate.TearsOnlySmall`, `ExfatTorn.FullCluster`). In
  such a directory the next create can report success for an entry that no search finds
  (`ExfatTorn.CreatedButHidden`).
- **A FAT32 rename can lose the file.** The entry is removed before the new name is added, and the way back
  can fail (`main.c:3659-3671`). `FatDirMap.Result` gives the outcome of every command as a function of the
  state before it, the lost entry included; `FatLost.RenameLoses` is a directory where it happens;
  `FatDirMap.LostIsLonger` says what both names must be like.
- **The largest FAT32 files cannot be read from the start.** The 32-bit rounding in `fd_fill_read` wraps
  (`main.c:2716-2717`). `FatFiles.FillRead` fails exactly then, `FatFiles.ReadsTheFile` says when a read
  delivers the file's bytes, `FatFiles.LargestFileUnreadable` is the largest file.
- **A FAT32 write that failed half way has still taken its bytes.** Repeating it doubles them
  (`FatClose.RetryRepeats`); `FatClose.ContentIsAcknowledged` says exactly when a save holds what the
  successful writes were given.
- **Appending to a FAT32 file overwrites what is before its end.** Staged bytes are stored from the first byte
  of their cluster on, wherever the cursor stood (`main.c:2655`), and a handle opened for appending starts at
  the end of the file (`main.c:2931`). `FatAppend.InPlaceExactly`: the bytes land in place if and only if the
  cursor is at the start of a cluster. `FatAppend.AppendAll` says where they land otherwise,
  `FatAppend.AppendReplaces` is an append that replaces.
- **FAT32 files near 4 GiB.** The cluster count for a write is rounded in 32 bits (`main.c:2575`).
  `FatWrite.NeededExact` says when it is enough; less than a cluster below 4 GiB a write can be acknowledged
  that no flush can store (`FatAppend.AcknowledgedUnbacked`), and past 4 GiB the bytes land on the start of the
  file (`FatAppend.WrapsToFront`).
- **The entry of a new FAT32 file can name bytes that are not on the disk.** For a file without content the
  entry is committed although the last store failed (`main.c:3239-3244`). `FatClose.SaveFile` and
  `FatClose.HalfStoredContent` say exactly what the clusters then hold, `FatClose.NewFileTorn` is a save where
  that is something else.
- **A FAT32 name can be too long for its cluster.** A name with more slots than a cluster is reported as added,
  but its 8.3 slot is cut off (`main.c:1683-1743`): nothing is listed and the directory is left untidy.
  `FatDirOps.AddEntry` has the exact condition; with 512-byte clusters it is 196 bytes
  (`FatDirMap.LongNameOverlong`). Names of more than 260 bytes are listed without their end
  (`FatDirMap.LongNamesAlike`).
- **A FAT32 entry can be written and never listed.** A name whose 8.3 form starts with the byte 0xE5 (the
  UTF-8 form of every character from U+5000 to U+5FFF does) is reported as added, but its slot reads as
  deleted (`main.c:1291`, `main.c:1679`). `FatDirOps.AddEntry` says exactly when nothing is listed and when
  long-name slots are left without an entry; `FatDirMap.IdeographHidden` gives a name of each kind.
- **A FAT32 name in 8.3 form that ends with a dot is listed without it**, is not found again, and can become
  the second entry of its name: `FatNames.TrailingDotLost` and `FatDirMap.DotDoubles`, with the exact
  conditions in `FatNames.ShortNameShown`, `FatDirMap.FoundAgain` and `FatDirMap.RunDir`.

## Model

| member | source | states |
|---|---|---|
| ExfatVolume.LbaApart | boot/DobFileSystem/exfat.c:184-195 | The sectors of two different clusters never overlap |
| ExfatVolume.BitInjective | boot/DobFileSystem/exfat.c:850-861 | Two clusters share a bitmap position only when they are the same cluster |
| ExfatDisk.LinkAt | boot/DobFileSystem/exfat.c:198-222 | The link of a cluster is the little-endian word at byte 4 c of the FAT, four bytes of one sector |
| ExfatDisk.BitAt | boot/DobFileSystem/exfat.c:850-872 | A cluster is in use exactly when bit (c - 2) mod 8, the lowest first, of byte (c - 2) / 8 of the bitmap is set |
| ExfatDisk.SectorAt | boot/DobFileSystem/exfat.c:184-195 | Sector s of cluster c is the sector (c - 2) spc + s of the heap |
| ExfatVolume.Volume.FatNext | boot/DobFileSystem/exfat.c:198-222 | Reading a link through the one-sector cache gives what the FAT on the disk holds |
| ExfatVolume.Volume.FatSet | boot/DobFileSystem/exfat.c:825-845 | Setting a link changes that link alone, in the FAT and in the cache |
| ExfatScan.ScanMeets | boot/DobFileSystem/exfat.c:884-886 | With its sum cut to 32 bits the wrap-around scan meets exactly the clusters that are not passed by |
| ExfatScan.ScanComplete | boot/DobFileSystem/exfat.c:884-886 | It meets every cluster if and only if the start position plus the cluster count is at most 2^32 |
| ExfatScan.ScanMisses | boot/DobFileSystem/exfat.c:884-886 | A volume size and a hint with which it passes by a quarter of the clusters |
| ExfatScan.NothingDelivered | boot/DobFileSystem/exfat.c:876-903 | The allocator finds nothing if and only if every cluster is in use or passed by |
| ExfatScan.DeliversAll | boot/DobFileSystem/exfat.c:876-903 | On volumes of up to 2^31 clusters it delivers every free one, from any hint |
| ExfatVolume.Volume.AllocCluster | boot/DobFileSystem/exfat.c:876-903 | Takes the first free cluster its 32-bit scan meets and sets its bit and no other; zero, with nothing changed, when it meets none; one fewer is left to deliver |
| ExfatVolume.Volume.FreeChain | boot/DobFileSystem/exfat.c:913-924 | Freeing a chain clears the bits of exactly its clusters |
| ExfatFile.EnsureClusters | boot/DobFileSystem/exfat.c:952-999 | The chain grows by clusters that were free, a contiguous one becomes linked; it falls short exactly when the allocator delivers too few, and then the file is as it was |
| ExfatFile.Read | boot/DobFileSystem/exfat.c:698-778 | Delivers the flat bytes from the cursor on, zeros above ValidDataLength, and advances the cursor by as many |
| ExfatContents.WriteIsFlat | boot/DobFileSystem/exfat.c:1405-1479 | Zeroing the gap above ValidDataLength and storing the data is one flat write |
| ExfatContents.ResizeIsFlat | boot/DobFileSystem/exfat.c:1494-1538 | Moving DataLength, ValidDataLength following only downwards, is one flat resize |
| ExfatFile.Write | boot/DobFileSystem/exfat.c:1391-1480 | A flat write, or no space and no effect on the bytes. When the 32-bit cluster count wraps: refused exactly if even the wrapped count finds too few clusters, and otherwise the chain does not reach the end of the write; a chain that ends keeps it inside the file, with exactly the bytes that fit stored and an error if that is none |
| ExfatFile.Ftrunc | boot/DobFileSystem/exfat.c:1482-1539 | A flat resize, or no space and no effect; the file is well-formed afterwards exactly when the count did not wrap or the request was refused |
| ExfatFile.NeedExact | boot/DobFileSystem/exfat.c:1401 | The cluster count covers the end of a write if and only if the true count fits 32 bits |
| ExfatFile.NeedWraps | boot/DobFileSystem/exfat.c:1400-1403 | An offset where the count wraps to one cluster |
| ExfatRuns.Run | boot/DobFileSystem/exfat.c:698-999 | Over any interleaving of reads, writes, truncates and seeks on any number of open files, each file is the flat file its own operations make of it, every cluster in use has one owner, and clusters leak only if an operation failed |
| ExfatRuns.CutBytesStayCut | boot/DobFileSystem/exfat.c:1505-1537 | In any log of operations, a byte cut off by a truncate reads as zero, or is past the end, until a write stores it |
| ExfatRuns.WriteReadsBack | boot/DobFileSystem/exfat.c:698-1480 | A write, a seek back and a read of as many bytes deliver the bytes written and leave the file and the cursor as the write did |
| ExfatRuns.RunReadsBack | boot/DobFileSystem/exfat.c:698-1480 | In any run over any number of open files a write, a seek back and a read of as many bytes deliver the bytes written |
| ExfatNames.NameRoundTrip | boot/DobFileSystem/exfat.c:1113-1141 | Decoding a well-formed UTF-8 name to UTF-16 and encoding it again gives the same bytes |
| ExfatEntrySet.NameComesBack | boot/DobFileSystem/exfat.c:228-258 | A well-formed name of at most 255 bytes comes back byte for byte through the bounded encoder |
| ExfatSums.KnownCharacters | boot/DobFileSystem/exfat.c:228-258 | Characters of one, two and three bytes with their UTF-16 units, both ways |
| ExfatSums.StepRotates | boot/DobFileSystem/exfat.c:278-288 | The checksum step of a zero byte is an exact rotation to the right: twice the result is the sum, plus 0xFFFF if its lowest bit was set |
| ExfatSums.StepInjective | boot/DobFileSystem/exfat.c:278-288 | The step tells any two sums apart, and any two bytes |
| ExfatSums.OneByteDetected | boot/DobFileSystem/exfat.c:278-288 | A set that passes the checksum test fails it with any one byte changed, in the checksum field or outside |
| ExfatEntrySet.ChecksumFilled | boot/DobFileSystem/exfat.c:278-288 | A set with its own checksum filled in passes the checksum test; what the checksum is, `ExfatSums.StepRotates` and `ExfatSums.StepInjective` say |
| ExfatEntrySet.ParseSet | boot/DobFileSystem/exfat.c:470-508 | Parsing, entry by entry, gives what the set says or nothing; byte by byte that is `ExfatSums.FieldsMean` and `ExfatSums.AsciiNameMeans` |
| ExfatSums.FieldsMean | boot/DobFileSystem/exfat.c:470-508 | An accepted set has type bytes 0x85 and 0xC0, its checksum at bytes 2 and 3, first cluster, lengths, directory and contiguity bits at their bytes |
| ExfatSums.AsciiNameMeans | boot/DobFileSystem/exfat.c:483-503 | The name of an accepted set is read from bytes 2 to 31 of the name entries, two bytes a character |
| ExfatSums.PlainSetIsA | boot/DobFileSystem/exfat.c:433-511 | The set 85 02 66 0E 20 .., C0 01 00 01 .., C1 00 61 .. parses to an empty file "a"; its sum is 0x0E66 |
| ExfatSums.HashIs | boot/DobFileSystem/exfat.c:1099-1109 | The name hash takes both bytes of each upper-cased unit, the low one first, by the same step |
| ExfatEntrySet.PatchedParses | boot/DobFileSystem/exfat.c:1051-1080 | A set with new allocation fields and a fresh checksum parses to the same name with those fields |
| ExfatNamespace.BuiltSetIs | boot/DobFileSystem/exfat.c:1232-1286 | A set built for a name is valid and parses back to that name and those fields |
| ExfatDirectory.SetInserted | boot/DobFileSystem/exfat.c:1282-1285 | A set written into free entries adds exactly itself to the listing |
| ExfatDirectory.SetDeleted | boot/DobFileSystem/exfat.c:1554-1565 | Clearing the in-use bits of a listed set removes exactly that set |
| ExfatDirectory.SetRewritten | boot/DobFileSystem/exfat.c:1673-1680 | A set rewritten in place replaces exactly that set |
| ExfatDirectory.EndMarkersStay | boot/DobFileSystem/exfat.c:443 | In a well-formed directory everything after the first end marker is an end marker |
| ExfatDirVolume.FindFree | boot/DobFileSystem/exfat.c:1173-1226 | Finds a run of free entries, growing the directory by zeroed clusters; fails exactly when the directory is cramped, having linked every cluster the allocator delivers; lists what it did |
| ExfatDirVolume.LongNameCramped | boot/DobFileSystem/exfat.c:1208-1217 | A 255-unit name in a full directory with 512-byte clusters and one free cluster cannot be placed |
| ExfatTorn.FullCluster | boot/DobFileSystem/exfat.c:1208-1217 | A tidy directory of one full 512-byte cluster for which that is so |
| ExfatDirVolume.EntryMetaCommit | boot/DobFileSystem/exfat.c:1038-1082 | The listing changes in that one set, in first cluster, sizes and flag alone |
| ExfatCursor.NextFile | boot/DobFileSystem/exfat.c:433-511 | Ends on any volume, cyclic chains included, having used up entries; on a well-formed directory it delivers the next listed set |
| ExfatCursor.FindIn | boot/DobFileSystem/exfat.c:551-568 | Ends on any volume, for linked and contiguous directories; on a well-formed linked one it finds the first set of that name among the entries its size covers |
| ExfatCase.SameNameExactly | boot/DobFileSystem/exfat.c:263-274 | Names without NUL are the same if and only if they have equal length and each pair of bytes is equal or is the two cases of one ASCII letter |
| ExfatCase.NoTwoCases | boot/DobFileSystem/exfat.c:1608-1708 | No directory of a file system holds two names that differ only in the case of ASCII letters |
| ExfatNamespace.Resolve | boot/DobFileSystem/exfat.c:517-581 | Ends on any volume; on a file system it finds exactly what the tree has at the path. For the bytes of the names see `ExfatCase` |
| ExfatCase.WalkEitherCase | boot/DobFileSystem/exfat.c:517-581 | Paths that differ only in the case of ASCII letters name the same |
| ExfatCase.ResolveEitherCase | boot/DobFileSystem/exfat.c:517-581 | The resolver finds two such paths at the same place, or neither |
| ExfatNamespace.ResolveParent | boot/DobFileSystem/exfat.c:1291-1320 | Succeeds exactly when the path before the last component is shorter than 260 bytes and names a directory of the tree, and the last component has an acceptable length, and then gives that directory |
| ExfatPaths.SplitBase | boot/DobFileSystem/exfat.c:1291-1320 | The components of a path, cut at 255 bytes, are those of its parent prefix and its last component |
| ExfatPaths.SplitSlashed | boot/DobFileSystem/exfat.c:517-546 | Components of 1 to 255 bytes without a slash, put together with a slash before each, are split into the same again |
| ExfatPaths.DeepPath | boot/DobFileSystem/exfat.c:1307-1313 | A path of short components whose parent prefix does not fit the buffer |
| ExfatCreate.DeepRefused | boot/DobFileSystem/exfat.c:1307-1313 | Below two directories with names of 200 and 100 bytes nothing can be created, although the parent exists |
| ExfatNamespace.UnrecordedGrowth | boot/DobFileSystem/exfat.c:1213-1222 | A directory below the root that grew without its entry saying so is no part of a file system |
| ExfatTreeLaws.MovedExactly | boot/DobFileSystem/exfat.c:1682-1707 | Moving an entry to another directory or name keeps the tree a file system if and only if no directory moves below itself |
| ExfatCommands.DetachesExactly | boot/DobFileSystem/exfat.c:1608-1708 | A rename that is not refused moves a directory below itself exactly when the new path goes on from the old one, which nothing checks |
| ExfatCreate.Create | boot/DobFileSystem/exfat.c:1324-1387 | For any cluster size and any path string: which result code exactly when, the 260-byte limit on the parent included; on success the path leads to the one new entry and all else is as before; the volume holds a file system afterwards if and only if the creation did not tear |
| ExfatCase.NoneBeside | boot/DobFileSystem/exfat.c:1337-1338 | Nothing can be created at a path that names something in another case |
| ExfatCase.NameOkExactly | boot/DobFileSystem/exfat.c:1143-1154 | A well-formed name can be given if and only if it has 1 to 255 bytes, none a control character or one of the nine forbidden ones |
| ExfatCreate.TearsOnlySmall | boot/DobFileSystem/exfat.c:1210-1217 | A creation tears only with 512-byte clusters and a name of more than 210 units |
| ExfatTorn.CreatedButHidden | boot/DobFileSystem/exfat.c:1362-1386 | In a full directory longer than its recorded size an entry is added and listed by the clusters, but the search by its name does not find it |
| ExfatUnlink.Unlink | boot/DobFileSystem/exfat.c:1582-1606 | Removes exactly the named file or empty directory, frees exactly its clusters, and keeps the bytes of all other files; otherwise changes nothing |
| ExfatRename.Rename | boot/DobFileSystem/exfat.c:1608-1708 | For any cluster size and any path strings: which result code exactly when, the 260-byte limit on the target's parent included; on success the new path leads to the same clusters, sizes and flags and the old name is gone; a file system afterwards if and only if it did not tear |
| ExfatRename.RenameTearsOnlySmall | boot/DobFileSystem/exfat.c:1682-1685 | A rename tears only with 512-byte clusters and a name of more than 210 units |
| ExfatUpdate.UpdateFile | boot/DobFileSystem/exfat.c:679-696 | Open, any operations, flush: the entry afterwards describes the flat bytes the session left, no other file's bytes change, and clusters leak only if an operation failed |
| ExfatCommands.RunCommands | boot/DobFileSystem/exfat.c:1324-1719 | Over any run of create, mkdir, unlink, rename and modify on path strings: each command has its exact effect on the tree, on every file's bytes and on what is leaked; the volume holds a file system at the end if and only if the last command did not tear, which takes 512-byte clusters; every state but one that is torn is a file system whose files can all be read |
| ExfatNodes.CommandOnMap | boot/DobFileSystem/exfat.c:1324-1719 | The file system is a map from paths to folders and documents with their bytes. A create adds its path; an unlink takes its path out; a rename moves its path and all that is below it to the new path; a modify replaces one document by what its operations make of it. Every other path names what it did, and after a command that fails, torn or not, every path does |
| ExfatNodes.RunOnMap | boot/DobFileSystem/exfat.c:1324-1719 | In any run every command changes that map as it says, and in nothing else |
| ExfatNodes.Undisturbed | boot/DobFileSystem/exfat.c:1324-1719 | Whatever a run does, a path names the same folder or the same bytes until a command that succeeds is about it or about a path above it |
| ExfatNodes.CreatableOnMap | boot/DobFileSystem/exfat.c:1324-1345 | A path can be made if and only if it fits the buffers, its folder is there, nothing is at the path and its last name is acceptable |
| ExfatNodes.RemovableOnMap | boot/DobFileSystem/exfat.c:1582-1600 | An unlink is refused exactly when nothing is at the path or a folder with something in it |
| ExfatNodes.RenameOnMap | boot/DobFileSystem/exfat.c:1608-1640 | Which result a rename has, but for room, said of what the two paths and the folder of the new one name |
| ExfatPathMap.MovedSeen | boot/DobFileSystem/exfat.c:1682-1707 | After a rename each path below the new one shows the cluster, sizes and flags that the path below the old one showed, and none is left below the old one |
| ExfatLayout.SoundExactly | boot/DobFileSystem/exfat.c:1799-1816 | For every accepted 64-bit size and both sector sizes, regions disjoint and inside the volume and the FAT and bitmap large enough, exactly when the size is not a wrapping one |
| ExfatLayout.WrappingAccepted | boot/DobFileSystem/exfat.c:1807-1816 | Every wrapping size is accepted with an unsound layout |
| ExfatLayout.UnsoundSize | boot/DobFileSystem/exfat.c:1801-1811 | One such size, with no bitmap bytes and a FAT too short for the clusters |
| ExfatLayout.AlwaysLaid | boot/DobFileSystem/exfat.c:1807-1816 | Even so, every accepted layout has its regions in order inside the volume |
| ExfatLayout.PlanIs | boot/DobFileSystem/exfat.c:1780-1811 | Below 2^40 sectors: clusters of 4, 32 or 128 KiB by the size of the volume, as many as there is room for behind the FAT, and no larger bitmap than they need |
| ExfatLayout.FatIsTight | boot/DobFileSystem/exfat.c:1799-1806 | The FAT is at most one cluster longer than the clusters it was estimated for need |
| ExfatFormat.Mkfs | boot/DobFileSystem/exfat.c:1770-1968 | For every accepted size writes both boot regions with their checksum, the FAT, the bitmap of exactly the clusters in use if it has a cluster, the up-case table and the root; on an error writes nothing |
| ExfatBoot.BootBytes | boot/DobFileSystem/exfat.c:1832-1856 | Every field of the boot sector at its byte, the length of the volume at 72 and the signature among them |
| ExfatBoot.BootChecksumDetects | boot/DobFileSystem/exfat.c:1725-1737 | The checksum of the boot region tells apart any two regions that differ in one byte other than 106, 107 and 112 |
| ExfatBoot.ChecksumRepeated | boot/DobFileSystem/exfat.c:1880-1889 | The checksum sector repeats that sum over the first eleven sectors |
| ExfatBoot.RootBytes | boot/DobFileSystem/exfat.c:1930-1963 | Label, bitmap and up-case entries of the root at their bytes |
| ExfatBoot.TableIs | boot/DobFileSystem/exfat.c:1824-1829 | The up-case table maps a to z to A to Z and keeps all else |
| ExfatBoot.TableSumDetects | boot/DobFileSystem/exfat.c:1739-1745 | The checksum of the up-case table tells apart any two tables that differ in one byte |
| ExfatMount.Mount | boot/DobFileSystem/exfat.c:585-658 | Accepts only boot sectors that pass the checks, and gives their fields and the special clusters the root names, wherever in a root of any length these are |
| ExfatMount.FormatAndRead | boot/DobFileSystem/exfat.c:1770-1968 | For every 64-bit size, mounting what was formatted recovers the boot fields and special clusters laid out |
| ExfatMount.FormatAndMount | boot/DobFileSystem/exfat.c:585-658 | On devices below 2^32 sectors it is moreover an empty file system, with exactly the bitmap, up-case and root clusters in use |
| ExfatNodes.FormatAndRun | boot/DobFileSystem/exfat.c:1324-1968 | Format, mount and any run of commands: at first no path but the root names anything, and every command makes of the map from paths to folders and bytes what it says |
| FatTable.RunFat | boot/DobFileSystem/main.c:980-1078 | Any run of reads, writes and flushes of the windowed cache is a run over one plain array: reads give the last value written, top bits kept; changes lie in the dirty range, both copies stay equal, and after a flush the disk holds the array |
| FatTable.ReadsLast | boot/DobFileSystem/main.c:980-1078 | A read delivers the low 28 bits last written to the entry, or of what it held |
| FatClusters.ClusterStore.Victim | boot/DobFileSystem/main.c:912-947 | An empty slot if there is one, else the least recently used one while the clock has not wrapped |
| FatClusters.ClusterStore.ReadCluster | boot/DobFileSystem/main.c:912-947 | Delivers what the disk holds, caches it, and pushes out only the least recently used cluster |
| FatClusters.ClusterStore.WriteCluster | boot/DobFileSystem/main.c:950-973 | Changes that cluster on the disk, and every cached copy stays equal to the disk |
| FatChains.Fat32.AllocCluster | boot/DobFileSystem/main.c:1091-1124 | Takes a free cluster and links it after the given one; zero only when none is free; zeroes it if asked |
| FatChains.Fat32.AllocBatch | boot/DobFileSystem/main.c:2526-2567 | Takes distinct free clusters and links them in a row; stops short only when none is free |
| FatChains.Fat32.FreeChain | boot/DobFileSystem/main.c:1127-1136 | Ends on any table whose links are in range, cyclic ones included; on a chain it frees exactly that chain |
| FatChains.ForestExtended | boot/DobFileSystem/main.c:2541-2545 | A batch linked to a chain extends that chain and keeps all chains disjoint, acyclic and ended |
| FatChains.ForestInRange | boot/DobFileSystem/main.c:1127-1136 | In a table of disjoint chains, links stay in range exactly when those of orphans, reserved entries and padding do |
| FatAllocation.RunAllocator | boot/DobFileSystem/main.c:2526-2632 | Over any run of single and batch allocation, growth for a file to any length and freeing, the table stays a set of disjoint ended chains; each operation changes its own chain, takes only free clusters, and falls short of its 32-bit count only when none is left |
| FatFiles.SeekCursor | boot/DobFileSystem/main.c:2468-2521 | From the cursor or any waypoint the seek reaches the cluster with that number, or reports exactly that there is none |
| FatFiles.FillRead | boot/DobFileSystem/main.c:2702-2750 | Fills the buffer with the file's bytes around the offset; fails exactly when the 32-bit rounding leaves no bytes |
| FatFiles.ReadFd | boot/DobFileSystem/main.c:3001-3047 | Delivers a span of the flat file that depends on offset, length and size alone, not on buffer, cursor or waypoints |
| FatFiles.ReadsTheFile | boot/DobFileSystem/main.c:2712-2721 | That span is the file's bytes if and only if the read starts in a cluster the rounding does not lose, or there is nothing to deliver |
| FatFiles.LargestFileUnreadable | boot/DobFileSystem/main.c:2716-2721 | A file of 2^32 - 1 bytes delivers nothing at its start |
| FatFiles.SeekFd | boot/DobFileSystem/main.c:3299-3349 | Goes to the distance from the start, from where the handle was or from the size of the file, as the caller says; rejects exactly the negative 64-bit targets and clamps the rest to the size |
| FatFiles.TargetExact | boot/DobFileSystem/main.c:3309-3320 | In 64-bit arithmetic the target is the distance from the start, the position plus the distance, or the size plus the distance below 2^63, and negative, hence refused, from there on |
| FatFiles.RunFd | boot/DobFileSystem/main.c:2976-3350 | Any interleaving of reads and seeks gives the bytes and positions of a flat file with a cursor |
| FatFiles.SeekNowhere | boot/DobFileSystem/main.c:3309-3320 | In any run a seek of 0 from the current position changes nothing |
| FatFiles.SeekAndRead | boot/DobFileSystem/main.c:2976-3350 | A seek to k from the start and a read of n deliver bytes k to k + n |
| FatFiles.SeekBackAndRead | boot/DobFileSystem/main.c:2976-3350 | A seek of -n from the end and a read of n deliver the last n bytes |
| FatFiles.ReadsInOrder | boot/DobFileSystem/main.c:2976-3050 | Reads one after the other deliver one piece of the file |
| FatWrite.EnsureClusters | boot/DobFileSystem/main.c:2571-2632 | Only free clusters are linked, only to this file's chain; succeeds exactly when the end is 0 in 32 bits or the chain has the clusters the 32-bit rounding asks for, fails only when no cluster is free; the remembered length and last cluster stay exact |
| FatWrite.NeededExact | boot/DobFileSystem/main.c:2575 | The clusters asked for hold the bytes if and only if the end plus a cluster is at most 2^32 |
| FatWrite.FlushWrite | boot/DobFileSystem/main.c:2635-2689 | Succeeds exactly when the device refuses fewer than five times, and then the cluster holds the staged bytes; otherwise nothing has changed and they stay staged |
| FatWrite.WriteFd | boot/DobFileSystem/main.c:3084-3153 | What was taken is appended to the stream; no space exactly when the chain with every free cluster is too short; an error only from a device that refuses for good, with the size as it was |
| FatAppend.AppendAll | boot/DobFileSystem/main.c:3084-3153 | Writes from any cursor, aligned or not, and the last flush: the chain holds what it held with every block of the stream landed at the first byte of its cluster; up to 4 GiB that is the whole stream in one piece from the start of the cursor's cluster |
| FatAppend.InPlaceExactly | boot/DobFileSystem/main.c:2649-2655 | The bytes land where the cursor stands, for every content, if and only if the cursor is at the start of a cluster |
| FatAppend.AppendReplaces | boot/DobFileSystem/main.c:2931 | A byte appended to a file of one byte replaces it |
| FatAppend.WrapsToFront | boot/DobFileSystem/main.c:2639 | The bytes of a stream past 4 GiB land on those at the start of the file |
| FatAppend.AcknowledgedUnbacked | boot/DobFileSystem/main.c:3084-3153 | Less than a cluster below 4 GiB a write is acknowledged and counted for the size, although the chain gets no cluster for it and no flush can store it |
| FatClose.CloseFd | boot/DobFileSystem/main.c:3179-3253 | The entry is repointed, and the old content freed, exactly when the last store and the update succeed; trimming keeps exactly the clusters the size needs |
| FatClose.SaveFile | boot/DobFileSystem/main.c:2896-3253 | Open, writes that may each fail, close. A file with content ends wholly new, with the content on the disk and the old clusters free, exactly when the last store and the update succeed, and else wholly old. The entry of a file without content is committed, if the update succeeds, as soon as it has clusters, the last store failed or not. Every other chain keeps its links and data |
| FatClose.HalfStoredContent | boot/DobFileSystem/main.c:3239-3244 | After a failed last store the chain holds the content if and only if that ends before the byte the store began at, or the disk happened to hold the rest |
| FatClose.NewFileTorn | boot/DobFileSystem/main.c:3239-3244 | A save of one byte whose entry says so while its cluster holds another byte |
| FatClose.ContentIsAcknowledged | boot/DobFileSystem/main.c:3116-3153 | The saved content is the concatenation of the payloads acknowledged if and only if no write succeeded after one that failed half way |
| FatClose.RetryRepeats | boot/DobFileSystem/main.c:3126-3138 | A failed write repeated leaves what it took twice |
| FatSaved.TakenInOrder | boot/DobFileSystem/main.c:3084-3153 | What a write took lands right behind what the writes before it took |
| FatSaved.WholePayloads | boot/DobFileSystem/main.c:3084-3153 | Writes that succeed leave their payloads one behind the other |
| FatSaved.SaveThenRead | boot/DobFileSystem/main.c:2896-3350 | Save, open the name again, read and seek in any order: the reader sees wholly what the save left or wholly the old bytes; with content before, the new exactly when the last store and the update succeeded |
| FatNames.ShortNameShown | boot/DobFileSystem/main.c:1141-1213 | A name in 8.3 form comes back in lower case if and only if it does not end with a dot |
| FatNames.TrailingDotLost | boot/DobFileSystem/main.c:1141-1213 | A name that ends with a dot and loses it |
| FatLaws.ShortExactly | boot/DobFileSystem/main.c:1398-1452 | A name gets no long-name slots if and only if it is 1 to 8 characters, or those, a dot and up to 3 more, all of them characters of 8.3 names |
| FatLaws.ShortFormIs | boot/DobFileSystem/main.c:1173-1213 | The 8.3 form byte by byte: upper case, name in 0 to 7, extension in 8 to 10, blanks |
| FatLaws.EntryFields | boot/DobFileSystem/main.c:100-116 | Attributes, first cluster and size of an entry at their bytes |
| FatNames.BuildLfn | boot/DobFileSystem/main.c:1553-1606 | Every byte of a long-name slot: order, mark, checksum and the thirteen characters at bytes 1, 3, 5, 7, 9, 14 to 24 and 28, 30 |
| FatNames.ShortChecksumDetects | boot/DobFileSystem/main.c:1218-1226 | Short names that differ in one byte have different checksums |
| FatNames.LongNameComesBack | boot/DobFileSystem/main.c:1218-1335 | A long name spread over slots comes back byte for byte up to its 260th byte |
| FatSlots.SlotsInserted | boot/DobFileSystem/main.c:1677-1692 | Slots of a new entry written into free slots add exactly that entry |
| FatSlots.SlotsRemoved | boot/DobFileSystem/main.c:1763-1778 | Marking an entry's slots deleted removes exactly that entry |
| FatSlots.SlotUpdated | boot/DobFileSystem/main.c:1792-1798 | Another entry with the same name and attributes in its slot changes that item alone |
| FatSlots.SingleSlotListed | boot/DobFileSystem/main.c:1290-1295 | A one-slot entry is listed if and only if its first byte is not the mark of a deleted slot |
| FatDirectory.ScanCluster | boot/DobFileSystem/main.c:1278-1329 | The scan of a cluster, with its long-name state, finds the first listed entry of that name, case apart |
| FatLaws.SameLowerExactly | boot/DobFileSystem/main.c:1348-1376 | Names are the same if and only if they differ in the case of ASCII letters at most |
| FatLaws.CommandsEitherCase | boot/DobFileSystem/main.c:1348-1376 | Every command has the same outcome whatever the case of its name |
| FatSlots.SlotsTear | boot/DobFileSystem/main.c:1290-1311 | Long-name slots whose own 8.3 slot reads as deleted leave a cluster untidy |
| FatSlots.SlotsCut | boot/DobFileSystem/main.c:1695-1743 | A cluster filled with the long-name slots of a longer entry is untidy and lists nothing |
| FatDirOps.AddEntry | boot/DobFileSystem/main.c:1640-1746 | For names of any length and any cluster size: fails exactly when no cluster has the room and none is free, which for a name with more slots than a cluster means that none is free. Otherwise it adds exactly one listed entry with that name, cluster, size and attributes, all else listed as before; nothing is listed exactly when the slots exceed a cluster or the 8.3 slot reads as deleted; the directory is untidy exactly when the slots exceed a cluster or long-name slots precede a slot that reads as deleted |
| FatDirOps.RemoveEntry | boot/DobFileSystem/main.c:1753-1781 | Removes exactly the entry at that slot, with its own long-name slots |
| FatDirOps.UpdateEntry | boot/DobFileSystem/main.c:1785-1801 | Changes that entry's size and first cluster alone |
| FatDirMap.FoundAgain | boot/DobFileSystem/main.c:1348-1376 | A name added is found under itself if and only if it has long-name slots and at most 260 bytes, or no long-name slots and no dot at its end |
| FatDirMap.IdeographHidden | boot/DobFileSystem/main.c:1643-1660 | A name that is never listed, and one that leaves stray long-name slots |
| FatDirMap.LongNameOverlong | boot/DobFileSystem/main.c:1643-1743 | In 512-byte clusters a long name has more slots than a cluster from 196 bytes on |
| FatDirMap.LongNamesAlike | boot/DobFileSystem/main.c:1303-1311 | Two names of more than 260 bytes are listed alike, and neither is found again |
| FatDirMap.SpoilsUnfit | boot/DobFileSystem/main.c:1643-1660 | A fresh name spoils a directory only if its form is unfit: it exceeds a cluster, leaves stray slots, is longer than 260 bytes or ends with a dot in 8.3 form |
| FatDirMap.DotDoubles | boot/DobFileSystem/main.c:1141-1213 | A name ending with a dot that becomes the second entry of its name |
| FatDirMap.MoveName | boot/DobFileSystem/main.c:3636-3675 | For names of any length: the outcome of a rename is the one its state determines, losing the entry included; the map changes accordingly, and stays a map exactly when the name stored did not spoil the directory |
| FatDirMap.LostIsLonger | boot/DobFileSystem/main.c:3658-3671 | An entry is lost only when both names need more slots than it had |
| FatMoves.MoveAcross | boot/DobFileSystem/main.c:3636-3675 | A rename to another directory: the record leaves the one map and is bound in the other with its attributes, first cluster and size; refused, put back or lost exactly when; chains apart from both directories keep their links and data |
| FatMoves.UnlinkName | boot/DobFileSystem/main.c:3566-3596 | Unlinking a file frees exactly its clusters and takes out exactly its name; nothing else changes |
| FatDirMap.RunDir | boot/DobFileSystem/main.c:1229-1801 | Over any run of lookups, additions, removals, updates and renames, names of any length included, the directory is a finite map, each outcome is a function of the state before the command, and every other chain of the volume keeps its links and data; at the end it is a map if and only if the last command did not store a name that spoils it |
| FatDirLaws.Undisturbed | boot/DobFileSystem/main.c:1229-1801 | In any run a name keeps its record, or keeps having none, until a command is about it |
| FatDirLaws.MadeIsFound | boot/DobFileSystem/main.c:1640-1746 | What was made is found, in either case, with the attributes, first cluster and size it was made with |
| FatDirLaws.DeletedIsMissing | boot/DobFileSystem/main.c:1753-1781 | What was deleted is not found |
| FatDirLaws.ChangedIsFound | boot/DobFileSystem/main.c:1785-1801 | What was changed is found with the new size and first cluster and all else as it was |
| FatDirLaws.MovedIsFound | boot/DobFileSystem/main.c:3636-3675 | What was moved is found under the new name with all it had, and not under the old one |
| FatDirLaws.UnmovedIsFound | boot/DobFileSystem/main.c:3658-3671 | After a move that was put back or refused the old name has what it had; after one that lost the entry it has nothing |
| FatLost.RenameLoses | boot/DobFileSystem/main.c:3658-3671 | A well-formed full directory on a full volume where a rename leaves neither the old name nor the new one |
| Registry.QuietMeansServed | kernel/registry.c:304-309 | With nobody draining a bound name, nobody waits or is parked under it |
| Registry.Registry.Register | kernel/registry.c:193-243 | Exactly which results when. The registry is a map from names to port and owner: a success binds this name to this port and owner and keeps every other binding, anything else keeps them all; on success the call goes on to drain |
| Registry.Registry.Unregister | kernel/registry.c:245-260 | Takes out this name if its owner asks, and no other binding |
| Registry.BindingStays | kernel/registry.c:193-456 | In every interleaving a bound name keeps its port and owner until it is registered again, unregistered by its owner or cleaned up with its owner |
| Registry.OnlyRegistered | kernel/registry.c:193-243 | A name gets a binding only by registering it, and that binding |
| Registry.RunRegistry | kernel/registry.c:69-456 | In every interleaving of lock sections of registrations, waits, parkings, removals and cleanups: names are unique, each step changes the map from names to port and owner in its own key alone, no wakeup is lost, no parked thread is started twice |
| Registry.FinishDrain | kernel/registry.c:160-191 | A draining registration empties the lists of its name in finitely many rounds of its own, whatever other calls do between, as long as the name stays bound |
| TextLines.RebuildLines | libdobui/textbox.c:498-527 | The rebuilt index is exactly 0 and the positions after each newline |
| TextLines.IndexUnique | libdobui/textbox.c:664-684 | There is only one such index, so one that was shifted equals one rebuilt |
| TextLines.LineOf | libdobui/textbox.c:704-723 | The binary search gives the line of an offset, that is the number of newlines before it |
| TextLines.LineStartLinear | libdobui/textbox.c:686-702 | For lines that are not negative the scan gives the start that the index gives |
| TextWrap.RebuildWrap | libdobui/textbox.c:556-604 | The rows fold every line at the width, and no more are written than were reserved |
| TextWrap.RowsPartition | libdobui/textbox.c:556-604 | Every character is in exactly one row, or is the newline behind exactly one |
| TextWrap.RowOf | libdobui/textbox.c:632-647 | The binary search gives the row that holds an offset |
| TextWrap.EnsureVisible | libdobui/textbox.c:777-794 | The row ends on the screen with the scroll in range, and nothing scrolls if it was |
| TextBox.MultiText.OnKey | libdobui/textbox.c:1253-1396 | What each key does to text, cursor and selection, up and down through the folded rows included; the index is shifted or dropped and stays exact |
| TextBox.MultiText.Paste | libdobui/textbox_clip.c:120-164 | The selection is replaced by the clip, the cursor ends behind it |
| TextBox.MultiText.SetWordWrap | libdobui/textbox.c:927-934 | Text, cursor and selection stay; when the setting changes the cursor's row is on screen |
| TextBox.MultiText.SetSize | libdobui/textbox.c:854-867 | A filling box takes the window's size, bounded below, and forgets its caches only if it changed |
| TextBox.RunEvents | libdobui/textbox.c:498-1543 | After any run of keys, cuts, pastes, clears, new texts, new window sizes and switches of word wrap, text, cursor and selection are what the events say, with rows folded as the box is at that moment, and a clean line or wrap index is exact |
| TextLaws.TypingInserts | libdobui/textbox.c:1253-1396 | In any run, pressing the characters of w one by one at cursor c without a selection gives text[..c] + w + text[c..] with the cursor at c + length of w |
| TextLaws.InputReplaces | libdobui/textbox.c:1253-1396 | With a selection the input takes its place and the cursor ends behind it |
| TextLaws.PastingIsTyping | libdobui/textbox_clip.c:120-164 | Pasting w and typing it give the same view |
| TextLaws.KeysDelete | libdobui/textbox.c:1253-1396 | Backspace and delete take out the character before and after the cursor, or the selection |
| TextLaws.BackspaceUndoes | libdobui/textbox.c:1253-1396 | A character and a backspace give back text and cursor |
| TextLaws.CutAndPaste | libdobui/textbox_clip.c:111-164 | Cutting the selection and pasting it back gives the text as it was |
| TextLaws.KeysMove | libdobui/textbox.c:1253-1396 | The arrow keys move by one character or to the edge of the selection, Ctrl+A selects all |
| TextLaws.HomeAndEnd | libdobui/textbox.c:1253-1396 | Home and end go to the start and the end of the line |
| TextLaws.UpALine | libdobui/textbox.c:1253-1396 | Up goes to the same column of the line above, or to its end |
| TextLaws.DownALine | libdobui/textbox.c:1253-1396 | Down goes to the same column of the line below, or to its end |
| Raster.EmitLine | libdobui/graph.c:43-60 | For all end points, in unbounded arithmetic, it stops at the second after max(dx, dy) + 1 pixels, each a neighbour of the one before and within half a pixel of the ideal line; every value computed lies between the bounds for the two distances |
| Raster.NearLineIs | libdobui/graph.c:43-60 | Within half a pixel means in the box of the end points, and with a cross product of at most half the longer distance |
| Raster.NothingOverflows | libdobui/graph.c:43-60 | A line whose bounds fit 32 bits is drawn without overflow of any value or coordinate |
| Raster.AxisOverflows | libdobui/graph.c:43-60 | A horizontal or vertical line overflows if and only if its ends are 2^30 columns or more, or more than 2^30 rows, apart |
| Raster.FarOverflows | libdobui/graph.c:46-50 | Any line overflows whose distances differ by that much, one across the whole range among them |

## Left out

exFAT:

- I/O failures inside exFAT operations, volumes with more than one FAT (TexFAT), 4-byte UTF-8 sequences and
  case folding beyond ASCII: the code documents them as partial.
- New names that are not well-formed UTF-8 are excluded from create and rename.
- Directories are FAT-chained, as this code creates them, and one handle is open per file.
- The entry index in a directory and the cluster count of a directory are unbounded, not 32 bits wide.
- `Geometry.Valid` keeps every sector number inside 32 bits, as `cluster_lba512` demands; above that only
  formatting and the fields mount recovers are covered.
- A truncated entry set that mount or readdir meets on a foreign disk falls through to a checksum over bytes
  left from before; listings are specified for directories without one.
- ExfatFile.Write: when the cluster count wraps, the request is not refused and the chain is a contiguous run
  or does not end at its last link, nothing is promised of the bytes on the disk; `Run` does not issue such an
  operation.
- ExfatCommands.RunCommands: with 512-byte clusters the run ends at the first command that finds no room,
  torn or not.
- ExfatRename.Rename: the target must not lie inside the directory moved, which the code does not check; what
  such a move does to the tree is stated, what it does to the sectors is not.

FAT32:

- Table words are words of the cache, not bytes of its sectors; device errors occur on cluster stores of open
  files and on the directory update of a close, not elsewhere.
- FatTable.RunFat: clusters lie inside the table; the guard at `main.c:994` rejects whole windows only.
- FatWrite.WriteFd: saves start at offset 0, and a write that would pass 2^32 bytes less one cluster is not
  issued in them; writes past that and from other positions are those of `FatAppend`.
- Staged writes are not interleaved with reads or seeks on the same handle; one handle is open per file.
- FatClose.CloseFd: that a directory update succeeds is a parameter, and an update that fails changes nothing.
- FatFiles.SeekFd: only read-only handles seek.
- FatDirOps.AddEntry: of the generated 8.3 form only the first byte is specified: its uniqueness is not claimed.
- FatDirMap.RunDir: the run ends after a command that stored an unfit name, and is about one directory;
  `FatMoves` has moves between two and the removal of a file with its clusters.
- FatMoves.UnlinkName: the test that a directory is empty is not part of it.
- Remount, formatting FAT32 and reclaiming orphans reset the state the invariants describe.

The rest:

- Registry: names are strings compared whole, without the hash prefilter and the 63-byte cut; what becomes of
  a waiter's stack after a timeout, and the scheduler, are outside.
- TextBox: mouse events, drawing, focus and a failing `realloc` are left out.
- Paths through the permission checks, IPC transport and disk discovery are not part of this model.
