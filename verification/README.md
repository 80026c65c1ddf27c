# System/1 in Dafny

A model of the stateful services of the System/1 kernel and proofs about them.
Each C component that changes things step by step is modelled by classes and
loops over the same data (sectors, bitmaps, linked headers, tables) and proved
to compute a function on a simple abstract state; what the component promises is
then proved about that state, for all inputs and over whole runs.

- **FAT12 driver** (`Fat12*.dfy`). `Fat12Layout` packs 12-bit table entries;
  `Fat12Journal` turns byte updates into updates of an abstract volume (table and
  clusters); `Fat12Chain` and `Fat12Sound` define consistency of chains, entries
  and directories, with a `Catalog` as its witness; `Fat12Ops`, `Fat12Keeps`,
  `Fat12Write`, `Fat12Room` (when there is room), `Fat12Tree` (where paths lead
  afterwards) and `Fat12Run` say what each command does and prove that every run
  keeps the volume consistent; `Fat12Device`, `Fat12Names` and
  `Fat12Commands` are the code on a block device, `Fat12Image` and `Fat12Twins`
  the code on an in-memory image and the byte-for-byte agreement of the two;
  `Fat12Limits` has the exact conditions where the code does not keep the
  volume consistent, `Fat12Witness` an input for each; `Fat12Format` ties the model
  to the bytes on disk and paths to entries, `Fat12Order` has the order of
  updates; `Fat12Display`, `Fat12Reader`, `Fat12Files` and `Fat12Handles` are lookup by display name, reading, and writing through a handle.
- **Memory manager** (`Mm*.dfy`): page bitmap, heap blocks as a list, whole runs,
  and the doubly linked headers in memory.
- **Descriptors, processes, redirection** (`Fd*.dfy`).
- **RAM file system** (`RamTree`, `RamPaths`, `RamData`, `Ramfs`), **paths** (`Paths`,
  `PathNorm`), name matching (`NameMatch`), **floppy cache** (`FloppyCache`).
- **Loaders**: executables (`Sprg`), the first stack (`UserStack`), driver
  modules (`Modules`), and the files the build makes for them (`Packing`).
  **Keyboard ring** (`KeyRing`).

A FAT12 volume is assumed to fit its device: fewer than 4085 clusters, tables long
enough for an entry of each, and all of them inside the device (`Geometry.Ok`).

`dafny verify dfyconfig.toml` verifies the project.

Five results are about code that does not keep what it promises on every input.
For each there is an input that shows it, and the exact condition, on the state
before the call, for which it does. A FAT12 name that starts with byte 0xE5, once
created, reads as deleted (`MkdirExact`, `WriteExact`, `RunExact`; `MkdirWitness`,
`WriteWitness`). The image writer leaves an entry pointing at freed clusters when
the image runs full (`ImageWriteExact`, `ImageWitness`). A FAT12 handle is out of
date after a write that found the volume full (`OpenFile.Write`, `HandleWitness`).
An allocation of almost 4 GB wraps around and is answered with a pointer
(`PointerExact`, `WrapWitness`). A memory region that reaches 4 GiB is not used at
all (`RegionExact`, `RegionWitness`).

## Model

| member | source | states |
|---|---|---|
| `Fat12Layout.ParseBpb` | src/kernel/core/fs/fat12_core.c:264-290 | Each field is at its byte offset of the boot sector; a sector is refused exactly when it does not say 512 bytes per sector or a field is zero that the geometry computation divides by or relies on. |
| `Fat12Layout.GeometryOf` | src/kernel/core/fs/fat12_core.c:749-762 | The root directory takes the sectors its entries need, and the data clusters are as many as fit between it and the end of the device. |
| `Fat12Layout.PackUnpack` | src/kernel/core/fs/fat12_core.c:805-867 | Storing a 12-bit entry and reading any entry back gives the value mod 4096 at that cluster and the old value everywhere else, for odd and even clusters. |
| `Fat12Layout.PackCopiesUnpack` | src/kernel/core/fs/fat12_core.c:805-867 | The same in every table copy: copies already written give the new value, all other entries of all copies are unchanged. |
| `Fat12Layout.PackCopiesOutside` | src/kernel/core/fs/fat12_core.c:805-867 | No byte outside the tables changes. |
| `Fat12Format.TablePair` | src/kernel/core/fs/fat12_core.c:805-867 | Three table bytes hold two entries: the lower one is the first byte and the low half of the second, the upper one the high half of the second and the third. |
| `Fat12Format.FloppyMounts` | src/kernel/core/fs/fat12_core.c:264-290 | From the boot record of a 1.44 MB floppy device and image code both find the standard layout. |
| `Fat12Format.FloppyLayout` | src/kernel/core/fs/fat12_core.c:302-308 | In that layout the tables are at sectors 1 and 10, the root directory at 19 and the clusters from 33 to the last sector. |
| `Fat12Format.EntryBytes` | src/kernel/core/fs/fat12_core.c:732-747 | The bytes of an entry the driver writes: name, attribute, zeros, first cluster and size, the low byte first. |
| `Fat12Format.EntryFields` | src/kernel/core/fs/fat12_core.c:869-990 | What the driver takes from the bytes of any entry: name, first cluster, size, the directory bit, and when an entry names something. |
| `Fat12Format.DotNames` | src/kernel/core/fs/fat12_core.c:1187-1262 | The dot entries are named by one and two dots, padded; the attribute written for directories is the directory bit. |
| `Fat12Device.GetFatEntry` | src/kernel/core/fs/fat12_core.c:764-803 | Reading one or two sectors gives the packed entry, also when it straddles a sector border; fat12_get_next_cluster (1743-1774) reads the same value. |
| `Fat12Device.SetFatCopy` | src/kernel/core/fs/fat12_core.c:814-863 | Patching one or two sectors is exactly the byte-level store in that table copy. |
| `Fat12Device.SetFatEntry` | src/kernel/core/fs/fat12_core.c:805-867 | All table copies get the entry; nothing else on the device changes. |
| `Fat12Image.GetEntry` | src/kernel/core/fs/fat12_core.c:328-340 | The in-memory reader returns the entry of the first table copy. |
| `Fat12Image.SetEntry` | src/kernel/core/fs/fat12_core.c:342-358 | The in-memory writer makes the same byte changes as the device writer. |
| `Fat12Journal.ViewRun` | src/kernel/core/fs/fat12_core.c:1187-1437 | The abstract volume (table and clusters) after a journal of updates to the bytes is the same journal run on the abstract volume. |
| `Fat12Journal.RunKeepsBoot` | src/kernel/core/fs/fat12_core.c:1187-1437 | No update reaches the boot sector. |
| `Fat12Journal.MirrorsStay` | src/kernel/core/fs/fat12_core.c:805-867 | Copies of the table that agree go on agreeing over any run of updates. |
| `Fat12Chain.FreeExactlyReachable` | src/kernel/core/fs/fat12_core.c:1170-1185 | For every table whose links stay inside it, cyclic or already-free chains included, freeing clears exactly the clusters reachable from the start and leaves every other entry alone. |
| `Fat12Chain.FreeOpsRun` | src/kernel/core/fs/fat12_core.c:1170-1185 | The journal of the freeing loop, whose termination measure is the number of used entries, produces that table. |
| `Fat12Chain.ChainAcyclic` | src/kernel/core/fs/fat12_core.c:1138-1369 | A chain that ends in an end mark never visits a cluster twice. |
| `Fat12Chain.ReleaseKeeps` | src/kernel/core/fs/fat12_core.c:1170-1185 | Freeing a whole chain keeps the others, and the set of used clusters is the old one without it. |
| `Fat12Chain.ExtendKeeps` | src/kernel/core/fs/fat12_core.c:1138-1168 | Adding the lowest free cluster to a chain keeps every chain, and each used cluster has exactly one owner. |
| `Fat12Device.AllocCluster` | src/kernel/core/fs/fat12_core.c:1138-1168 | The lowest free cluster is marked as an end of chain and cleared; 0 and no change exactly when none is free. |
| `Fat12Device.FreeClusterChain` | src/kernel/core/fs/fat12_core.c:1170-1185 | The device loop terminates on every table with links inside it and makes exactly the updates of the freeing journal. |
| `Fat12Image.TakeCluster` | src/kernel/core/fs/fat12_core.c:697-722 | The image allocator makes the same updates as the device allocator. |
| `Fat12Image.ReleaseChain` | src/kernel/core/fs/fat12_core.c:724-730 | The image freeing loop makes the same updates as the device loop. |
| `Fat12Names.MakeDirName` | src/kernel/core/fs/fat12_core.c:360-388 | The copying loop yields the upper-cased, space-padded name, or fails exactly on empty, too long, dotted or slashed names. |
| `Fat12Names.MakeFileName` | src/kernel/core/fs/fat12_core.c:390-438 | The same for names with one extension. |
| `Fat12Names.SplitCreatePath` | src/kernel/core/fs/fat12_core.c:440-483 | The scan for the last slash splits a path into directory and last component, with every length limit. |
| `Fat12Format.FileNameMeans` | src/kernel/core/fs/fat12_core.c:390-438 | A file name has an 8.3 form if and only if it is a base of one to eight bytes, alone or with a dot and an extension of one to three, without further dots and slashes. |
| `Fat12Format.FileNameBytes` | src/kernel/core/fs/fat12_core.c:390-438 | That form is base and extension in upper case, padded with spaces. |
| `Fat12Format.DirNameMeans` | src/kernel/core/fs/fat12_core.c:360-388 | Directory names are the file names without a dot. |
| `Fat12Format.UpperMeans` | src/kernel/core/fs/fat12_core.c:360-438 | Letters a to z become A to Z in stored names. |
| `Fat12Format.SplitPathJoin` | src/kernel/core/fs/fat12_core.c:440-483 | A directory path, a slash and a name split into exactly these, or not at all if path or name is too long. |
| `Fat12Format.SplitPathNot` | src/kernel/core/fs/fat12_core.c:440-483 | Relative paths and paths that end in a slash do not split. |
| `Fat12Ops.SplitPath` | src/kernel/core/fs/fat12_core.c:440-483 | The components of the path are those of the directory part followed by the last component. |
| `Fat12Lookup.SearchFinds` | src/kernel/core/fs/fat12_core.c:869-990 | Looking an 8.3 name up in a consistent directory finds a slot exactly when it is the one entry of that directory with that name. |
| `Fat12Lookup.VacantFinds` | src/kernel/core/fs/fat12_core.c:1047-1107 | The first vacant slot belongs to the directory, and every slot before it in the directory is in use or deleted. |
| `Fat12Lookup.VacantFirst` | src/kernel/core/fs/fat12_core.c:1047-1107 | The slot found is the first of the directory that is deleted or was never used; none is found if and only if there is none. |
| `Fat12Device.FindEntry` | src/kernel/core/fs/fat12_core.c:869-990 | The sector-by-sector search over root area or cluster chain returns the first match in slot order. |
| `Fat12Device.FindFreeEntry` | src/kernel/core/fs/fat12_core.c:1047-1107 | The sector-by-sector search returns the first deleted or never-used slot. |
| `Fat12Device.WriteEntry` | src/kernel/core/fs/fat12_core.c:1109-1123 | Patching the sector of a slot changes the 32 bytes of the slot only. |
| `Fat12Image.FindInDir` | src/kernel/core/fs/fat12_core.c:485-586 | The image search returns the same slot as the device search. |
| `Fat12Image.FindVacant` | src/kernel/core/fs/fat12_core.c:647-695 | The image search for a vacant slot returns the same slot as the device search. |
| `Fat12Commands.ResolveDir` | src/kernel/core/fs/fat12_core.c:992-1045 | Following the components of a path through directories by 8.3 name, with each failure code. |
| `Fat12Twins.ResolveDirInImage` | src/kernel/core/fs/fat12_core.c:588-645 | The image version reaches the same directory with the same codes. |
| `Fat12Format.ResolveName` | src/kernel/core/fs/fat12_core.c:992-1045 | One name leads into the directory entry of that name, to NOT_DIR if the entry is a file, to NOT_FOUND if there is none, and to INVALID if it has no 8.3 form or is too long. |
| `Fat12Format.ResolveSnoc` | src/kernel/core/fs/fat12_core.c:992-1045 | A path is followed name by name; the first failure is its answer. |
| `Fat12Format.FileTargetMeans` | src/kernel/core/fs/fat12_core.c:1394-1409 | What a path leads to is the entry of its last name in the directory its other names lead to, with the code of whatever is in the way. |
| `Fat12Format.DirTargetMeans` | src/kernel/core/fs/fat12_core.c:2434-2459 | The same for paths to directories. |
| `Fat12Commands.DirIsEmpty` | src/kernel/core/fs/fat12_core.c:2460-2485 | The directory is reported empty exactly when none of its slots names anything but itself and its parent. |
| `Fat12Run.UnlinkKeeps` | src/kernel/core/fs/fat12_core.c:1371-1437 | Unlinking keeps the volume consistent, whatever it returns; on success the path leads nowhere, every other file keeps its entry and bytes, and every path to anything else leads where it led. |
| `Fat12Run.RmdirKeeps` | src/kernel/core/fs/fat12_core.c:2434-2491 | Removing a directory keeps the volume consistent, whatever it returns; on success the path leads nowhere, and every file and every path to anything else is as before. |
| `Fat12Run.MkdirKeeps` | src/kernel/core/fs/fat12_core.c:1187-1262 | Creating a directory keeps the volume consistent, whatever it returns, unless it stores a name that reads as deleted; on success the path leads to an entry of that name in the first vacant slot and to the lowest free cluster, which holds an entry for itself, one for the directory above and never-used slots, and everything else is as before. |
| `Fat12Room.GrowFull` | src/kernel/core/fs/fat12_core.c:1326-1366 | Growing a chain runs full if and only if the data is longer than the free clusters of the volume hold. |
| `Fat12Room.FreedRoom` | src/kernel/core/fs/fat12_core.c:1170-1185 | Freeing a file adds exactly the clusters of its chain to the free ones. |
| `Fat12Room.MkdirAnswers` | src/kernel/core/fs/fat12_core.c:1187-1262 | The code of create-dir from what a caller can look up: what the path leads to, a vacant slot, a free cluster. |
| `Fat12Room.UnlinkAnswers` | src/kernel/core/fs/fat12_core.c:1371-1437 | Unlinking succeeds if and only if the path leads to a file; the code for everything else. |
| `Fat12Room.RmdirAnswers` | src/kernel/core/fs/fat12_core.c:2434-2491 | Removing a directory succeeds if and only if the path leads to a directory none of whose slots names anything; the code for everything else. |
| `Fat12Order.UnlinkOrder` | src/kernel/core/fs/fat12_core.c:1414-1433 | Wherever the updates of unlink stop, every entry that still names something heads its whole chain: no live file points at freed clusters. |
| `Fat12Order.RmdirOrder` | src/kernel/core/fs/fat12_core.c:2434-2491 | The same for removing a directory. |
| `Fat12Order.FreePrefix` | src/kernel/core/fs/fat12_core.c:1170-1185 | Freeing a chain, wherever it stops, has changed table entries of that chain only. |
| `Fat12Room.WriteAnswers` | src/kernel/core/fs/fat12_core.c:1264-1369 | Write-file succeeds if and only if the path leads to a file and the data fits the free clusters and those of the file, or it is new, a slot is vacant and the data fits the free clusters; every other code likewise. |
| `Fat12Tree.PathsKept` | src/kernel/core/fs/fat12_core.c:992-1045 | If every directory but an empty one, and every slot but its entry, is as before, every path that leads anywhere else still leads there. |
| `Fat12Tree.TargetsSame` | src/kernel/core/fs/fat12_core.c:992-1045 | If only one slot changed and kept its name and kind, every path leads where it led, to a file, to a directory or nowhere. |
| `Fat12Ops.GrowKeeps` | src/kernel/core/fs/fat12_core.c:1326-1366 | Growing a chain cluster by cluster keeps every other file and directory, also when it stops on a full volume. |
| `Fat12Ops.GrowReads` | src/kernel/core/fs/fat12_core.c:1326-1366 | The grown chain holds exactly the data, in just as many clusters as it needs. |
| `Fat12Write.FillKeeps` | src/kernel/core/fs/fat12_core.c:1326-1369 | A successful fill stores the name, the size and the bytes; every other file keeps entry and bytes. |
| `Fat12Write.FillFull` | src/kernel/core/fs/fat12_core.c:1331-1339 | When the volume runs full the new chain is freed and an existing entry is reset to length 0; the volume is consistent again. |
| `Fat12Run.WriteKeeps` | src/kernel/core/fs/fat12_core.c:1264-1369 | Writing keeps the volume consistent on every return unless it stores a name that reads as deleted; on success the path leads to the slot that holds the data, on a full volume an existing file is empty; every other file keeps entry and bytes and every other path leads where it led. |
| `Fat12Run.WrittenFound` | src/kernel/core/fs/fat12_core.c:1264-1369 | Looking the written path up afterwards finds the slot written. |
| `Fat12Run.StepKeeps` | src/kernel/core/fs/fat12_core.c:1187-1437 | Every command that does not store a name that reads as deleted keeps the volume consistent. |
| `Fat12Run.RunKeeps` | src/kernel/core/fs/fat12_core.c:1138-1437 | In every state reached from a consistent volume by any run of such create-dir, write-file, unlink and rmdir commands, failing ones included, the volume is consistent. |
| `Fat12Run.SoundMeans` | src/kernel/core/fs/fat12_core.c:1138-1437 | Consistency means: chains end in an end mark, stay in range and are pairwise disjoint; a cluster is in use exactly when it lies on one of them; each file's chain is just long enough for its size; directory entries head their chains. |
| `Fat12Commands.GrowChain` | src/kernel/core/fs/fat12_core.c:1326-1366 | The device loop makes exactly the updates of growing a chain. |
| `Fat12Commands.UnlinkOnDevice` | src/kernel/core/fs/fat12_core.c:1371-1437 | The device operation makes exactly the updates of unlink and answers by what the path leads to: its error, NOT_FOUND, IS_DIR for a directory, success for every file; the device stays mounted and consistent. |
| `Fat12Commands.RmdirOnDevice` | src/kernel/core/fs/fat12_core.c:2434-2491 | The same for rmdir: NOT_DIR for a file, NOT_EMPTY when a slot names something; the root and the path of the working directory are refused. |
| `Fat12Commands.CreateDirOnDevice` | src/kernel/core/fs/fat12_core.c:1187-1262 | The same for create-dir; consistent afterwards unless the name reads as deleted and could be stored. |
| `Fat12Commands.WriteFileOnDevice` | src/kernel/core/fs/fat12_core.c:1264-1369 | The same for write-file; consistent afterwards unless the name reads as deleted and was stored with data. |
| `Fat12Twins.CreateDirInImage` | src/kernel/core/fs/fat12_core.c:1527-1593 | The in-place image version makes exactly the updates of create-dir. |
| `Fat12Twins.WriteFileInImage` | src/kernel/core/fs/fat12_core.c:1595-1691 | The in-place image version, with its own order of steps, makes exactly the updates of the image writer. |
| `Fat12Twins.WritersAgree` | src/kernel/core/fs/fat12_core.c:1595-1691 | Whenever the writers succeed their journals lead to the same volume, although the device writer looks for a vacant slot before growing the chain and the image writer after. |
| `Fat12Twins.CreateDirOnBoth` | src/kernel/core/fs/fat12_core.c:1527-1593 | Started from the same bytes with the same sector total, both versions of create-dir return the same code and leave the same bytes. |
| `Fat12Twins.WriteFileOnBoth` | src/kernel/core/fs/fat12_core.c:1595-1691 | Whenever write-file succeeds, device and image end byte for byte equal. |
| `Fat12Limits.ChainUnique` | src/kernel/core/fs/fat12_core.c:1170-1185 | A chain is determined by the table and its first cluster. |
| `Fat12Limits.DanglingBreaks` | src/kernel/core/fs/fat12_core.c:1371-1437 | A volume with the tree of a consistent one but a file entry whose first cluster is free is consistent under no catalog. |
| `Fat12Limits.LeakBreaks` | src/kernel/core/fs/fat12_core.c:1138-1168 | A volume that differs from a consistent one by a cluster newly in use while at most one slot lost its entry is consistent under no catalog. |
| `Fat12Limits.UndoRestores` | src/kernel/core/fs/fat12_core.c:1331-1339 | Freeing what a failed write took gives back the table from before it. |
| `Fat12Limits.MkdirExact` | src/kernel/core/fs/fat12_core.c:1187-1262 | Create-dir keeps the volume consistent if and only if not: the name starts with byte 0xE5, which marks deleted entries, it is new, a slot is vacant and a cluster is free. |
| `Fat12Limits.WriteExact` | src/kernel/core/fs/fat12_core.c:1264-1369 | Write-file keeps the volume consistent if and only if not: the name starts with 0xE5, there is data, and there is a slot and room for it. |
| `Fat12Limits.ImageWriteExact` | src/kernel/core/fs/fat12_core.c:1640-1657 | The image writer keeps the volume consistent if and only if neither that holds nor the path leads to a file with clusters and the data does not fit the free clusters together with those of the file. |
| `Fat12Limits.StepExact` | src/kernel/core/fs/fat12_core.c:1187-1437 | Any command leaves a consistent volume if and only if it does not store a name that reads as deleted, a condition on the volume before it. |
| `Fat12Limits.RunExact` | src/kernel/core/fs/fat12_core.c:1138-1437 | Any run of commands ends in a consistent volume if and only if none of its commands does. |
| `Fat12Witness.FormattedSound` | src/kernel/core/fs/fat12_core.c:749-762 | A freshly formatted volume of any geometry is consistent. |
| `Fat12Witness.MkdirWitness` | src/kernel/core/fs/fat12_core.c:1187-1262 | On a formatted volume of one cluster create-dir of the one-byte name 0xE5 succeeds and leaves a volume consistent under no catalog. |
| `Fat12Witness.WriteWitness` | src/kernel/core/fs/fat12_core.c:1264-1369 | The same for write-file of one byte under that name. |
| `Fat12Witness.ImageWitness` | src/kernel/core/fs/fat12_core.c:1640-1657 | Once /A holds a byte there, writing 513 bytes over it in the image returns NO_SPACE and leaves a volume consistent under no catalog. |
| `Fat12Witness.HandleWitness` | src/kernel/core/fs/fat12_core.c:2344-2364 | A handle on /A that was right is wrong, whatever catalog one takes, after a write of 513 bytes that found no room. |
| `Fat12Display.NamesAgree` | src/kernel/core/fs/fat12_core.c:89-176 | A stored canonical name equals a text by display name, ignoring case, if and only if their 8.3 bytes are equal. |
| `Fat12Display.NoAlias` | src/kernel/core/fs/fat12_core.c:89-116 | A canonical name is an alias of no text. |
| `Fat12Reader.LookupsAgree` | src/kernel/core/fs/fat12_core.c:1776-1882 | On volumes without long names and `~` names a directory is searched with the same result by display name and by 8.3 bytes. |
| `Fat12Reader.LookupFollows` | src/kernel/core/fs/fat12_core.c:1884-1958 | A path the writer can follow to a directory is followed the same way by the reader. |
| `Fat12Reader.LookupAgrees` | src/kernel/core/fs/fat12_core.c:1884-1958 | The reader finds at a path the entry the writer finds there: same first cluster, kind and size. |
| `Fat12Files.FindByName` | src/kernel/core/fs/fat12_core.c:1776-1882 | The search by display name over root area or chain returns the first match in slot order. |
| `Fat12Files.ResolvePathInfo` | src/kernel/core/fs/fat12_core.c:1884-1958 | The path loop computes the lookup by display names, with every failure code. |
| `Fat12Files.CopyCluster` | src/kernel/core/fs/fat12_core.c:2244-2271 | The sector loop copies exactly the asked window of a cluster. |
| `Fat12Files.CopyChain` | src/kernel/core/fs/fat12_core.c:2226-2276 | Skipping whole clusters and copying the rest gives exactly the asked window of the chain's bytes, and the walk never meets the guard against a broken chain. |
| `Fat12Handles.ReadFile` | src/kernel/core/fs/fat12_core.c:2065-2124 | A path leads to an error code, or to all bytes of the file it names. |
| `Fat12Handles.OverwriteMeans` | src/kernel/core/fs/fat12_core.c:1264-1369 | Overwriting an existing file succeeds if and only if the data fits the free clusters and those of the file; every path leads where it led, the file holds the new bytes, or none without room, and every other file has its entry and bytes. |
| `Fat12Handles.Compose` | src/kernel/core/fs/fat12_core.c:2332-2342 | The write buffer holds the old bytes overlaid with the new ones, zeros in the gap, whatever it held before. |
| `Fat12Handles.OpenFile.constructor` | src/kernel/core/fs/fat12_core.c:2179-2189 | A handle records what the lookup found. |
| `Fat12Handles.OpenFile.Read` | src/kernel/core/fs/fat12_core.c:2194-2280 | A read at any offset with any buffer size returns that window of the file's bytes. |
| `Fat12Handles.OpenFile.Write` | src/kernel/core/fs/fat12_core.c:2282-2364 | READ_ONLY if and only if the handle was not opened for writing; an empty write changes nothing; file and data have to fit 4096 bytes. Then it succeeds if and only if the composed file fits the free clusters and those of the file, and the file holds its old bytes with the new ones spliced in and zeros in any gap; otherwise it is empty. The handle is right afterwards if and only if the write fitted or the file was empty before; every path leads where it led, every other file keeps its bytes, and every handle on another file is as right as it was. |
| `Fat12Handles.Rewrite` | src/kernel/core/fs/fat12_core.c:2344-2364 | The same on the abstract volume, including what the path lookup finds afterwards. |
| `Fat12Handles.OtherTracks` | src/kernel/core/fs/fat12_core.c:2344-2364 | A handle on another file is as right after the write as before. |
| `MmPages.PageMap.SetPageUsed` | src/kernel/core/mm/mm_core.c:92-107 | The used-page count stays the number of used bitmap entries. |
| `MmPages.PageMap.MarkRangeFree` | src/kernel/core/mm/mm_core.c:109-129 | Exactly the pages wholly inside the range and below the mapping limit become free. |
| `MmPages.PageMap.MarkRangeUsed` | src/kernel/core/mm/mm_core.c:131-151 | Exactly the pages touching the range below the mapping limit become used. |
| `MmPages.PageMap.Init` | src/kernel/core/mm/mm_core.c:389-412 | After start-up a page is free if and only if it lies wholly in a region of kind 1 of some memory map (or, without a map, above low memory) below the limit, and has no byte of low memory, the kernel, the boot information or a boot module. |
| `MmPages.WithinMeans` | src/kernel/core/mm/mm_core.c:109-129 | A page counts as inside a range if and only if each of its bytes is, and lies below the limit. |
| `MmPages.TouchedMeans` | src/kernel/core/mm/mm_core.c:131-151 | A range below the limit touches a page if and only if they share a byte. |
| `MmPages.UsableMeans` | src/kernel/core/mm/mm_core.c:165-204 | The ranges collected from the tags are exactly those pages; an undersized map ends the search, and a region that reaches 4 GiB counts for nothing. |
| `MmPages.ReservedMeans` | src/kernel/core/mm/mm_core.c:206-241 | The ranges reserved are exactly those pages; each boot module with an end behind its start is among them. |
| `MmPages.RegionExact` | src/kernel/core/mm/mm_core.c:188-197 | A page inside a region of kind 1 below the limit is taken as memory if and only if the region ends below 4 GiB. |
| `MmPages.RegionWitness` | src/kernel/core/mm/mm_core.c:188-197 | With memory from 1 MiB to 4 GiB in one region no page is taken as memory. |
| `MmPages.PageMap.CountTotal` | src/kernel/core/mm/mm_core.c:153-163 | The total equals the number of bitmap entries. |
| `MmPages.PageMap.AllocPages` | src/kernel/core/mm/mm_core.c:243-271 | The lowest run of the requested length is marked and returned; 0 if and only if there is none or the length is 0. |
| `MmPages.PageMap.FreePages` | src/kernel/core/mm/mm_core.c:273-286 | Exactly the given pages become free; null and unaligned addresses change nothing. |
| `MmBlocks.CoalesceTight` | src/kernel/core/mm/mm_core.c:338-357 | Merging after a free leaves no two touching free neighbours, and needs at most one recursive call. |
| `MmBlocks.CoalesceKeeps` | src/kernel/core/mm/mm_core.c:338-357 | Merging keeps the total bytes, the disjointness of blocks, the pages used and the set of live blocks. |
| `MmBlocks.CarveKeeps` | src/kernel/core/mm/mm_core.c:301-325 | Splitting a free block and taking its front keeps all that and adds exactly one live block, large enough. |
| `MmBlocks.ExtendKeeps` | src/kernel/core/mm/mm_core.c:359-387 | A block of fresh pages is apart from every block, adds its bytes to the total and merges with a free last block it touches. |
| `MmBlocks.ExtendIsCoalesce` | src/kernel/core/mm/mm_core.c:381-384 | The general merge there absorbs only the new block, so the previous-block address read from the absorbed header is the block returned. |
| `MmRun.MallocKeeps` | src/kernel/core/mm/mm_core.c:414-433 | An allocation keeps the heap consistent and returns 0 if and only if no free block fits and no page run exists; otherwise the block is aligned, large enough, apart from every live block, and the only change to the live ones. |
| `MmRun.FreeKeeps` | src/kernel/core/mm/mm_core.c:435-445 | A release keeps the heap consistent and takes away exactly that live block. |
| `MmRun.StepKeeps` | src/kernel/core/mm/mm_core.c:414-461 | Every call keeps the invariant; no page reserved or already given is given again. |
| `MmRun.RunKeeps` | src/kernel/core/mm/mm_core.c:288-461 | The invariant holds after any run of allocations and releases of memory and pages by clients that release only what they hold and ask for no size that wraps around. |
| `MmRun.SaneMeans` | src/kernel/core/mm/mm_core.c:414-445 | It means that a live allocation has memory of the size asked for, aligned, inside mapped memory and off every reserved or given page. |
| `MmRun.SaneApart` | src/kernel/core/mm/mm_core.c:414-445 | And that any two live allocations have disjoint memory. |
| `MmRun.HugeRefused` | src/kernel/core/mm/mm_core.c:288-299 | A request larger than the memory is refused and changes nothing. |
| `MmRun.PointerExact` | src/kernel/core/mm/mm_core.c:414-433 | With sizes computed in 32 bits the pointer returned is the right one if and only if not: the request is within 15 bytes of 4 GB and there is a free page, or, within 3 bytes, a free block to answer it with. |
| `MmRun.WrapWitness` | src/kernel/core/mm/mm_core.c:414-433 | With one free page and an empty heap a request for 4 GB less a byte, which has to be refused, is answered with a pointer. |
| `MmRun.ReservedNeverGiven` | src/kernel/core/mm/mm_core.c:206-241 | After any run no page touching low memory, the kernel, boot information or a boot module is free, given out or part of the heap. |
| `MmHeap.JoinLinked` | src/kernel/core/mm/mm_core.c:343-352 | The header writes of a merge keep the list linked both ways. |
| `MmHeap.SplitLinked` | src/kernel/core/mm/mm_core.c:309-324 | The header writes of a split keep the list linked both ways, the new header colliding with no block. |
| `MmHeap.AppendLinked` | src/kernel/core/mm/mm_core.c:368-379 | Linking a block behind the last one keeps the list linked both ways. |
| `MmHeap.DeadHeader` | src/kernel/core/mm/mm_core.c:381-384 | The header of an absorbed block is still as it was, though it is off the list. |
| `MmHeap.MemoryManager.FindFreeBlock` | src/kernel/core/mm/mm_core.c:288-299 | The walk along the list finds the first free block that fits. |
| `MmHeap.MemoryManager.SplitBlock` | src/kernel/core/mm/mm_core.c:301-325 | On headers in memory: the list becomes the split list. |
| `MmHeap.MemoryManager.CoalesceBlock` | src/kernel/core/mm/mm_core.c:338-357 | On headers in memory: the recursion ends and the list becomes the merged list; headers off the list are untouched. |
| `MmHeap.MemoryManager.GrowHeap` | src/kernel/core/mm/mm_core.c:359-387 | On headers in memory, with the page count computed in 32 bits: the list is extended by the lowest page run, and the block returned is its last. |
| `MmHeap.MemoryManager.KMalloc` | src/kernel/core/mm/mm_core.c:414-433 | The code on linked headers and bitmap, with sizes computed in 32 bits, computes the allocation and keeps the invariant for every request for which its pointer is the right one. |
| `MmHeap.MemoryManager.KFree` | src/kernel/core/mm/mm_core.c:435-445 | The code on linked headers computes the release and keeps the invariant. |
| `MmHeap.MemoryManager.HeapStats` | src/kernel/core/mm/mm_core.c:463-490 | Used and free are the bytes of the live and of the free blocks, add up with the headers to the heap total, and the largest free block is found. |
| `MmHeap.MemoryManager.AllocPage` | src/kernel/core/mm/mm_core.c:447-453 | The page given is the lowest free one, not held before, and the heap stays consistent beside it. |
| `MmHeap.MemoryManager.FreePage` | src/kernel/core/mm/mm_core.c:455-461 | Giving a held page back keeps the heap consistent. |
| `FdState.RefsSet` | src/kernel/core/posix/fd_core.c:128-188 | Changing one descriptor changes the number of references of the two descriptions concerned by one each. |
| `FdState.EntryOpen` | src/kernel/core/posix/fd_core.c:82-93 | Every description a descriptor names is in use. |
| `FdState.CountFits` | src/kernel/core/posix/fd_core.c:166-188 | No reference count exceeds 512, so none overflows its 16 bits. |
| `FdState.AttachKeeps` | src/kernel/core/posix/fd_core.c:405-421 | One more descriptor: it names the same description, which has one more reference, nothing else changes, and counts and held nodes stay right. |
| `FdState.InstallKeeps` | src/kernel/core/posix/fd_core.c:63-80 | A first descriptor: counts and held nodes stay right. |
| `FdState.DetachKeeps` | src/kernel/core/posix/fd_core.c:128-152 | One descriptor less: its description has one reference less or goes with its node closed, nothing else changes, and counts and held nodes stay right. |
| `FdState.LastCloses` | src/kernel/core/posix/fd_core.c:128-152 | A node is passed to the file system's close if and only if its last descriptor, in whatever process, goes. |
| `FdKernel.Kernel.AllocDescription` | src/kernel/core/posix/fd_core.c:63-107 | The lowest unused description is taken with one reference and the given kind, node, flags and offset, and named by the descriptor; nothing else changes, and nothing at all when there is none. |
| `FdKernel.Kernel.ReleaseEntry` | src/kernel/core/posix/fd_core.c:128-152 | Releases one descriptor and reports the driver's close error only when the node was closed. |
| `FdKernel.Kernel.TableDestroy` | src/kernel/core/posix/fd_core.c:154-164 | All descriptors of the table go, the other tables and the surviving descriptions stay. |
| `FdKernel.Kernel.TableInit` | src/kernel/core/posix/fd_core.c:109-126 | Descriptor 0 reads the terminal, 1 and 2 write to it, each through its own description, if and only if three descriptions are unused; otherwise the table stays bare. |
| `FdKernel.Kernel.TableClone` | src/kernel/core/posix/fd_core.c:166-188 | The copy names the same descriptions; nothing is opened or closed. |
| `FdKernel.Kernel.OpenFd` | src/kernel/core/posix/fd_core.c:226-264 | The lowest descriptor names the lowest description, with one reference, the opened node, the flags, and as offset the size under O_APPEND and 0 otherwise; nothing else changes. Every error path; a node that finds no place is given back. |
| `FdKernel.Kernel.CloseFd` | src/kernel/core/posix/fd_core.c:266-273 | Releases the descriptor and nothing else, with the driver's error exactly when the node was closed, or reports a bad one. |
| `FdKernel.Kernel.Dup` | src/kernel/core/posix/fd_core.c:405-421 | The lowest unused descriptor names the same description, which has one more reference; nothing else changes. A bad descriptor if and only if the old one names nothing. |
| `FdKernel.Kernel.Dup2` | src/kernel/core/posix/fd_core.c:423-443 | What the target named is released first, then it names the same description; a failing close leaves it released and reports the error. |
| `FdKernel.Kernel.Spawn` | src/kernel/core/process/process_core.c:102-139 | The child gets the first free slot and shares every description of the parent. |
| `FdKernel.Kernel.ExitCurrent` | src/kernel/core/process/process_core.c:141-157 | The process becomes a zombie and the first process with its parent's number, if there is one, runs again. |
| `FdKernel.Kernel.Reap` | src/kernel/core/process/process_core.c:159-166 | Only the references of the other processes remain, and a description survives if and only if there are some; there is still a current process if and only if it was not the one reaped. |
| `FdKernel.Kernel.RunAndReap` | src/kernel/core/process/process_core.c:102-166 | Starting a program that opens and closes nothing, ending and reaping it leaves processes, descriptors, counts and descriptions as they were. |
| `FdKernel.Kernel.constructor` | src/kernel/core/process/process_core.c:39-58 | Start-up gives the only process its three terminal descriptors. |
| `FdKernel.Kernel.Perform` | src/kernel/core/process/process_core.c:39-166 | Over any run of open, close, dup, dup2, spawn, exit and reap each description's count equals the descriptors naming it across all tables, and every node ever opened is held by one description or was closed once; the run ends early only where the current process is reaped. |
| `FdRedir.AllBack` | src/userland/smu/shell/redir.c:50-60 | With nothing saved, every descriptor and every description is as before. |
| `FdRedir.OverArranged` | src/userland/smu/shell/redir.c:42-46 | Redirecting a saved stream keeps what is needed to restore it. |
| `FdRedir.BackArranged` | src/userland/smu/shell/redir.c:54-56 | The stream names again what it named at the start. |
| `FdRedir.MeaningMeans` | src/userland/smu/shell/redir.c:21-32 | Which stream each operator redirects, and whether it reads, writes, creates, empties or appends. |
| `FdRedir.Redirection.OpenTarget` | src/userland/smu/shell/redir.c:33-34 | The file is opened if and only if it was found, its size too under O_APPEND, and there are a descriptor and a description for it. |
| `FdRedir.Redirection.Apply` | src/userland/smu/shell/redir.c:15-48 | A redirection succeeds if and only if the operator is known, the file can be opened and there is a second descriptor to save the stream in; the stream then names the opened node with the operator's flags and offset. Successful or failing, it keeps the arrangement. |
| `FdRedir.Redirection.Restore` | src/userland/smu/shell/redir.c:50-60 | Every table and every description is as before the first redirection. |
| `FdRedir.Session` | src/userland/smu/shell/redir.c:9-60 | Any sequence of redirections, successful or failing, and programs run under them, followed by a restore changes no descriptor entry, no reference count and no description. |
| `RamTree.AddedKeeps` | src/kernel/core/fs/ramfs_core.c:246-295 | Adding a node whose name no sibling matches keeps the tree and its naming rule. |
| `RamTree.RemovedKeeps` | src/kernel/core/fs/ramfs_core.c:910-978 | Removing a file or an empty directory keeps the tree and its naming rule. |
| `RamTree.FindSelf` | src/kernel/core/fs/ramfs_core.c:230-244 | Looking a node's own name up in its directory finds that node, because no earlier sibling matches it, aliases included. |
| `RamTree.WalkUsed` | src/kernel/core/fs/ramfs_core.c:332-383 | A path stays on used nodes. |
| `RamTree.PathLeadsHome` | src/kernel/core/fs/ramfs_core.c:332-383 | Every used node is reached from the root by its own names. |
| `NameMatch.LowerMeans` | src/kernel/core/fs/ramfs_core.c:57-64 | Letters A to Z become a to z when names are compared. |
| `NameMatch.AliasMeans` | src/kernel/core/fs/ramfs_core.c:66-106 | A stored name is an alias of a wanted one if and only if it is a stem, a tilde and digits, and the wanted name is longer than the stem and starts with it, ignoring case. |
| `NameMatch.NameEqMeans` | src/kernel/core/fs/ramfs_core.c:66-106 | Names match if and only if they are equal ignoring case or the stored one is such an alias. |
| `RamPaths.WalkName` | src/kernel/core/fs/ramfs_core.c:332-383 | Where one component leads: `.` and `..`, the first child that matches, and each code. |
| `RamPaths.WalkNormal` | src/kernel/core/fs/ramfs_core.c:332-383 | Where a path leads from a node is where its normalised form leads from the root, whenever it leads anywhere, aliases included. |
| `RamPaths.NormalisedSame` | src/kernel/core/fs/fs_core.c:354-441 | The normalised path the file-system layer hands on leads in the RAM file system where the given path led. |
| `RamPaths.SplitWalks` | src/kernel/core/fs/ramfs_core.c:389-443 | The directory found for a path is where the path without its last name leads. |
| `RamPaths.WalksSplit` | src/kernel/core/fs/ramfs_core.c:389-443 | A path of names to a directory and a name behind it are found as such. |
| `RamPaths.CreatedFound` | src/kernel/core/fs/ramfs_core.c:260-295 | A node created at a path is found at that path. |
| `RamData.StoreKeeps` | src/kernel/core/fs/ramfs_core.c:149-197 | Each used data slot keeps exactly one owner, with zeros past the file's end. |
| `RamData.FreeKeeps` | src/kernel/core/fs/ramfs_core.c:163-169 | Giving a slot back keeps that. |
| `RamData.WriteMeans` | src/kernel/core/fs/ramfs_core.c:815-859 | After a write the file holds its old bytes overlaid with the new ones and every other file its own. |
| `Ramfs.Filesystem.constructor` | src/kernel/core/fs/ramfs_core.c:445-461 | The empty file system is a tree with the root as working directory. |
| `Ramfs.Filesystem.FindChild` | src/kernel/core/fs/ramfs_core.c:230-244 | The loop finds the first matching child. |
| `Ramfs.Filesystem.CreateNode` | src/kernel/core/fs/ramfs_core.c:260-295 | Creates in the first unused node, or fails with the code of the first obstacle and changes nothing. |
| `Ramfs.CreateCodeMeans` | src/kernel/core/fs/ramfs_core.c:260-295 | EXISTS if and only if a sibling matches; then NO_SPACE without an unused node, INVALID for a bad name, NO_SPACE in a full directory; success if and only if none of these. |
| `Ramfs.Filesystem.CreateAt` | src/kernel/core/fs/ramfs_core.c:627-643 | The node is created below the directory the path leads to and found at the path, or the code says what is in the way and nothing changes. |
| `Ramfs.Filesystem.ResolveFrom` | src/kernel/core/fs/ramfs_core.c:332-383 | The path loop computes the walk over components, with `.` and `..`. |
| `Ramfs.Filesystem.ResolveParent` | src/kernel/core/fs/ramfs_core.c:389-443 | The path loop finds the directory and the last name. |
| `Ramfs.Filesystem.ChangeDir` | src/kernel/core/fs/ramfs_core.c:610-625 | The working directory becomes the directory the path leads to, or stays. |
| `Ramfs.Filesystem.MakeDir` | src/kernel/core/fs/ramfs_core.c:627-643 | Creates the directory below the one the path leads to, where the path leads afterwards, or returns the code of what is in the way and changes nothing. |
| `Ramfs.Filesystem.OpenFile` | src/kernel/core/fs/ramfs_core.c:728-778 | Finds, creates or empties the file as asked, with every code; a created file is found at its path and every other file keeps its bytes. A failing open changes nothing, but for a file created to be emptied without being opened for writing, which is left behind. |
| `Ramfs.Filesystem.ReadNode` | src/kernel/core/fs/ramfs_core.c:780-813 | Returns the asked window of the file's bytes. |
| `Ramfs.Filesystem.WriteNode` | src/kernel/core/fs/ramfs_core.c:815-859 | Overlays the bytes, or fails for lack of room with nothing changed; every other file keeps its bytes. |
| `Ramfs.Filesystem.Unlink` | src/kernel/core/fs/ramfs_core.c:910-952 | Takes exactly that file out of its directory and gives its slot back; every other file keeps its bytes. |
| `Ramfs.Filesystem.Rmdir` | src/kernel/core/fs/ramfs_core.c:955-978 | Removes an empty directory, never the root or the working directory. |
| `Ramfs.Filesystem.CwdPath` | src/kernel/core/fs/ramfs_core.c:550-608 | The printed path names the working directory whenever it fits the buffer, and never exceeds it. |
| `Ramfs.CwdPathLeadsBack` | src/kernel/core/fs/ramfs_core.c:550-608 | Resolving that path leads back to the working directory, aliases notwithstanding. |
| `Ramfs.Perform` | src/kernel/core/fs/ramfs_core.c:445-978 | In every state reached by any calls the nodes are a tree under the root, slots are owned and the working directory is live. |
| `PathNorm.NormalizePath` | src/kernel/core/fs/fs_core.c:354-441 | The buffer-editing loop computes the push/pop fold over components, and fails exactly when a component or a text on the way does not fit. |
| `PathNorm.NormalisedClean` | src/kernel/core/fs/fs_core.c:354-441 | The result is the fold, absolute, and has no empty, `.` or `..` component. |
| `PathNorm.NormalisedAgain` | src/kernel/core/fs/fs_core.c:354-441 | Normalising a result again, from any directory, gives the same result. |
| `PathNorm.NormalisedJoin` | src/kernel/core/fs/fs_core.c:354-441 | Normalising p/q is normalising q from the result of p, failures of the second step included. |
| `PathNorm.FoldLaws` | src/kernel/core/fs/fs_core.c:354-441 | A name and `..` behind it cancel, `.` does nothing, and there is nothing above the root. |
| `PathNorm.NormalisedExact` | src/kernel/core/fs/fs_core.c:354-441 | Normalising succeeds if and only if there is a path, every component and every text on the way fits, and the result fits the buffer. |
| `PathNorm.NormalizeCut` | src/kernel/core/fs/fat12_core.c:1964-2030 | The FAT12 copy gives the same text whenever the file-system layer succeeds, and never overruns its buffer. |
| `PathNorm.AppendCut` | src/kernel/core/fs/iso9660_core.c:407-420 | The ISO 9660 copy appends a component like the FAT12 one: the joined text when it fits, cut off within the buffer otherwise. |
| `PathNorm.PopCut` | src/kernel/core/fs/iso9660_core.c:393-405 | The ISO 9660 copy drops the last component like the FAT12 one. |
| `FloppyCache.CachedFloppy.ReadSector` | src/kernel/core/fs/fs_core.c:119-147 | A sector read is the disk's, from a cache or the controller. |
| `FloppyCache.CachedFloppy.WriteSector` | src/kernel/core/fs/fs_core.c:161-180 | The disk changes at that sector only and every cache still agrees with it. |
| `FloppyCache.CachedFloppy.Read` | src/kernel/core/fs/fs_core.c:111-150 | Multi-sector reads return the disk array's contents. |
| `FloppyCache.CachedFloppy.Write` | src/kernel/core/fs/fs_core.c:152-183 | Multi-sector writes update the disk array there and nowhere else, and the caches follow: reads and writes behave as on one plain disk array. |
| `Sprg.Overlap` | src/kernel/core/sprg/sprg_core.c:55-72 | For segments that do not wrap around, reported if and only if they share an address; ones that wrap around always. |
| `Sprg.ValidateSegments` | src/kernel/core/sprg/sprg_core.c:74-107 | Accepts a table if and only if every segment is loadable, inside the file and apart from the later ones; the code says which kind of fault there is. |
| `Sprg.ReadExact` | src/kernel/core/sprg/sprg_core.c:109-132 | Whatever short reads the file system makes, success means exactly the asked bytes; while it keeps answering, success if and only if the file has them. |
| `Sprg.HeaderMeans` | src/kernel/core/sprg/sprg_core.c:170-205 | A header is accepted if and only if it has magic, version 1, the machine, no flags and one to eight segment entries inside the file; the first fault decides the code. |
| `Sprg.ExecutableMeans` | src/kernel/core/sprg/sprg_core.c:277-281 | A segment is executable if and only if bit 2 of its flags is set. |
| `Sprg.ValidateFile` | src/kernel/core/sprg/sprg_core.c:134-237 | Success means a good file and the image it describes; a good file is accepted while the file system keeps answering, and header errors have their codes. |
| `Sprg.LoadSegment` | src/kernel/core/sprg/sprg_core.c:284-304 | Success means file bytes then zeros; no byte outside the segment changes. |
| `Sprg.LoadFile` | src/kernel/core/sprg/sprg_core.c:239-314 | On success, for each entry of the segment table, memory holds from the entry's address on the bytes from its file offset on and then zeros up to its size, and the entry point lies in an executable segment; while the file system keeps answering a good file is loaded if and only if its segments lie in the user range with known flags and the entry in an executable one; on every return no byte outside the user range has changed. |
| `Packing.ProgramImage` | src/userland/linker.command.i386.ld:1-32 | From a program as the linker script lays it out the loader reads back its entry point and one segment with its place, code size and memory size. |
| `Packing.ProgramLoads` | src/userland/linker.command.i386.ld:1-32 | Such a program of at most 64 KiB is accepted, and can be loaded if and only if it lies in the user range with its entry point inside. |
| `Packing.LoadLinked` | src/kernel/core/sprg/sprg_core.c:239-314 | Loading it puts its code where it was linked, cleared memory behind it, and changes nothing outside the user range. |
| `UserStack.CopyString` | src/kernel/arch/i386/modules/usermode/usermode.c:123-145 | The string and its terminator lie below the old stack top, with every error code. |
| `UserStack.Decodes` | src/kernel/arch/i386/modules/usermode/usermode.c:187-199 | A stack laid out this way decodes, as the program start code does, to the arguments and environment. |
| `UserStack.BuildInitialStack` | src/kernel/arch/i386/modules/usermode/usermode.c:147-201 | Succeeds if and only if there are at most 16 arguments and 8 environment strings, each shorter than 128 bytes, and strings and tables fit. The stack then holds the count, pointers to the arguments (the path when there are none), a null pointer, pointers to the environment and a null pointer; decoding it gives back the same strings, and no byte outside the stack is written. |
| `Modules.Validate` | src/kernel/core/module/module_core.c:181-208 | An accepted header has nonzero code inside memory inside the limit, an entry inside the code and a file of exactly that size. |
| `Packing.PackedLoads` | tools/mksmod.py:51-62 | A file packed by the build tool is accepted, with its sizes and entry point read back, if and only if the tool's limits hold. |
| `Packing.AcceptedPacked` | tools/mksmod.py:18-32 | Every accepted file is byte for byte one the tool could have packed. |
| `Modules.UsableMeans` | src/kernel/core/module/module_core.c:61-111 | A table is usable if and only if nothing is missing in it and it has interface version 1, which the two bare functions do not need. |
| `Modules.SameNameMeans` | src/kernel/core/module/module_core.c:266-279 | Names are the same if and only if they are equal ignoring case and fit the name buffer. |
| `Modules.ModuleCore.Register` | src/kernel/core/module/module_core.c:61-111 | Refused outside an entry call, for unusable tables and for owned or staged services. |
| `Modules.StagedAll` | src/kernel/core/module/module_core.c:61-111 | Every usable registration for an unowned service is staged, the first one winning. |
| `Modules.StagedFirst` | src/kernel/core/module/module_core.c:61-111 | The first usable registration for an unowned service is the one staged. |
| `Modules.ModuleCore.Activate` | src/kernel/core/module/module_core.c:211-260 | For any module behaviour either all staged services take effect or nothing changes; no service changes owner. |
| `Modules.ModuleCore.Preload` | src/kernel/core/module/module_core.c:281-306 | Succeeds if and only if there is a place for the module and its name, the file is good, its memory fits the arena and its entry answers 0; the image then lies behind the others with its code and cleared memory; failures change no service, name or resident image. |
| `Modules.ModuleCore.LoadFile` | src/kernel/core/module/module_core.c:311-369 | The same for module files, in the arena only on a floppy boot; the arena is untouched otherwise. |
| `Modules.LoadAll` | src/kernel/core/module/module_core.c:281-428 | Over any sequence of loads resident images stay in bounds, pairwise disjoint and unchanged, and no service changes owner. |
| `KeyRing.PushKeeps` | src/kernel/drivers/pc/ps2_core.c:104-112 | A push appends to the keys held, or is refused exactly when 63 are not yet released, wherever the consumer is. |
| `KeyRing.PopKeeps` | src/kernel/drivers/pc/ps2_core.c:114-124 | Each single step of a pop keeps the keys held; the key returned is the oldest. |
| `KeyRing.InOrder` | src/kernel/drivers/pc/ps2_core.c:104-124 | For every interleaving of pushes with the steps of pops the keys popped are the first keys accepted, in order, none lost and none twice. |
| `KeyRing.RefusedWhenFull` | src/kernel/drivers/pc/ps2_core.c:104-112 | After any interleaving a key is refused if and only if 63 accepted keys are not yet released. |
| `KeyRing.PopTakesOldest` | src/kernel/drivers/pc/ps2_core.c:114-124 | A pop of a ring that holds keys returns the oldest. |

## Left out

- Device I/O failures in FAT12 operations and failed physical writes behind the floppy cache: devices are modelled that answer every access inside them.
- Null arguments, and guards that never fire on consistent states (links that leave the table, clone sources with unused descriptions, rmdir's limit of 4096 visited clusters).
- FAT12 long names and `~` names: the lookup by display name is modelled without long-name parts, and agreement with the 8.3 lookup is stated for volumes without either.
- FAT12 relative paths, `.` and `..` in the reading paths, the working directory kept by the driver, listing, stat, and opening with create or truncate flags.
- FAT12 files open through several handles, or unlinked while open.
- FAT12 bad-cluster marks (0xFF7): consistency does not allow them on chains or as used clusters.
- Fat12Commands.UnlinkOnDevice: states the bytes after the call; that the single sector writes come in the order of the journal is not part of the contract.
- Static sector buffers of the FAT12 code are local values; a slot is named by cluster and index instead of sector and byte offset; bit masks and shifts are written as div and mod.
- Fat12Handles.OpenFile.Write: the size recorded in a handle is a 32-bit number, and the buffer limit of 4096 bytes keeps every sum small.
- The ISO 9660 copy of path normalisation is the FAT12 copy under other names; one model serves both.
- Path normalisation starts from a working directory that is itself a normalised path within the limits.
- MmHeap.MemoryManager.KMalloc: what the headers look like after a request whose size wraps around and that is wrongly answered (`PointerExact` says which) is not modelled; sizes of header and alignment are those of i386.
- Parsing the Multiboot2 tags from bytes: the tags before the end tag are given as a list, and sums of boot addresses do not wrap.
- The memory manager's state before its start-up, and repeated start-up.
- Descriptor reads, writes, seeks and terminal controls; process names, images and exit codes; 32-bit process numbers do not overflow.
- FdKernel.Kernel.Perform: calls made after the current process was reaped, which would set its table up again, are not modelled; the descriptor tables of all other processes are always set up.
- Input and output of a program run under redirections, and descriptors it opens itself.
- RAM file system: stale node numbers of removed files, listing, whole-file reads, statistics, the dirty flag and the import of boot files.
- Executables: the file opens whenever it could be looked up; an open that fails afterwards is not modelled.
- Aliasing of arguments: argument strings lie outside the stack being built, and the caches of the floppy are separate memory regions with a boot sector address that is not 0.
- Modules: what a module's code does besides registering; partial reads into unused arena space; module names and file listing of the directory scan.
- Keyboard: scan-code translation, polling as a second producer.
- ISO 9660 reading, procfs, devfs, terminal, shell parsing, hardware access and assembly other than the start code's stack layout: easier members or no useful contract.
