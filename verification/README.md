# Storage and network core of SyncWideOS: model and proofs

This project models four parts of the SyncWideOS kernel and proves what they promise.

**The FAT32 volume** (`src/kernel/filesystem.c`). From the bytes up:

- `Bytes`, `FatImage`: the disk image, the FAT copies and the clusters. Each low-level write is one map update.
- `Chains`, `Allocator`: cluster chains, the hinted allocator and the freeing of chains.
- `Names`, `Directory`: 8.3 names and the root cluster as a finite map from names to entries.
- `VolumeState`: the volume as a value and its invariant `Inv`. Every live entry starts a chain of its own that is
  acyclic, in range and ends in an end mark; chains are disjoint from each other and from the root; the clusters in
  use are exactly those; files fit their chains; the allocator's hint is tight and its counter never exceeds the
  true number of free clusters.
- `FileContent`, `FileWrite`: the loops of `fs_read`, `fs_seek` and `fs_write` on a file's clusters.
- `VolumeOps`, `AbstractFs`, `Refinement`, `Edits`, `Writes`: the operations, the volume seen as a map from names to
  files (`Abs`), and the proof that every operation acts on that map as it should.
- `OpenHandles`, `Sessions`, `Interleaving`, `Runs`: reads, seeks and writes through an open handle with anything in
  the shared buffer, whole sessions of them, several handles in turn, and runs of sessions and directory operations.
- `Copies`: the copying loop of `cp`, which uses two handles.
- `Steady`: sessions and runs that never meet a stale buffer, which need no buffer on the map of files.
- `Limits`: the exact conditions under which the driver does not behave like such a map.
- `Reached`: what runs can reach from the disks that the kernel builds.
- `Driver`, `DriverDirectory`, `DriverFiles`, `Commands`, `CopyCommand`: the driver itself, changed in place: the disk
  array, the shared cluster buffer, the counters and the handle table. Each method is proved against the operation on
  states.
- `RamDisk`: the builders of `src/kernel/fat32.c` and of the driver's own disk. `WordCount`: the `wc` command.

**The DHCP client** (`src/kernel/dhcp.c`): `TransactionIds`, `DhcpOptions`, `DhcpClient`, `DhcpRuns`,
`DhcpTraffic`. Options follow section 2 of RFC 2132, the states section 4.4 of RFC 2131.

**Network codecs** (`src/kernel/network.c`, `ipconfig.c`, `ping.c`): `ByteOrder`, `Checksum` (RFC 1071), `DottedQuad`.

**The in-memory tree** at the end of `filesystem.c`: `NodeTree`.

Geometry is symbolic: sectors per cluster, number and size of FATs, and the number of clusters are arbitrary as long
as everything fits a disk below 2^28 bytes. Specifications are functions on values; a method's `ensures` ties the
object's new state to the function of its old one, and the lemmas are about those functions.

The hypotheses are met: `RamDisk.StartDriver` builds and mounts a volume that satisfies `Inv`,
`RamDisk.BuiltIsSoundIff` does so for any list of files, and `DhcpRuns.PowerOnIsSane` covers the state in which the
DHCP client starts.

What the code does where one might expect otherwise, and the model with it:

- `fs_mount` counts free clusters before it sets `mounted`, so it counts none (`Driver.NothingCounted`). The free
  counter is a lower bound, and right after mounting nothing can be created (`RamDisk.MountedCannotCreate`).
- `fs_read` and `fs_write` reload the shared buffer only at offset zero, and `fs_open` and `fs_write` end with the
  directory in it. `FileContent.ReadIsRightIff` and `OpenHandles.WriteIsOverlayIff` say exactly when that does no harm.
  It does in `echo`: text and newline are two writes, so a short text is overwritten by the directory's first bytes
  (`Limits.EchoShowsDirectory`), and appending spoils the last cluster (`Limits.AppendIsRightIff`). `cp` reads and
  writes in turn, 512 bytes at a time, so that a longer file is copied as pieces of the directory
  (`Copies.CopyIsRightIff`). It cannot happen on the driver's own disk, where `cp` never finds a free cluster
  (`Reached.DriverDiskStaysFull`); it does on a disk built with two files once one is deleted
  (`Reached.CopyOnBuiltDisk`). The volume stays sound all the same, and every other file as it was. Sessions that
  avoid all this are those of the plain map of files (`Steady.SteadyRunRefines`).
- Mode "w" does not truncate; a write overlays the old bytes.
- A write to a file whose directory entry has no cluster is lost (`Limits.WriteIsKeptIff`).
- `fs_mkdir` enters a path with its leading slash but looks it up without (`Limits.SlashedTwiceBreaks`). The two calls
  that break the directory need two free clusters, which the driver's own disk never has
  (`Reached.DriverDiskStaysFull`) and a disk built with three files has once two are deleted
  (`Reached.SlashedOnBuiltDisk`).
- A NAK and the end of a lease leave mask and gateway in place, so an offer that names none takes over the old ones.
- The lease timers are half the lease, a quarter and a quarter, not T1 and T2 of section 4.4.5 of RFC 2131. A lease
  of one or two seconds is held for three ticks, and one of zero seconds for ever.
- `init_ramdisk` writes the first FAT copy only; the copies of a sector agree from the first FAT write on.
- `ip_str_to_int` drops the last piece of a text with fewer than three dots and ignores what follows the fourth dot
  (`DottedQuad.TextValue`).

## Model

| member | source | states |
|---|---|---|
| `FatImage.FatWriteUpdatesOneEntry` | src/kernel/filesystem.c:246-275 | after a FAT write, the written cluster reads back the low 28 bits with its top 4 bits as before, and every other cluster's word is unchanged, for any geometry that fits the disk |
| `FatImage.FatWriteRefines` | src/kernel/filesystem.c:246-275 | on the table of 28-bit entries a FAT write is one map update, and no data cluster changes |
| `FatImage.ClusterWriteRefines` | src/kernel/filesystem.c:350-357 | on the table of cluster contents a cluster write is one map update, and no FAT entry changes |
| `FatImage.FatWriteMirrors` | src/kernel/filesystem.c:266-272 | once a FAT sector has been written all FAT copies agree on it, and later FAT writes keep every agreeing sector agreeing |
| `FatImage.ClusterWriteKeepsMirrors` | src/kernel/filesystem.c:350-357 | cluster writes keep agreeing FAT sectors agreeing |
| `FatImage.FatEntryBytes` | src/kernel/filesystem.c:224-243 | the entry of cluster c is the little-endian word 4 c bytes behind the start of the FATs, less its top four bits |
| `FatImage.ClusterBytes` | src/kernel/filesystem.c:24-27 | cluster c is the (c - 2)nd stretch of sectors-per-cluster sectors of the data area |
| `FatImage.ClusterFits` | src/kernel/filesystem.c:24-27 | every cluster of the volume lies on the disk, behind the FATs |
| `Chains.ChainIsAcyclic` | src/kernel/filesystem.c:224-243 | a chain that follows the table to an end mark never visits a cluster twice |
| `Chains.ChainIsShort` | src/kernel/filesystem.c:224-243 | such a chain has at most as many clusters as the volume |
| `Chains.ChainFound` | src/kernel/filesystem.c:224-243 | following the table from the first cluster finds exactly the chain |
| `Chains.ChainExtended` | src/kernel/filesystem.c:721-735 | marking a free cluster as an end and linking it behind the last cluster extends the chain by it |
| `Allocator.AllocateIsFirstFit` | src/kernel/filesystem.c:278-308 | while the counter is positive the hinted allocator returns the lowest free cluster of the whole volume; it fails exactly when the counter is zero; the hint stays tight and the gap between true free count and counter does not move |
| `Allocator.SecondScanIsIdle` | src/kernel/filesystem.c:296-306 | with a tight hint the second scan never finds anything |
| `Allocator.ReleaseOnAnyTable` | src/kernel/filesystem.c:311-337 | on every table, cyclic, cross-linked or damaged, freeing a chain ends, only turns entries free, and keeps the hint tight |
| `Allocator.ReleaseFreesTheChain` | src/kernel/filesystem.c:311-337 | on a well-formed chain it frees exactly that chain and raises the counter by its length |
| `Allocator.ReleaseLowersHint` | src/kernel/filesystem.c:328-331 | afterwards the hint is the lowest cluster given back, or unchanged when it was lower still |
| `Names.RoundTripIffCanonical` | src/kernel/filesystem.c:360-409 | name_to_83(83_to_name(f)) = f for an 11-byte name without zero bytes exactly when it is canonical |
| `Names.To83Dotted` | src/kernel/filesystem.c:380-409 | byte by byte: base and extension of a name with a dot, cut off at eight and three or padded with spaces, letters in upper case |
| `Names.To83Plain` | src/kernel/filesystem.c:380-409 | the same for a name without a dot, which has no extension |
| `Names.NoLowerCase` | src/kernel/filesystem.c:380-409 | no byte from 97 to 122 is left |
| `Names.CaseIsIgnored` | src/kernel/filesystem.c:380-409 | names that differ only in the case of their letters have the same 8.3 form |
| `Names.PrintsFields` | src/kernel/filesystem.c:360-377 | a padded name prints as its base, and a dot and the extension if there is one |
| `Names.TestName` | src/kernel/filesystem.c:57-67 | "test.txt" is the name of the driver's test file |
| `Names.NameIsStable` | src/kernel/filesystem.c:380-409 | name to 8.3 to name to 8.3 is stable for every space-free name with at most one dot, truncation included |
| `Names.TwoDotsCanBreak` | src/kernel/filesystem.c:380-409 | a name with two dots for which it is not |
| `Names.PrintedAlikeIff` | src/kernel/filesystem.c:360-377 | two names without a dot in their bases print alike exactly when bases and extensions agree up to their first spaces |
| `Names.SpacesCanHide` | src/kernel/filesystem.c:360-409 | so two different names can print alike: "A B" and "A" |
| `Directory.EntryFieldsAre` | src/kernel/filesystem.c:412-451 | where name, attributes, first cluster and size lie in the 32 bytes, and which bytes mark an end, a deleted entry, a part of a long name, a directory, a label and a dot entry |
| `Directory.NewRefines` | src/kernel/filesystem.c:487-502 | filling in the 32 bytes of a slot is one update of the decoded entry list |
| `Directory.SizeRefines` | src/kernel/filesystem.c:680-681 | storing a size changes the size of that entry alone |
| `Directory.DeletedRefines` | src/kernel/filesystem.c:947-951 | marking an entry deleted changes the first name byte of that entry alone |
| `Directory.NameRefines` | src/kernel/filesystem.c:1089-1093 | storing a name changes the name of that entry alone |
| `Directory.FindIsLookup` | src/kernel/filesystem.c:412-451 | the lookup loop is lookup in the map from names to live entries |
| `Directory.CreateIsInsert` | src/kernel/filesystem.c:472-503 | filling the first vacant slot with an unused name is map insertion; names stay unique and no live entry lies behind an end mark |
| `Directory.ResizeIsUpdate` | src/kernel/filesystem.c:646-686 | the size update is map update |
| `Directory.DeleteIsRemove` | src/kernel/filesystem.c:947-951 | deletion is map removal |
| `Directory.RenameIsRekey` | src/kernel/filesystem.c:1042-1099 | renaming re-keys the map |
| `Directory.ListingIsFindable` | src/kernel/filesystem.c:1117-1176 | listing shows exactly the entries a lookup can return, less volume labels and dot entries |
| `Directory.ListingInOrder` | src/kernel/filesystem.c:1117-1176 | the listing goes through the directory from front to back |
| `Directory.ListingOnce` | src/kernel/filesystem.c:1117-1176 | no 8.3 name is listed twice |
| `Directory.PrintedOnce` | src/kernel/filesystem.c:1117-1176 | no printed name is handed out twice when the names are canonical |
| `VolumeState.PartitionIsFound` | src/kernel/filesystem.c:311-337 | the ownership of clusters is determined by table and directory: the chains are those that following the table finds |
| `VolumeState.PartitionCreate` | src/kernel/filesystem.c:525-537 | a new entry on a freshly allocated cluster keeps chains disjoint, acyclic, end-terminated and free of leaks |
| `VolumeState.PartitionDelete` | src/kernel/filesystem.c:938-951 | so does freeing an entry's chain and striking the entry out |
| `VolumeState.PartitionExtend` | src/kernel/filesystem.c:700-735 | so does linking a fresh cluster behind a file's last one |
| `FileContent.ReadDelivers` | src/kernel/filesystem.c:611-640 | the read loop delivers the asked-for stretch of the file, with the shared buffer standing in for the current cluster when it starts inside one, and leaves a cursor k, offset with position = k * bytes_per_cluster + offset |
| `FileContent.ReadIsRightIff` | src/kernel/filesystem.c:613-619 | a read inside a cluster is right exactly when the shared buffer agrees with the cluster on the bytes taken; from a cluster boundary it is always right |
| `FileContent.ReadReturnsContents` | src/kernel/filesystem.c:597-643 | fs_read returns the next bytes of the file, as many as asked for or as are left |
| `FileContent.SeekKeepsHandle` | src/kernel/filesystem.c:785-815 | a seek lands on the clamped target with the cursor invariant in place |
| `FileContent.ChunksJoin` | src/kernel/filesystem.c:597-643 | reading in chunks of any sizes joins up to one read of their total |
| `FileWrite.WriteOverlays` | src/kernel/filesystem.c:689-775 | one write of any length at any position, whatever the shared buffer holds, lays the accepted bytes over the file as the cursor sees it, accepts min(size, rest of chain + free clusters), grows the chain by exactly the clusters reached, and touches nothing else |
| `FileWrite.GrowKeepsWriting` | src/kernel/filesystem.c:700-738 | growing takes one cluster onto the end of the chain exactly when the cursor is behind the last cluster |
| `FileWrite.PutOverlays` | src/kernel/filesystem.c:745-775 | filling one cluster is an overlay on the file at the cursor |
| `Refinement.StepKeepsInv` | src/kernel/filesystem.c:472-1099 | any step that changes one entry, one chain and the allocator soundly keeps the volume invariant and every other file |
| `Refinement.CreateRefines` | src/kernel/filesystem.c:525-541 | creating a file or directory acts on the map of files as insertion of an empty one, takes one cluster and one slot, and with either stock empty rolls back completely |
| `Refinement.CreateRollsBack` | src/kernel/filesystem.c:538-541 | a create that finds no slot gives its cluster back: invariant, files and counter are as before |
| `Refinement.CreateFileRefines` | src/kernel/filesystem.c:525-557 | opening a missing file for writing creates it |
| `Refinement.MakeDirectoryRefines` | src/kernel/filesystem.c:826-891 | fs_mkdir on a path without leading slash is insertion of an empty directory; a taken name is refused |
| `Refinement.MakeDirectoryHolds` | src/kernel/filesystem.c:844-888 | with room for it: one new entry, on a cluster that was free, in which "." leads to that cluster and ".." to the root's, with size 0, and every other slot is an end mark |
| `Refinement.CreateFileHolds` | src/kernel/filesystem.c:525-557 | with room for it: one new entry of size 0, on a cluster that was free and is now all zeros |
| `Edits.DeleteRefines` | src/kernel/filesystem.c:894-956 | fs_delete is map removal that returns the clusters and the slot; directories and missing names are refused |
| `Edits.RemoveDirectoryRefines` | src/kernel/filesystem.c:959-1039 | fs_rmdir removes empty directories; files, missing names and non-empty directories are refused |
| `Edits.RemovableIff` | src/kernel/filesystem.c:985-1016 | fs_rmdir removes a name exactly when it is a directory and every slot of its cluster from the third on begins with 0 or 0xE5 |
| `Edits.MakeThenRemove` | src/kernel/filesystem.c:826-1039 | making a directory and removing it again leaves files, free counter and slots as they were |
| `Edits.CreateThenDelete` | src/kernel/filesystem.c:506-956 | so does creating a file and deleting it again |
| `Edits.RenameRefines` | src/kernel/filesystem.c:1042-1099 | fs_rename re-keys the map and keeps the contents; a taken or missing name is refused |
| `Writes.SizeUpdateRefines` | src/kernel/filesystem.c:646-686 | the size update shows that many bytes of the file's clusters and changes no other file |
| `OpenHandles.WriteRefines` | src/kernel/filesystem.c:689-782 | fs_write through any open handle, whatever the shared buffer holds: the volume stays sound, the handle stays on its file, the return value is what fits, other files are untouched, and the file is the bytes laid over what the cursor sees |
| `OpenHandles.WriteIsOverlayIff` | src/kernel/filesystem.c:735-758 | that write is the overlay on the file itself exactly when it starts at a cluster boundary or the buffer agrees with the file on the bytes of its cluster that the write does not cover |
| `Sessions.ReadRefines` | src/kernel/filesystem.c:597-643 | fs_read through any open handle hands out the next bytes of the file as the cursor sees it, keeps the handle in order and changes nothing but the buffer |
| `Sessions.MovesRefine` | src/kernel/filesystem.c:597-815 | any mix of reads, seeks and writes through an open handle keeps the volume sound and the handle on its file, with position = k * bytes_per_cluster + offset, and gives the replies and files of the same moves on the map of files, each handed what it meets in the shared buffer |
| `Interleaving.OtherHandleKept` | src/kernel/filesystem.c:597-815 | whatever is done through one handle, a handle on another file stays in order |
| `Interleaving.TurnsRefine` | src/kernel/filesystem.c:597-815 | any interleaving of reads, seeks and writes through handles on different files keeps the volume sound and every handle on its file, and gives the positions, replies and files of the same interleaving on the map of files, each move handed what it meets in the shared buffer |
| `Sessions.OpensByMode` | src/kernel/filesystem.c:506-587 | a mode that begins with 97 puts the handle at the end of a file that is there, every other at its start; a missing file is created exactly for 97 and 119, with room for it; nothing else changes |
| `Sessions.OpenGivesHandle` | src/kernel/filesystem.c:506-587 | opening in any mode keeps the volume sound and is opening on the map of files; the handle is in order on the file of that name, at its start or, in mode a, at its end |
| `Runs.SessionRefines` | src/kernel/filesystem.c:506-815 | a session on a path, open in any mode, any reads, seeks and writes, close, keeps the invariant and is the session on the map of files, replies included, with what its moves meet in the shared buffer |
| `Runs.SaveRefines` | src/kernel/filesystem.c:506-782 | open in mode w, write, close is the abstract save (no truncation: old bytes behind the new ones stay) |
| `Runs.LoadReturns` | src/kernel/filesystem.c:597-643 | open in mode r and read delivers the file's bytes and leaves everything but the buffer alone |
| `Runs.SaveThenLoad` | src/kernel/filesystem.c:506-782 | saving and loading returns the accepted bytes followed by the old ones behind them, and every other file is byte for byte the same |
| `Runs.StepRefines` | src/kernel/filesystem.c:506-1099 | each session, deletion, mkdir, rmdir and renaming keeps the invariant and refines its abstract step |
| `Runs.RunRefines` | src/kernel/filesystem.c:506-1099 | so does every run of them in which each command is in order when its turn comes, which depends on names, kinds and stocks only; the allocator's gap never moves |
| `Steady.SteadyMovesRefine` | src/kernel/filesystem.c:597-815 | moves that start at a cluster boundary or in the cluster that the reads before them have left in the buffer are the moves on the plain map of files: a read delivers the bytes of the file, a write is laid over them, and no buffer appears |
| `Steady.SteadyTurnsRefine` | src/kernel/filesystem.c:597-815 | so are steady moves through several handles in turn |
| `Steady.SteadySessionRefines` | src/kernel/filesystem.c:506-815 | so is a session of steady moves |
| `Steady.SteadyRunRefines` | src/kernel/filesystem.c:506-1099 | and a run of steady sessions and directory operations is the run on the plain map of files |
| `Reached.RepliesNeedBuffers` | src/kernel/filesystem.c:597-643 | other sessions are no function of the map of files: two disks with the same map, the same files in another order, give different replies to the same seek and read |
| `Reached.RunKeepsSupply` | src/kernel/filesystem.c:278-337 | every run keeps the number of clusters in use and the free counter together the same |
| `Reached.FilesNeedClusters` | src/kernel/filesystem.c:525-541 | every file and the root directory have a cluster of their own in use |
| `Reached.FilesAndFree` | src/kernel/fat32.c:151-198 | on a disk built with n files there are, after any run, never more than n files and free clusters together |
| `Reached.DriverDiskStaysFull` | src/kernel/filesystem.c:31-188 | so on the driver's own disk, after any run, there is at most one file, fewer than two free clusters, and no cluster for a copy while there is something to copy |
| `Copies.CopyGives` | src/commands/cp.c:61-109 | cp makes a new file of as many bytes as fit, byte for byte what Copied says, keeps the volume sound and every other file as it was |
| `Copies.CopyIsRightIff` | src/commands/cp.c:94-106 | the copy is the file exactly when the file has at most 512 bytes, a cluster has, or every cluster of the file that takes more than one chunk looks like the root directory |
| `Reached.CopyOnBuiltDisk` | src/commands/cp.c:61-109 | on a disk built with two files, one of them deleted since, cp of the other, longer than 512 bytes, makes a copy that begins with the first byte of its name, and is wrong unless the file does |
| `Copies.FirstByteTells` | src/commands/cp.c:94-106 | a file of more than 512 bytes, on clusters of more than 512 bytes, does not look like the directory if its first byte is another |
| `Limits.UnalignedWriteIsRightIff` | src/kernel/filesystem.c:735-758 | the clusters on the file's chain after a write that starts inside a cluster are the overlay they should be exactly when the shared buffer agrees with the cluster on every byte the write does not cover |
| `Limits.WriteFromDirectoryIff` | src/kernel/filesystem.c:646-775 | a write that finds the root directory in the buffer is right exactly at a cluster boundary or where the directory's bytes agree with the file's |
| `Limits.SecondWriteIsRightIff` | src/commands/echo.c:117-126 | the second of two writes in a row is right exactly at a cluster boundary or where the directory's bytes agree with the file's, whatever the first write found in the buffer |
| `Limits.AppendIsRightIff` | src/commands/echo.c:69-78 | the first write after opening in mode a is right exactly when the file ends at a cluster boundary or the directory agrees with its last cluster |
| `Limits.EchoShowsDirectory` | src/commands/echo.c:117-126 | after writing a text shorter than a cluster and then anything more, the file begins with the bytes of the directory, as many as the text had |
| `Limits.EchoOnDriverDisk` | src/commands/echo.c:117-126 | on the driver's own disk its test file then begins with the first byte of its own name |
| `Limits.LongReadIsRightIff` | src/kernel/filesystem.c:602-605 | a read delivers the next bytes of the file exactly when position + size stays below 2^32, nothing is left, or the file fills its clusters |
| `Limits.WriteIsKeptIff` | src/kernel/filesystem.c:711-716 | reading back what a write through a live entry accepted gives the accepted bytes exactly when the entry's first cluster is at least 2; otherwise the write takes clusters and reports bytes that no later read delivers |
| `Limits.CreationIsSoundIff` | src/kernel/filesystem.c:472-503 | creating leaves a sound volume exactly when the name is new and does not start with a zero or 0xE5 byte |
| `Limits.SlashedMakeDirectoryIsSoundIff` | src/kernel/filesystem.c:844-888 | fs_mkdir on a path with a leading slash is sound exactly when the name with the slash is new, although it looks up the one without |
| `VolumeOps.PathNames` | src/kernel/filesystem.c:521-523 | one 47 in front of a path makes no difference to the name; leading 32s are skipped by fs_mkdir |
| `Limits.SlashedTwiceBreaks` | src/kernel/filesystem.c:826-891 | called twice with the same new path with a leading slash, with room for both, it succeeds twice: the first call leaves a sound volume, the second does not |
| `Reached.SlashedOnBuiltDisk` | src/kernel/filesystem.c:826-891 | so it goes on every disk built with three files of which two have been deleted since |
| `Limits.SlashedNamesDiffer` | src/kernel/filesystem.c:844-888 | for a path with one leading slash the name looked up is never the name entered |
| `Limits.RenamingIsSoundIff` | src/kernel/filesystem.c:1042-1099 | renaming a file to a free name leaves a sound volume exactly when the directory can hold the new name |
| `Limits.SizeUpdateFindsOwnIff` | src/kernel/filesystem.c:579-779 | the size update at the end of fs_write finds the opened file's own entry exactly when the entry's name is canonical |
| `Driver.NameTo83` | src/kernel/filesystem.c:380-409 | the loops over the characters fill in the 8.3 form, and no other byte of the destination |
| `Driver.NameFrom83` | src/kernel/filesystem.c:360-377 | the loops print name and extension up to the first space |
| `Driver.Volume.StorageReadSectors` | src/kernel/filesystem.c:86-98 | reads the sectors, refusing exactly what lies beyond the disk |
| `Driver.Volume.StorageWriteSectors` | src/kernel/filesystem.c:101-118 | writes the sectors, refusing exactly what lies beyond the disk |
| `Driver.Volume.ReadFatEntry` | src/kernel/filesystem.c:224-243 | reads the entry of the image, the end mark outside the volume or before mounting |
| `Driver.Volume.WriteFatEntry` | src/kernel/filesystem.c:246-275 | all FAT copies of the sector are written; the set of sectors whose copies agree grows by it and never shrinks |
| `Driver.Volume.ReadCluster` | src/kernel/filesystem.c:340-347 | loads the shared buffer |
| `Driver.Volume.WriteCluster` | src/kernel/filesystem.c:350-357 | stores the shared buffer, keeping agreeing FAT sectors agreeing |
| `Driver.Volume.AllocateCluster` | src/kernel/filesystem.c:278-308 | in place, hands out the cluster and leaves the FAT, counter and hint that the first-fit allocator does |
| `Driver.Volume.FreeClusterChain` | src/kernel/filesystem.c:311-337 | in place, its loop ends on every table and leaves the FAT, counter and hint that freeing the chain does |
| `Driver.Volume.Mount` | src/kernel/filesystem.c:139-188 | adopts the geometry of the boot sector, with counter zero and hint three |
| `Driver.BootFields` | src/kernel/filesystem.c:139-169 | which bytes of the boot sector give which part of the geometry, and that the sector size is checked |
| `Driver.NothingCounted` | src/kernel/filesystem.c:173-178 | the counting loop of fs_mount finds nothing, because it runs before mounted is set |
| `Driver.Volume.Unmount` | src/kernel/filesystem.c:1205-1217 | closes every handle |
| `Driver.Volume.ChangeDirectory` | src/kernel/filesystem.c:199-221 | whatever the path, the current directory stays the root |
| `DriverDirectory.ScanForName` | src/kernel/filesystem.c:412-451 | the loop over the buffer's bytes selects the first live entry of the name before the end mark |
| `DriverDirectory.ScanForVacancy` | src/kernel/filesystem.c:454-469 | the loop over the buffer's bytes selects the first end or deleted slot |
| `DriverDirectory.CreateDirEntry` | src/kernel/filesystem.c:472-503 | in place, the whole new state: the entry filled in and stored, or nothing when there is no slot |
| `DriverDirectory.CreateNode` | src/kernel/filesystem.c:525-541 | in place, allocation, filling and entering, with the cluster given back when the directory is full |
| `DriverDirectory.Exists` | src/kernel/filesystem.c:1179-1189 | answers membership in the map of files |
| `DriverDirectory.MakeDir` | src/kernel/filesystem.c:826-891 | in place, the whole new state; on a sound volume insertion of an empty directory, with the invariant kept |
| `DriverDirectory.Delete` | src/kernel/filesystem.c:894-956 | in place, the whole new state; on a sound volume map removal, with the invariant kept |
| `DriverDirectory.RemoveDir` | src/kernel/filesystem.c:959-1039 | in place, the whole new state; on a sound volume removal of an empty directory, with the invariant kept |
| `DriverDirectory.Rename` | src/kernel/filesystem.c:1042-1099 | in place, the whole new state; on a sound volume re-keying, with the invariant kept |
| `DriverDirectory.ListDirectory` | src/kernel/filesystem.c:1117-1176 | makes the calls of ListChain, in order, over all clusters of the root directory |
| `DriverDirectory.RootAlone` | src/kernel/filesystem.c:1117-1176 | on a sound volume these are the listing of the one root cluster |
| `DriverDirectory.ListChainJoins` | src/kernel/filesystem.c:1133-1176 | a root directory of several clusters is listed cluster by cluster, up to the first cluster with an end mark |
| `DriverDirectory.ListingTells` | src/kernel/filesystem.c:1117-1176 | on a sound volume the callback is told, for every file that is no label or dot entry, its printed name, whether it is a directory and its length |
| `DriverDirectory.GetFileSize` | src/kernel/filesystem.c:1192-1202 | on a sound volume the length of the file's contents, 0 for a missing one |
| `DriverFiles.SoundIsLinked` | src/kernel/filesystem.c:224-243 | on a sound volume every link leads to a cluster of the volume or to an end |
| `DriverFiles.SeekTo` | src/kernel/filesystem.c:785-815 | on every table the handle ends up on the cursor that SeekKeepsHandle speaks about; directories and closed handles are refused |
| `DriverFiles.Tell` | src/kernel/filesystem.c:818-823 | the position of an open handle |
| `DriverFiles.ReadFile` | src/kernel/filesystem.c:597-643 | delivers the bytes that ReadReturnsContents speaks about, leaves the rest of the destination and the volume alone |
| `DriverFiles.GrowFile` | src/kernel/filesystem.c:700-738 | in place, a cursor behind the last cluster gets a fresh one, linked behind it; without free clusters nothing happens |
| `DriverFiles.PutBytes` | src/kernel/filesystem.c:740-775 | in place, the bytes stored in the current cluster and the handle moved on, to the next cluster or to the end mark |
| `DriverFiles.WriteTo` | src/kernel/filesystem.c:689-782 | in place, the whole new state and handle; on a sound volume the write that WriteRefines speaks about, with invariant and handle kept, whatever the shared buffer holds |
| `DriverFiles.OpenFile` | src/kernel/filesystem.c:506-587 | takes a handle that was free, fills it for the file found or created, and leaves the other handles alone |
| `DriverFiles.StoreSize` | src/kernel/filesystem.c:646-686 | in place, the size stored in the entry found under the handle's name |
| `Commands.SaveFile` | src/commands/write.c:45-57 | open, write, close in place: the save that SaveRefines speaks about, with the invariant kept and every handle as free as before |
| `CopyCommand.CopyFile` | src/commands/cp.c:61-109 | look for both names, open both, the loop of reads and writes, close both, in place: the copy that CopyGives speaks about, with every handle as free as before |
| `CopyCommand.CopyOtherwise` | src/commands/cp.c:61-92 | without a source, with the copy there already, or without room nothing is copied; of a directory an empty file is made |
| `CopyCommand.CopyChunks` | src/commands/cp.c:94-106 | its loop over two handles in place, which ends and does nothing with a directory |
| `Commands.EchoBytes` | src/commands/echo.c:69-126 | echo opens with 97 or 119 and writes the text and then the byte 10 |
| `Commands.Echo` | src/commands/echo.c:69-126 | open in mode w or a, two writes, close in place: the session that SessionRefines speaks about, with the invariant kept and every handle as free as before |
| `RamDisk.WordStored` | src/kernel/fat32.c:145-149 | a word stored in the first FAT copy changes that entry alone |
| `RamDisk.DataStored` | src/kernel/fat32.c:175-184 | bytes stored inside a cluster change that cluster alone |
| `RamDisk.AddFile` | src/kernel/fat32.c:163-198 | one turn of the loop adds a file to the image's tables, its size cut to one cluster |
| `RamDisk.InitRamDisk` | src/kernel/fat32.c:88-222 | the finished image denotes the tables with the first sixteen files, or the test file, laid out, its boot sector describes that layout, and the first two sectors carry the other fields and signatures with their values |
| `RamDisk.ChosenAre` | src/kernel/fat32.c:156-222 | of many files the first sixteen are put on the disk, of a long file the first 4096 bytes, and without any the test file |
| `RamDisk.BootReads` | src/kernel/fat32.c:111-132 | mounting reads back the layout that was written |
| `RamDisk.InitDriverDisk` | src/kernel/filesystem.c:31-84 | the driver's own disk denotes the tables with its one test file |
| `RamDisk.FilesAreLaidOut` | src/kernel/fat32.c:158-198 | for every list of files, following entry i's chain yields exactly the first min(size, 4096) bytes of file i |
| `RamDisk.BuiltIsSoundIff` | src/kernel/fat32.c:151-198 | the built volume satisfies the whole volume invariant exactly when the names on it are storable and different |
| `RamDisk.BuiltFiles` | src/kernel/fat32.c:151-198 | a sound built volume shows exactly the given files |
| `RamDisk.StartDriver` | src/kernel/filesystem.c:121-188 | after initialisation the driver's volume is mounted, sound and shows its file, with a zero counter |
| `RamDisk.MountedIsCountedIff` | src/kernel/filesystem.c:169-178 | the allocator's bookkeeping after mounting is sound exactly when cluster 2 is in use |
| `RamDisk.MountedCannotCreate` | src/kernel/filesystem.c:169-178 | right after mounting no file can be created: the gap is the number of all free clusters |
| `WordCount.TallyIs` | src/commands/wc.c:49-71 | the loop's counts are the numbers of line ends, of word starts and of bytes |
| `WordCount.CountsAre` | src/commands/wc.c:49-71 | lines end at 10, words at 9, 10 and 32 |
| `WordCount.FeedJoin` | src/commands/wc.c:49-71 | counting piece by piece is counting the whole, wherever the pieces end |
| `WordCount.WordCountFile` | src/commands/wc.c:23-77 | wc in place: look, open, count, close; the counts are those of the file of that name, zeros for a directory, and nothing but the shared buffer has changed |
| `WordCount.CountFile` | src/commands/wc.c:42-71 | reading an open file in pieces of 512 bytes counts the lines, words and bytes of its whole content |
| `TransactionIds.SeriesDivides` | src/kernel/dhcp.c:47-52 | 1 + a + ... + a^(n-1) has as many factors two as n when a leaves 1 modulo 4 |
| `TransactionIds.FullPeriod` | src/kernel/dhcp.c:47-52 | x -> a x + c modulo 2^k has full period when a leaves 1 modulo 4 and c is odd |
| `TransactionIds.IdsRepeatIff` | src/kernel/dhcp.c:47-52 | from every seed two draws give the same id exactly when 2^32 divides their distance |
| `DhcpOptions.ParseOptions` | src/kernel/dhcp.c:243-301 | the walk ends on every input, reads only inside the given length, and gives what ParseEncoded speaks about |
| `DhcpOptions.ParseEncoded` | src/kernel/dhcp.c:251-300 | parsing any encoded option list, with padding and an end mark or the end of the area, gives for every field the last occurrence that is long enough |
| `DhcpOptions.KnownOptions` | src/kernel/dhcp.c:259-297 | which field each of the codes 53, 54, 1, 3, 6 and 51 sets, to the number its first bytes write |
| `DhcpOptions.OtherOptions` | src/kernel/dhcp.c:259-297 | all other codes, and data that is too short, set nothing |
| `DhcpOptions.ParseIsSomeList` | src/kernel/dhcp.c:251-300 | on arbitrary bytes it gives the meaning of some list whose encoding the bytes start with, and behind that list there is nothing left to read: an end mark, the end of the area or a truncated option |
| `DhcpOptions.CreateMessage` | src/kernel/dhcp.c:73-144 | builds the client message: fixed fields, cookie, options, end mark, zeros |
| `DhcpOptions.ClientMessageReads` | src/kernel/dhcp.c:73-144 | parsing it returns its message type and leaves all other outputs alone; it carries the id; it is not taken for a reply |
| `DhcpOptions.ClientMessageIs` | src/kernel/dhcp.c:73-144 | every byte of the message, the id with its most significant byte first |
| `DhcpClient.DhcpService.Start` | src/kernel/dhcp.c:443-467 | in place, a new session under a newly drawn id with lease and network configuration cleared; nothing when already running |
| `DhcpClient.DhcpService.Stop` | src/kernel/dhcp.c:470-487 | in place, the client off; a release is sent exactly from BOUND with a known server |
| `DhcpClient.DhcpService.Tick` | src/kernel/dhcp.c:500-624 | in place, the whole new state of the client and the messages of one tick |
| `DhcpClient.DhcpService.ProcessPacket` | src/kernel/dhcp.c:304-440 | in place, the whole new state of the client and the messages that one packet causes; packets that are no reply change nothing |
| `DhcpRuns.TermWithinLeaseIff` | src/kernel/dhcp.c:581-619 | the spans L/2, L/4 and L/4 of the timers stay within the lease exactly when it is at least three seconds |
| `DhcpRuns.ClockIsRight` | src/kernel/dhcp.c:304-624 | in every run the client's timer agrees with the ticks since the last acknowledgement |
| `DhcpRuns.LeaseSafety` | src/kernel/dhcp.c:304-624 | in every run, while a lease is held for which the server granted L > 0 seconds, fewer than Term(L) ticks have passed since its last acknowledgement |
| `DhcpRuns.HeldPastLeaseIff` | src/kernel/dhcp.c:581-619 | left in silence, a lease is still held when it is over exactly when it was shorter than three seconds |
| `DhcpRuns.PhasesInBounds` | src/kernel/dhcp.c:524-619 | in every run, while the client is in SELECTING or REQUESTING fewer than 10 ticks have passed since it entered that phase, and its timer counts them; RENEWING and REBINDING imply a positive lease |
| `DhcpRuns.IdleReturnsIff` | src/kernel/dhcp.c:500-624 | without packets an active client returns to INIT, except from BOUND with a lease of zero |
| `DhcpRuns.SilenceEnds` | src/kernel/dhcp.c:500-624 | and does so after exactly the remaining ticks |
| `DhcpRuns.MessagesFollowPhases` | src/kernel/dhcp.c:304-624 | an inactive client is silent, an event is answered by at most one message, DISCOVER is sent exactly when discovery begins, RELEASE exactly when a bound client with a server stops, and REQUEST on entering REQUESTING or RENEWING |
| `DhcpRuns.AddressProvenance` | src/kernel/dhcp.c:304-440 | in every run, whenever a lease is held, its address was offered under the current id, requested until acknowledged under the same id, and unchanged since; mask and gateway are those of that offer where it names them, and otherwise what they were before the acknowledgement; the lease is the last one that an acknowledgement of it named, and otherwise that of the offer |
| `DhcpTraffic.Handshake` | src/kernel/dhcp.c:304-511 | starting, one tick, any offer and any acknowledgement under the id of the second draw: DISCOVER and REQUEST are sent, and the client is bound to what it was offered |
| `DhcpTraffic.RequestEveryFifthTick` | src/kernel/dhcp.c:524-619 | in every run a tick in RENEWING or REBINDING sends a request exactly when it is a multiple of five since that phase was entered; ticks in SELECTING, REQUESTING and, while it lasts, BOUND are silent |
| `DhcpTraffic.RenewalTimes` | src/kernel/dhcp.c:581-619 | left in silence the client is in RENEWING after L/2 ticks, in REBINDING after L/4 more, and in INIT after another L/4 |
| `DhcpTraffic.RequestsOfALease` | src/kernel/dhcp.c:581-619 | and sends 1 + 2 * (L/4/5) requests on the way |
| `DhcpTraffic.ReplyIff` | src/kernel/dhcp.c:304-314 | a reply is a message of at least 548 bytes to an active client, with 2 in its first byte and the client's id in network order in the fifth to eighth |
| `DhcpTraffic.RepliesLead` | src/kernel/dhcp.c:328-438 | 2 leads from SELECTING to REQUESTING with a request; 5 and 6 from REQUESTING and from a lease to BOUND and to INIT; all other replies change nothing |
| `DhcpTraffic.ActiveIsSwitched` | src/kernel/dhcp.c:443-487 | in every run the client is active exactly when its last start or stop was a start |
| `DhcpTraffic.ConfigurationIs` | src/kernel/dhcp.c:304-487 | in every run address, mask and gateway are those taken over from acknowledged offers since the last start, and the stored terms, lease included, are those of the last offer taken up since then, renewed as acknowledged; nothing else touches either |
| `DhcpRuns.IdIsDraw` | src/kernel/dhcp.c:452-511 | after any run the id is the one that as many draws from the first seed give |
| `DhcpRuns.LateReplyIsIgnored` | src/kernel/dhcp.c:311-314 | a reply carrying the id of any of the last 2^32 - 1 earlier draws changes nothing |
| `ByteOrder.HtonsTwice` | src/kernel/network.c:38-44 | htons undoes itself |
| `ByteOrder.HtonlTwice` | src/kernel/network.c:46-55 | htonl undoes itself |
| `ByteOrder.HtonsSwaps` | src/kernel/network.c:38-44 | htons exchanges the two bytes |
| `ByteOrder.HtonlSwaps` | src/kernel/network.c:46-55 | htonl exchanges the four bytes end for end |
| `ByteOrder.SwappedLoad` | src/kernel/network.c:46-55 | a word loaded in host order and swapped is the word in network order |
| `ByteOrder.SwappedStore` | src/kernel/network.c:46-55 | a swapped word stored in host order reads back in network order |
| `Checksum.NetworkChecksum` | src/kernel/network.c:58-79 | up to 131074 bytes the 32-bit sum cannot wrap around and the result is the Internet checksum; the fold loop ends |
| `Checksum.LongestIsBest` | src/kernel/network.c:58-79 | that bound is the best possible |
| `Checksum.ShortChecksums` | src/kernel/network.c:58-79 | the checksums of at most two bytes, the first of which is the low one |
| `Checksum.FoldIs` | src/kernel/network.c:73-76 | folding is reduction modulo 2^16 - 1, where only zero folds to zero |
| `Checksum.CheckPassesIff` | src/kernel/network.c:366-378 | with a field zeroed, summed and stored, a second checksum is zero, for exactly that value of the field (all ones may stand for zero) |
| `Checksum.ByteOrderIndependent` | src/kernel/network.c:58-79 | summing in machine order gives the byte-swapped checksum of network order |
| `DottedQuad.ValidateIp` | src/commands/ipconfig.c:60-86 | accepts exactly four octets between dots |
| `DottedQuad.IsValidIp` | src/commands/ping.c:32-53 | accepts exactly the same strings |
| `DottedQuad.IpStrToInt` | src/kernel/network.c:82-107 | on an accepted string the sum of octet i times 256^(3-i); on any other text TextValue |
| `DottedQuad.QuadOfTexts` | src/kernel/network.c:82-107 | four octets with dots between them are an address, whose value is theirs to the base 256 |
| `DottedQuad.OctetIff` | src/commands/ipconfig.c:60-86 | a text of up to three bytes is an octet exactly when all are digits and its decimal value is at most 255 |
| `DottedQuad.QuadTextValue` | src/kernel/network.c:82-107 | the two agree, leading zeros included |
| `DottedQuad.NoDotInside` | src/kernel/network.c:82-107 | no piece holds a dot, so the pieces are the text cut at its dots |
| `DottedQuad.PartsJoin` | src/kernel/network.c:82-107 | the pieces between the dots join up to the string |
| `DottedQuad.IpIntToStr` | src/kernel/network.c:110-136 | prints four decimal octets |
| `DottedQuad.PrintThenParse` | src/kernel/network.c:82-136 | the printed form of any address is valid and parses back to it |
| `DottedQuad.ParseThenPrintIff` | src/kernel/network.c:82-136 | printing what an accepted string says gives it back exactly when no octet has a leading zero |
| `NodeTree.ChildIff` | src/kernel/filesystem.c:1314-1326 | lookup in a directory finds exactly the child of that name |
| `NodeTree.CreationKeepsTree` | src/kernel/filesystem.c:1265-1312 | creation succeeds exactly when the parent is a directory with room and without that name and the pool is not full; parents stay older than children and sibling names unique |
| `NodeTree.TreeOverRuns` | src/kernel/filesystem.c:1265-1312 | so over any sequence of creations, and every node keeps its index, its path and the lookup of that path |
| `NodeTree.PathsAreFollowed` | src/kernel/filesystem.c:1328-1392 | every path of components is followed one by one, from the working directory or, behind "/" and "~/" alike, from the root: "." stays, ".." goes up if it can, a name to the child of that name |
| `NodeTree.LongComponent` | src/kernel/filesystem.c:1353-1366 | a component longer than the 254 bytes of the buffer is read as if a slash stood behind its first 254 |
| `NodeTree.PathSpelled` | src/kernel/filesystem.c:1410-1458 | a node's path is that of its parent, a slash and its name; that of the root is "~" |
| `NodeTree.RoomIff` | src/kernel/filesystem.c:1265-1312 | a node is created exactly in a directory with fewer than 32 children and without that name, while there are fewer than 256 nodes |
| `NodeTree.PathRoundTrip` | src/kernel/filesystem.c:1328-1458 | resolving a node's path gives the node, from every working directory, when the names on it are non-empty, slash-free, not dot names and at most 254 bytes long |
| `NodeTree.PathsDiffer` | src/kernel/filesystem.c:1410-1458 | different nodes with such paths have different paths |
| `NodeTree.NodePool.constructor` | src/kernel/filesystem.c:1225-1250 | the initial tree, with its directories, the welcome file and the sample images, is a tree and the result of those creations |
| `NodeTree.TreeAtStart` | src/kernel/filesystem.c:1225-1250 | what those creations give: nine nodes with their names and kinds, in order, below the root |
| `NodeTree.NodePool.FindNode` | src/kernel/filesystem.c:1314-1326 | the scan of the child list gives the child of that name |
| `NodeTree.NodePool.Create` | src/kernel/filesystem.c:1265-1312 | in place, the pool with the new node, or unchanged when refused; the tree stays a tree |
| `NodeTree.NodePool.FindNodeByPath` | src/kernel/filesystem.c:1328-1392 | ends on every string and gives the node that PathRoundTrip speaks about |
| `NodeTree.NodePool.GetPath` | src/kernel/filesystem.c:1410-1458 | the path of the node, cut off to the caller's buffer |

## Left out

- Several handles on one file at once: each keeps a size of its own, and the last write decides which one the directory gets.
- Deleting a file while it is open, and the two open handles on one file that would follow.
- Live entries whose first cluster is 0 or 1, as other systems write for empty files, are outside `Inv`: the driver never makes one, and `Limits.WriteIsKeptIff` shows what a write to one does.
- Contents of subdirectories: no path leads into them, because `fs_chdir` can select the root only. A subdirectory is a file with a flag that says whether it is empty.
- Long file names, timestamps and FSInfo, which the code does not implement.
- Sectors beyond the volume: geometries that do not fit the disk, and the 32-bit wrap-around of sector numbers that they could cause. `Driver.Volume.Mount` demands that the boot sector describes a volume that fits.
- Lengths of C strings and of the fixed buffers that hold them: names and paths are sequences of bytes. Handle names are not cut at 255 bytes.
- The five copies of the name-matching loop are one method, `DriverDirectory.ScanForName`; allocating and entering a file or directory, spelled out in `fs_open` and in `fs_mkdir`, is `DriverDirectory.CreateNode`.
- What `find_dir_entry` hands out is a slot number, not an address.
- The second-use branch of the RAM disk: initialisation on first access is `RamDisk.InitDriverDisk`, called before mounting.
- Driver.Volume.ReadCluster: demands a cluster number inside the volume or below 2; beyond it the code reads whatever sector the wrapped-around number names, which no property here needs.
- Driver.Volume.WriteCluster: demands the same, because beyond the volume the code would overwrite some other sector.
- Driver.Volume.Mount: demands that the layout in the boot sector fits the disk and its clusters fit the 4096-byte buffer; the code checks only the sector size.
- DriverFiles.WriteTo: demands that the handle is open on a chain of the volume, because otherwise the loop that looks for the last cluster need not end. The buffer may hold anything.
- DriverFiles.GrowFile: demands a handle whose chain ends inside the volume, for the same reason.
- Commands.SaveFile: demands a sound volume and, for a new file, a name that the directory can hold; under another name the new file is lost and the volume unsound (`Limits.CreationIsSoundIff`).
- Commands.Echo: demands the same, and a name that the size update finds again (`Limits.SizeUpdateFindsOwnIff`).
- CopyCommand.CopyFile: demands the same of the volume and of the copy's name.
- CopyCommand.CopyChunks: demands that both handles are in order on files of a sound volume, as opening leaves them.
- WordCount.WordCountFile: demands a sound volume.
- DriverFiles.ReadFile: demands that every link in the table leads to a cluster of the volume or to an end; the code would read whatever sector lies there.
- DriverDirectory.RemoveDir: demands that no live entry starts beyond the volume, for the same reason.
- Sessions.MovesRefine: the moves on the map of files are handed the buffer that each of them meets, because the map does not determine it (`Reached.RepliesNeedBuffers`): it can hold the directory's own bytes or what lies behind a file's end in its last cluster. Interleaving.TurnsRefine, Runs.SessionRefines, Runs.StepRefines and Runs.RunRefines are stated in the same way; `Steady` needs no buffer. Reads are of sizes that cannot wrap around 2^32 when added to a position on this volume; `Limits.LongReadIsRightIff` says what the others do. The same holds for `Interleaving.TurnsRefine`, `Runs.SessionRefines`, `Runs.RunRefines` and `Copies.CopyGives`.
- Runs.SessionRefines: a file that is written to has a name that the size update finds again, and a file or directory to be created a name that the directory can hold; `Limits.SizeUpdateFindsOwnIff` and `Limits.CreationIsSoundIff` say that both are needed.
- DriverDirectory.ListDirectory: demands that the root directory's chain ends, because otherwise neither does the code.
- Sending and receiving packets: a step lists the kinds of the messages it sends, and whether sending worked changes nothing, as in the code. The hardware address is a parameter.
- The network layer's ARP, ICMP and UDP field copying, and the statistics.
- DottedQuad.IpStrToInt: the octet being read is unbounded, so the signed overflow on very long runs of digits is not modelled. Octets at different places do not overlap, so `|=` adds.
- The range checks of the validators at a dot and at the end, which can never fail, have no counterpart.
- The contents and sizes of in-memory tree nodes, and writing to such nodes.
- NodeTree.NodePool.GetPath: the whole path has to fit the function's own 260 bytes; the code would write past them.
- Copies.CopyGives: clusters are whole multiples of 512 bytes, as they are on every volume of the driver (`Driver.Volume.StateAddressable`); the cut of names to 255 bytes and the branch for the in-memory tree are left out.
- All output to the terminal, and the formatting of numbers for it.
