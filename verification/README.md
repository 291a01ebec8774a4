# Dafny models of EYN-OS

This project models the parts of EYN-OS whose behaviour spans several functions, and proves what they
promise. `dafny verify dfyconfig.toml` checks all of it.

**The EYNFS image, from builder to reader.** `EynfsSector` is the 512-byte block: a next pointer, 508
payload bytes, nine 52-byte directory slots. `EynfsLayout` and `EynfsTree` say what it means for a disk to
hold a tree: chains that end, that share nothing, that are all owned, and entries that match the tree.
`EynfsFormat` has the host and the kernel formatter. `EynfsBuilder` is the copier, a class over a disk,
a bitmap, a moving hint and per-directory caches (`EynfsDirState`). `EynfsSource` and `EynfsWalk` are the
host side: a directory tree and the walk over it. `EynfsReaders` and `EynfsPaths` are the GRUB reader and the
extractor, and end in the write-then-read theorems; `EynfsMounts` has them for several trees copied one after
the other. `EynfsNames` says which host trees the copier stores at all. `EynfsCapacity` shows that the partition
sizing always suffices. `EynfsCursor` is the kernel's cursor-aware reader and its descriptors.
`EynfsBytes` says where everything stands on the disk, byte by byte, and `EynfsLookup` what a tree holds, name by name:
both without the functions that encode, decode and walk.

**The kernel IPC layer.** `IpcState` gives pipes, FIFOs, PTYs and descriptors as a state machine over
queues, one step per system call; a call that sleeps is a step that re-checks its guard. `IpcInvariant` is
reference counting, `IpcStreams` the byte streams, `IpcLaws` what follows for callers and `IpcFailures` runs on
which a promise fails. `IpcCalls` turns a call as a program makes it, with 0, 1 and 2 remapped, into such a step.
`IpcRing`, `IpcBuffers` and `IpcKernel` are the code: ring buffers in arrays, transfer loops, tables updated in
place. Each method of `IpcKernel.Kernel` is proved to be one step of the state machine, and `Serve` any run of
them, so the laws are laws of the code. `IpcOutcomes` says of every call what it answers and what it leaves, from the
descriptors and queues before it. Capacities are symbolic and positive.

**PackBits and the REIV container.** `PackBits` is the decoder, `PackBitsEncoders` the two encoders as one
greedy cutter with a run threshold of three or two; `PackBitsGreedy` describes the cut itself and shows it is the
only one of its kind. `Reiv` is the frame loop of the converter, `ReivPlayer` the file and the player, `ReivChoice`
the form of each frame and the bytes of the file. The player's helpers that read or skip an exact number of bytes of
a descriptor are not part of this model; they are taken to do that or to fail.

**Smaller pieces.** `ClipLine` (integer Cohen-Sutherland; `ClipReject` says what it may leave out), `Console` (control
sequences in the console byte stream), `EventRing` (the GUI event ring) and `SegDom` (segment
descriptors, decoded as in section 3.4.5 of volume 3A of the Intel SDM).

## What the code does not do

Some intended properties hold only under a condition. The code is modelled as it is, and the condition is
proved exact where the table says so.

- The kernel formatter lays a volume out as the host does if and only if `sector_count + 7` does not wrap in
  32 bits (`EynfsFormat.FormatKernel`, example `EynfsFormat.KernelWraps`).
- End of file on an anonymous pipe is not permanent: the write path does not look at which end a descriptor
  is, so a read descriptor can fill the pipe again (`IpcLaws.EofBroken`; from boot, `IpcFailures.EofBrokenFromBoot`).
  It is permanent exactly as long as nobody does that (`IpcLaws.EofStep`, `IpcLaws.EofForever`).
- A write to a pipe with bytes in the spool and room in the ring goes ahead of the spooled bytes; a run from boot
  gets there (`IpcFailures.SpillFromBoot`). Order is kept for all data if and only if the spool is empty or the
  ring full (`IpcStreams.InOrderIff`). Writing everything before reading, as the shell's pipelines do, is safe
  (`IpcLaws.WriterFirst`).
- The fallback that is to keep remapped output from vanishing looks at mappings above 2 only: output reaches
  something if and only if its mapping is not 0 (`IpcCalls.StdioReachesIff`), and 0 is accepted as a mapping
  (`IpcCalls.OutputLost`).
- The copier raises on a name that is not UTF-8, cuts names at 31 bytes, and takes a backslash in a directory name
  for a slash. It stores a host tree exactly if and only if all names are UTF-8 of at most 31 bytes, no directory
  name holds a backslash and sizes fit 32 bits (`EynfsNames.StoresIff`, inputs `EynfsNames.LongNameInput`,
  `NotUtf8Input`, `BackslashInput`, `BackslashMerged`).
- A mapping computes its length, its end and its file offsets in 32 bits, unchecked. It shows the pages asked for if
  and only if none of these wraps (`EynfsCursor.MmapIff`, example `EynfsCursor.MmapWraps`).
- The line clipper multiplies in 32 bits. Its arithmetic is safe for every clip rectangle if and only if the segment's
  box has 32-bit sides and area (`ClipLine.NarrowIff`, example `ClipLine.OverflowInput`).
- A seek returns its position as a signed 32-bit number. All successful seeks report correctly if and only if the
  file is shorter than 2^31 bytes (`EynfsCursor.SeekReportIff`); at 2^32 - 1 bytes, and only there, a successful
  seek to the end returns -1, the value that means an error (`EynfsCursor.SeekCollidesIff`).
- The image encoder's output can exceed the one-byte-in-128 bound for single-byte units, and only for these
  (`PackBitsEncoders.ImageBoundIff`, example `PackBitsEncoders.ImageOverruns`). It is not decodable for an input
  that ends in a partial unit (`PackBitsEncoders.ImageRoundTripIff`).
- The extractor does not look at an entry's type: asked for a directory it writes an empty file
  (`EynfsPaths.ExtractFromRoot`).
- The user range check refuses every range of a segment that ends exactly at 2^32 (`SegDom.Domain.TopRefused`).

## Model

| member | source | states |
|---|---|---|
| `Bytes.Le32RoundTrip` | devtools/copy_testdir_to_eynfs.py:282-287 | the 4-byte little-endian chain pointer reads back as written |
| `Bytes.FromLe32RoundTrip` | devtools/copy_testdir_to_eynfs.py:232-233 | reading and rewriting a pointer leaves its four bytes alone |
| `Bytes.MarkBit` | devtools/copy_testdir_to_eynfs.py:139-143 | marking a block used sets its bitmap bit and no other |
| `Bytes.CStrUnique` | grub-module-src/eynfs.c:60-79 | a NUL-terminated field names exactly one string |
| `EynfsSector.NameSurvives` | devtools/copy_testdir_to_eynfs.py:253-256 | a host name can be encoded and comes back from its 32-byte field if and only if it is UTF-8, has at most 31 bytes and no NUL |
| `EynfsSector.EntryRoundTrip` | devtools/copy_testdir_to_eynfs.py:294-296 | a directory entry with such a name decodes to what was encoded: name, kind, size and first block; where each of them stands is in EynfsBytes.EncodedBytes |
| `EynfsSector.SetSlotHolds` | devtools/copy_testdir_to_eynfs.py:294-296 | writing an entry makes its slot hold that entry, used, whatever was there |
| `EynfsSector.SetSlotEffect` | devtools/copy_testdir_to_eynfs.py:294-296 | writing one slot leaves the chain pointer and the other eight slots alone |
| `EynfsBytes.EncodedBytes` | devtools/copy_testdir_to_eynfs.py:294-296 | the 52 bytes of an entry, by arithmetic: name and NULs at 0, kind at 32, zeros at 33, size at 36, first block at 40, zeros at 44 |
| `EynfsBytes.DecodedBytes` | grub-module-src/eynfs.c:41-51 | the same layout for what a reader takes out of any 52 bytes |
| `EynfsBytes.StoredEntryBytes` | grub-module-src/eynfs.c:41-51 | entry k of a stored directory stands at byte 4 + 52 * (k % 9) of its block k / 9 |
| `EynfsBytes.FreeSlotBytes` | grub-module-src/eynfs.c:140-180 | behind the entries a slot's name and kind bytes say that it is free |
| `EynfsBytes.ChainBytes` | devtools/copy_testdir_to_eynfs.py:282-287 | bytes 0 to 3 of each block of a chain are the next block's number, lowest byte first, and 0 in the last |
| `EynfsBytes.ContentByte` | devtools/copy_testdir_to_eynfs.py:258-292 | byte n of a file is byte 4 + n % 508 of block n / 508 of its chain |
| `EynfsBytes.ImageEntryBytes` | devtools/copy_testdir_to_eynfs.py:294-296 | on the image of a copy each entry's bytes give the name, the type and the size of the host's file and the first block of its chain, and its reserved bytes are zero |
| `EynfsBytes.BitPlace` | devtools/copy_testdir_to_eynfs.py:139-143 | block n's bit in the bitmap is bit n % 8 of byte n / 8 |
| `EynfsFormat.CreateBitmap` | devtools/create_partitioned_disk.py:98-113 | the bitmap of a new volume has exactly bits 0..root set |
| `EynfsFormat.SuperblockFields` | devtools/create_partitioned_disk.py:82-95 | behind magic number, version and block size, the superblock gives back block count, root, bitmap and name table where the readers look for them |
| `EynfsBytes.SuperblockBytes` | devtools/create_partitioned_disk.py:82-95 | the superblock byte by byte: EYNF, version 1 and 512, then the four numbers, each four bytes, lowest first |
| `EynfsBytes.VolumeBytes` | devtools/create_partitioned_disk.py:217-242 | an empty volume of n blocks holds n, the root's, the bitmap's and the name table's numbers at these places, and the name table and the root are zero |
| `EynfsBytes.VolumeLayout` | devtools/create_partitioned_disk.py:217-242 | the bitmap has just enough blocks, of 4096 bits each |
| `EynfsBytes.VolumeBit` | devtools/create_partitioned_disk.py:98-113 | bit b of an empty volume's bitmap sectors is set if and only if b is at most the root |
| `EynfsFormat.FormatHost` | devtools/create_partitioned_disk.py:217-242 | the host formatter yields an empty volume, sector by sector as the format defines it |
| `EynfsFormat.BitmapSector` | src/cpu/isr.c:2333-2341 | one bitmap sector built by the kernel's scan is that sector of the whole reserved bitmap |
| `EynfsFormat.FormatKernel` | src/cpu/isr.c:2297-2350 | the kernel formatter, on any partition contents, yields an empty volume if and only if sector_count + 7 < 2^32 |
| `EynfsFormat.FormattedAgree` | src/cpu/isr.c:2297-2350 | two empty volumes of one size agree on superblock, bitmap, name table and root sectors, so host and kernel agree wherever the kernel is right |
| `EynfsFormat.KernelLayout` | src/cpu/isr.c:2306-2313 | the kernel's 32-bit block count differs from the host's exactly when sector_count + 7 wraps |
| `EynfsFormat.KernelWraps` | src/cpu/isr.c:2306-2313 | the largest 32-bit sector count is a size at which the two formatters disagree |
| `EynfsBuilder.FirstAllocation` | devtools/copy_testdir_to_eynfs.py:145-165 | the first block handed out on an empty volume is root + 1, never block 0, or none if there is none |
| `EynfsBuilder.Builder.Alloc` | devtools/copy_testdir_to_eynfs.py:145-165 | next fit from the hint: the block was free, no free block lies between the hint and it, only its bit changes, and the hint moves behind it; none is returned only when every bit is set |
| `EynfsBuilder.Builder.Take` | devtools/copy_testdir_to_eynfs.py:145-165 | fails if and only if every block from the root up is owned; else the taken block is the one right behind the owned blocks, belonged to nobody and now has exactly one owner |
| `EynfsBuilder.FullIffCount` | devtools/copy_testdir_to_eynfs.py:145-165 | a full bitmap is the same as the owned blocks filling the volume from the root up: nothing leaks |
| `EynfsBuilder.Builder.AppendBlock` | devtools/copy_testdir_to_eynfs.py:258-292 | a fresh block linked behind the chain extends that file by the chunk and disturbs no other chain |
| `EynfsBuilder.Builder.WriteFileData` | devtools/copy_testdir_to_eynfs.py:258-292 | a file's chain carries exactly its bytes, in ceil(size/508) blocks, first block 0 for an empty file; fails exactly when they do not fit |
| `EynfsBuilder.Builder.AppendDirBlock` | devtools/copy_testdir_to_eynfs.py:226-250 | a full directory grows by one zeroed block at the end of its chain |
| `EynfsBuilder.Builder.AllocSlot` | devtools/copy_testdir_to_eynfs.py:226-250 | the slot handed out is the next unused one of the directory, growing it if needed |
| `EynfsBuilder.Builder.EnterChild` | devtools/copy_testdir_to_eynfs.py:322-348 | the entry joins its directory; the tool raises exactly when the name is not UTF-8, the size does not fit 32 bits, or no block is left for the directory to grow |
| `EynfsBuilder.Builder.AddFile` | devtools/copy_testdir_to_eynfs.py:341-348 | a new file is stored with its bytes under a new name, and the storage and linking invariants, the caches and the bitmap all hold again; it fails exactly for a name that is not UTF-8, a size of 2^32 or more, or lack of blocks |
| `EynfsBuilder.Builder.AddDir` | devtools/copy_testdir_to_eynfs.py:322-339 | an existing directory is reused, an existing file is a clash, a new directory is stored empty and the invariants hold again; it fails exactly for a name that is not UTF-8 or lack of blocks |
| `EynfsBuilder.Builder.CopyTree` | devtools/copy_testdir_to_eynfs.py:365-403 | over any sequence of walk steps, backslashes in directory paths taken as slashes, the image holds what the plan says at the plan's block cost; the copy fails if and only if the tool raises on a name, a size, a missing parent or a clash, or the cost exceeds the volume |
| `EynfsBuilder.Builder.Flush` | devtools/copy_testdir_to_eynfs.py:167-172 | the bitmap sectors on disk become the in-memory bitmap and no other sector changes |
| `EynfsBuilder.Builder.constructor` | devtools/copy_testdir_to_eynfs.py:121-132 | opening an empty volume gives an empty tree that owns only the root block, a bitmap that marks exactly the reserved blocks, and a directory cache equal to a scan |
| `EynfsBuilder.CopyImage` | devtools/copy_testdir_to_eynfs.py:405-460 | copying to a fresh volume succeeds if and only if the tool raises on nothing and the plan's blocks fit; then the image meets the storage and linking invariants and the bitmap on the disk marks exactly the reserved and the owned blocks |
| `EynfsBytes.CopiedBit` | devtools/copy_testdir_to_eynfs.py:145-165 | after a copy the bitmap has no gap: the bits set are those up to the root and, counting the root, as many from there on as blocks were taken |
| `EynfsBuilder.TakesNext` | devtools/copy_testdir_to_eynfs.py:145-165 | blocks taken one after another follow one another, so next fit finds the block behind the last one |
| `EynfsDirState.LoadDirState` | devtools/copy_testdir_to_eynfs.py:175-215 | one pass over a directory chain collects its free slots and the names that decode as UTF-8, slot by slot |
| `EynfsDirState.CacheIsScan` | devtools/copy_testdir_to_eynfs.py:175-224 | the cache kept while adding entries is at every moment what a fresh scan of the disk would give, up to names that do not decode |
| `EynfsLayout.GrowFileKeepsCore` | devtools/copy_testdir_to_eynfs.py:258-292 | extending a file keeps all chains zero-terminated, in range, pairwise disjoint and owned |
| `EynfsLayout.GrowDirKeepsCore` | devtools/copy_testdir_to_eynfs.py:226-250 | growing a directory keeps the same storage invariant |
| `EynfsLayout.NewDirKeepsCore` | devtools/copy_testdir_to_eynfs.py:322-339 | storing a new empty directory keeps the same storage invariant |
| `EynfsLayout.AddEntryKeepsCore` | devtools/copy_testdir_to_eynfs.py:294-296 | writing an entry into the next free slot keeps the same storage invariant |
| `EynfsLayout.ChainsDisjoint` | devtools/copy_testdir_to_eynfs.py:226-292 | the chains of different files and directories share no block, and none touches a block below the root |
| `EynfsTree.EnterKeepsLinked` | devtools/copy_testdir_to_eynfs.py:322-348 | entering the pending child makes entries and tree agree again |
| `EynfsWalk.WalkFromRoot` | devtools/copy_testdir_to_eynfs.py:365-403 | the walk of any valid tree (UTF-8 names of at most 31 bytes, no backslash in directory names) is a well-formed source; its plan stores exactly the tree's files and directories at the closed-form cost |
| `EynfsLookup.RootLookup` | devtools/copy_testdir_to_eynfs.py:365-403 | the files and directories of the walk are those found by going down from the root name by name |
| `EynfsNames.StoresIff` | devtools/copy_testdir_to_eynfs.py:365-403 | of all trees a host may have, with any names and sizes, the walk goes through and its plan holds exactly the tree under names that read back, if and only if every name is UTF-8 of at most 31 bytes, no directory name holds a backslash and every size fits 32 bits |
| `EynfsNames.CopyHostTree` | devtools/copy_testdir_to_eynfs.py:405-460 | the same of the image: on a volume with room the copy succeeds and holds exactly the tree if and only if the tree is of that kind |
| `EynfsNames.LongNameInput` | devtools/copy_testdir_to_eynfs.py:253-256 | a file with a name of 32 bytes, which is stored under the first 31 |
| `EynfsNames.NotUtf8Input` | devtools/copy_testdir_to_eynfs.py:253-256 | a tree of one file named 0xFF, on which the copy raises |
| `EynfsNames.BackslashInput` | devtools/copy_testdir_to_eynfs.py:378-386 | a tree with a directory a\b and no a, on which the copy raises for want of a parent |
| `EynfsNames.BackslashMerged` | devtools/copy_testdir_to_eynfs.py:378-386 | with an a beside it the copy goes through and stores the file under a/b, not where the host has it |
| `EynfsMounts.TreeMerge` | devtools/copy_testdir_to_eynfs.py:365-403 | a walk under a destination that may exist already, into any plan whose files it does not touch, is a well-formed source and adds exactly the tree, directories merged |
| `EynfsMounts.MountsStored` | devtools/copy_testdir_to_eynfs.py:438-455 | any number of trees copied in turn, each under its destination, store exactly all their files and directories |
| `EynfsLookup.MountHolds` | devtools/copy_testdir_to_eynfs.py:438-455 | a file found in one of the trees is stored under that tree's destination with its bytes |
| `EynfsLookup.MountFrom` | devtools/copy_testdir_to_eynfs.py:438-455 | whatever is stored is found in one of the trees |
| `EynfsMounts.CopyMountsThenGrubRead` | devtools/copy_testdir_to_eynfs.py:405-460 | the copier's main with all its trees of valid names, one flush at the end, then any read of any path: the slice of the host file, or an error exactly where no file is stored; the copy fails if and only if the blocks do not fit |
| `EynfsWalk.TreeUsed` | devtools/copy_testdir_to_eynfs.py:365-403 | the blocks a tree takes are its data blocks plus ceil(names/9), at least one, per directory |
| `EynfsCapacity.ComputeTreeStats` | devtools/build_installer_ramdisk.py:175-184 | the accumulated counts over a walk are the sums over its steps |
| `EynfsCapacity.StatsOfWalk` | devtools/build_installer_ramdisk.py:175-184 | the walk counts every byte, every file and every subdirectory of the tree exactly once |
| `EynfsLookup.TreeTotals` | devtools/build_installer_ramdisk.py:175-184 | the counts of a tree are the number of its files, the sum of their sizes and the number of its directories |
| `EynfsCapacity.PickPartitionSize` | devtools/build_installer_ramdisk.py:187-206 | the sectors chosen are the size formula applied to the tree's own counts |
| `EynfsCapacity.TreeBound` | devtools/build_installer_ramdisk.py:190-194 | the blocks of a tree are bounded linearly in its bytes, files and directories |
| `EynfsCapacity.TreeFits` | devtools/build_installer_ramdisk.py:187-206 | for every staged tree the chosen partition covers superblock, bitmap, name table and every block of the copy |
| `EynfsCapacity.SizeIsLeast` | devtools/build_installer_ramdisk.py:187-206 | and it is no larger than it has to be: the least number of sectors, 6144 or more, for a tenth more than the bytes, a kilobyte a file and directory, and 768 kilobytes |
| `EynfsCapacity.BuildThenRead` | devtools/build_installer_ramdisk.py:325-344 | stage, size, format, copy, read back: no free-block failure at the default headroom, and every path reads back exactly |
| `EynfsReaders.NameEq` | grub-module-src/eynfs.c:60-79 | the bounded comparison is equality of the name with the NUL-terminated field |
| `EynfsReaders.FindInDir` | grub-module-src/eynfs.c:140-180 | the search returns the first used slot of that name in chain order, or not found |
| `EynfsReaders.FindStored` | grub-module-src/eynfs.c:140-180 | on a stored directory that is exactly its entry of that name, if it has one |
| `EynfsReaders.SecondUnreached` | grub-module-src/eynfs.c:140-180 | a second entry of one name is never found: the search yields the first |
| `EynfsReaders.GrubRead` | grub-module-src/eynfs.c:337-393 | a read at any offset and length returns exactly that slice of the file |
| `EynfsReaders.ExtractFile` | devtools/extract_from_eynfs.py:74-91 | the whole-file reader returns the file's bytes |
| `EynfsPaths.ResolveExact` | grub-module-src/eynfs.c:182-235 | resolution succeeds if and only if the path is stored, and reports a non-directory if and only if a proper prefix is a file |
| `EynfsPaths.PiecesResolve` | grub-module-src/eynfs.c:208-214 | the 128-byte component buffer never changes an answer, because no stored name is that long |
| `EynfsPaths.ComponentTaken` | grub-module-src/eynfs.c:182-235 | a component of a path reaches to the next slash or to the end |
| `EynfsPaths.JoinedComponents` | grub-module-src/eynfs.c:182-235 | names joined with slashes are taken apart into the same names |
| `EynfsPaths.Traverse` | grub-module-src/eynfs.c:182-235 | walking a path string on the image agrees with resolution in the tree, error cases included, and describes the object found |
| `EynfsPaths.GrubOpenRead` | grub-module-src/eynfs.c:299-393 | open then read gives the slice of the file at that path, and fails with the right error otherwise |
| `EynfsPaths.ReadBytes` | grub-module-src/eynfs.c:337-393 | byte k of an answer is byte offset + k of the file; it has at most the length asked for, and less only at the end of the file |
| `EynfsPaths.ReadDirTable` | devtools/extract_from_eynfs.py:39-72 | the table is the directory's entries in order; the extractor raises exactly when one of their names is not UTF-8 |
| `EynfsPaths.ExtractFromRoot` | devtools/extract_from_eynfs.py:93-121 | the extractor finds a root entry by name: a file gives its bytes, a directory an empty file, any other name nothing |
| `EynfsPaths.CopyThenGrubRead` | devtools/copy_testdir_to_eynfs.py:365-403 | copy any valid tree to a fresh volume; if it fits, reading any path at any offset through GRUB gives that slice of the source file |
| `EynfsPaths.CopyThenExtract` | devtools/extract_from_eynfs.py:74-121 | on the same image the extractor returns every root file byte for byte, and every root directory as an empty file |
| `EynfsCursor.ReadFileFast` | src/drivers/eynfs.c:1433-1533 | reads through a cursor that is unset or names chain block k at offset 508k return what a walk from the first block returns, and leave such a cursor |
| `EynfsCursor.FileTable.ReadFile` | src/cpu/isr.c:2773-2846 | a read advances the position by what it returned and answers as the plain file does, the missing-buffer case included |
| `EynfsCursor.FileTable.SeekFd` | src/cpu/isr.c:2978-3023 | a seek lands in [0, size], drops the cursor when it goes back, and keeps the descriptor sound |
| `EynfsCursor.SeekStays` | src/cpu/isr.c:2992-2996 | no seek leaves [0, size] |
| `EynfsCursor.SeekLands` | src/cpu/isr.c:2978-3023 | a seek by delta lands delta behind the start, the position or the end, cut at the end; before the start, and from anything else, it is an error |
| `EynfsCursor.ReadGives` | src/cpu/isr.c:2773-2846 | a read gives the bytes at the position and moves on behind them |
| `EynfsCursor.ReadsJoin` | src/cpu/isr.c:2773-2846 | two reads in a row give what one read of both lengths gives, and end where it ends |
| `EynfsCursor.SeekReportIff` | src/cpu/isr.c:2992-3022 | every successful seek on a file returns its position if and only if the file is shorter than 2^31 bytes |
| `EynfsCursor.SeekCollidesIff` | src/cpu/isr.c:2992-3022 | some successful seek returns -1, the error value, if and only if the file has 2^32 - 1 bytes |
| `EynfsCursor.FileTable.DupFd` | src/cpu/isr.c:1459-1513 | a duplicate has the same position and cursor and disturbs no other descriptor |
| `EynfsCursor.FileTable.DupOntoFd` | src/cpu/isr.c:1459-1513 | the same for a duplicate onto a descriptor that is open already, which it replaces |
| `EynfsCursor.DupsApart` | src/cpu/isr.c:1459-1513 | a duplicate starts where the original is and is a descriptor of its own |
| `EynfsCursor.PageByte` | src/cpu/isr.c:4485-4500 | byte j of page k, as asked for and as mapped, is the file's byte at that offset or zero past the end; the mapped offset is taken modulo 2^32 |
| `EynfsCursor.FileTable.MapPages` | src/cpu/isr.c:4469-4508 | the page loop, with its 32-bit length, address and offset, maps zero-padded pages of the file through the shared cursor, and positions stay |
| `EynfsCursor.MmapIff` | src/cpu/isr.c:4428-4478 | the mapped pages are those asked for, whatever the file, if and only if neither the end of the mapping nor the file offset of its last page reaches 2^32 |
| `EynfsCursor.MmapWraps` | src/cpu/isr.c:4323-4323 | two pages at page index 0xFFFFF of a one-byte file: the second shows the file's first byte |
| `EynfsCursor.FileTable.Run` | src/cpu/isr.c:2773-3023 | any run of seeks, reads, dups and mmaps answers as plain positions over plain bytes do, if no mapping of the run wraps; in any case as plain positions with the 32-bit page arithmetic do |
| `IpcRing.WindowAdvance` | src/cpu/isr.c:1185-1200 | taking a contiguous chunk off the front moves the window on modulo the capacity |
| `IpcRing.WindowExtend` | src/cpu/isr.c:1202-1219 | storing a contiguous chunk at the write position appends it to the window |
| `IpcRing.Ring.CopyOut` | src/cpu/isr.c:1185-1200 | the bytes leaving the ring are the longest prefix asked for; the rest stays, in order, wrap or not |
| `IpcRing.Ring.CopyIn` | src/cpu/isr.c:1202-1219 | as many bytes as there is room for join the back, in order |
| `IpcBuffers.Buffers.ReadRings` | src/cpu/isr.c:1221-1250 | the two-ring read is the queue read: ring first, then spool; when it reports the end, fails or sleeps is in IpcOutcomes.PipeReadAnswers |
| `IpcBuffers.Buffers.FillRings` | src/cpu/isr.c:1262-1298 | the write loop ends with ring and spool filled by exactly what both had room for; its fall-through is unreachable |
| `IpcBuffers.PlacedForm` | src/cpu/isr.c:1280-1294 | placing bytes one by one, ring while it has room, is filling the ring and then the spool |
| `IpcBuffers.Buffers.FillPty` | src/cpu/isr.c:1385-1403 | the PTY write loop ends with the peer's queue filled by what it had room for |
| `IpcKernel.Kernel.constructor` | src/cpu/isr.c:1063-1065 | zeroed tables stand for the boot state |
| `IpcKernel.Kernel.Dispatch` | src/cpu/isr.c:4671-5190 | every call on the in-place tables is the corresponding step of the state machine, with the same answer |
| `IpcKernel.Kernel.SystemCall` | src/cpu/isr.c:4625-4820 | a call as a program makes it: 0, 1 and 2 through their mappings with the fallback to the console, zero lengths answered at once, transfers clamped, then the step of the state machine |
| `IpcKernel.Kernel.Serve` | src/cpu/isr.c:4625-5190 | any run of such calls leaves the tables in the state the machine's run of the resulting steps ends in, with the same answers |
| `IpcCalls.StdioReachesIff` | src/cpu/isr.c:4634-4645 | after any run from boot, a non-empty write to 1 or 2 reaches the console or an open descriptor if and only if its mapping is not 0, and a read of 0 if and only if its mapping is neither 1 nor 2 |
| `IpcCalls.OutputLost` | src/cpu/isr.c:5144-5163 | mapping standard output to 0 is accepted, and then every non-empty write to it fails |
| `IpcKernel.Kernel.ReleaseFd` | src/cpu/isr.c:1406-1457 | closing drops one reference and destroys what nobody holds |
| `IpcKernel.Kernel.DuplicateInto` | src/cpu/isr.c:1459-1513 | dup releases the target slot, counts one more reference and copies the descriptor, or fails on a dead object |
| `IpcKernel.Kernel.PipeCreate` | src/cpu/isr.c:1574-1614 | a pipe takes the two lowest free descriptors, or rolls back to the tables as they were |
| `IpcKernel.Kernel.PtyCreate` | src/cpu/isr.c:1616-1660 | the same for a PTY's master and slave |
| `IpcKernel.Kernel.Deliver` | src/cpu/isr.c:5032-5073 | when the result cannot be copied out both new ends are released |
| `IpcKernel.Kernel.FifoOpen` | src/cpu/isr.c:4862-4887 | opening a FIFO finds or creates it and counts the descriptor on the end asked for |
| `IpcKernel.Kernel.FifoMake` | src/cpu/isr.c:5074-5137 | mkfifo finds, refuses or creates, by what the file system says of the path on the current and on the physical drive |
| `IpcKernel.Kernel.SpoolCall` | src/cpu/isr.c:1155-1183 | switching the spool on needs a buffer, switching it off discards its bytes |
| `IpcKernel.Kernel.PipeMaybeDestroy` | src/cpu/isr.c:1107-1129 | an unreferenced FIFO is emptied and kept, any other unreferenced pipe is gone |
| `IpcKernel.Kernel.ResetCall` | src/cpu/isr.c:1662-1672 | reset leaves no descriptor, pipe or PTY in use |
| `IpcOutcomes.HoldersAreOpen` | src/cpu/isr.c:1406-1513 | the number of holders of an end is the number of descriptors open on it |
| `IpcOutcomes.PipeReadAnswers` | src/cpu/isr.c:1221-1250 | a pipe read takes the bytes in front, up to what is asked for; on an empty pipe it reports the end if no write descriptor is open, else it fails when non-blocking or interrupted and sleeps otherwise |
| `IpcOutcomes.PipeEof` | src/cpu/isr.c:1227-1231 | a pipe read of at least one byte reports end of file if and only if nothing is buffered and no write descriptor is open |
| `IpcOutcomes.PtyReadAnswers` | src/cpu/isr.c:1320-1357 | the same three cases for a PTY, with the peer side for the writers |
| `IpcOutcomes.PipeWriteAnswers` | src/cpu/isr.c:1252-1299 | a pipe write fails without a reader; else it takes what fits, and with bytes left over it sleeps, or, when non-blocking or interrupted, gives the count, or fails if that is 0 |
| `IpcOutcomes.PipeResumeAnswers` | src/cpu/isr.c:1262-1298 | a write that slept goes on like that |
| `IpcOutcomes.PtyWriteAnswers` | src/cpu/isr.c:1359-1404 | the same for a PTY by the room towards the peer |
| `IpcOutcomes.OtherAnswers` | src/cpu/isr.c:4671-4687 | transfers on a closed descriptor fail and change nothing |
| `IpcOutcomes.PipeMade` | src/cpu/isr.c:1574-1614 | a new pipe is the lowest unused one, on the two lowest free descriptors, read end first, with one reader and one writer; else nothing changes |
| `IpcOutcomes.PtyMade` | src/cpu/isr.c:1616-1660 | the same for a PTY, master first |
| `IpcOutcomes.FileOpened` | src/cpu/isr.c:4912-4914 | a file takes the lowest free descriptor |
| `IpcOutcomes.FifoOpened` | src/cpu/isr.c:4862-4887 | opening a known FIFO takes the lowest free descriptor on the end asked for and counts one more reader or writer |
| `IpcOutcomes.FifoAdopted` | src/cpu/isr.c:4862-4887 | a FIFO only the file system knows becomes the lowest unused pipe, with the end asked for; without a free descriptor the open fails and the FIFO stays |
| `IpcOutcomes.FifoLeft` | src/cpu/isr.c:4862-4887 | any other path goes on to the file system |
| `IpcOutcomes.FifoMade` | src/cpu/isr.c:5074-5137 | mkfifo succeeds exactly when the FIFO exists, or the file system has it or takes its marker and a pipe is left, and only then adds it |
| `IpcOutcomes.Closed` | src/cpu/isr.c:1406-1457 | a close frees the descriptor, counts the open descriptors that are left, and removes what nobody holds; 0, 1, 2 and free descriptors close without effect |
| `IpcOutcomes.Duplicated` | src/cpu/isr.c:4969-4995 | a duplicate is the lowest free descriptor on the same object with the same flag |
| `IpcOutcomes.DuplicatedOnto` | src/cpu/isr.c:4996-5030 | duplicating onto 0, 1 or 2 sets that mapping, onto itself does nothing, onto another descriptor closes that one first |
| `IpcOutcomes.NonblockSet` | src/cpu/isr.c:1558-1566 | the flag of an open descriptor becomes what is asked for |
| `IpcOutcomes.SpoolSet` | src/cpu/isr.c:1155-1183 | switching the spool on needs a buffer unless it is on; switching it off drops its bytes; only pipes have one |
| `IpcOutcomes.StdioSet` | src/cpu/isr.c:5144-5163 | all three mappings are set, each to what is given for it, or none |
| `IpcOutcomes.AllReset` | src/cpu/isr.c:1662-1672 | after a reset every descriptor, pipe and PTY is unused and the mappings are as they were |
| `IpcOutcomes.MappedWrites` | src/cpu/isr.c:4625-4650 | after a duplication onto 1 or 2 a write there is a write to that descriptor |
| `IpcOutcomes.MappedReads` | src/cpu/isr.c:4625-4650 | after a duplication onto 0 a read there is a read of that descriptor |
| `IpcOutcomes.ConsoleAnswers` | src/cpu/isr.c:4647-4669 | with 0, 1 and 2 mapped to themselves their transfers go to the console and change nothing |
| `IpcOutcomes.AtBoot` | src/cpu/isr.c:1063-1065 | at boot nothing is open, and reads of 0 and writes to 1 and 2 go to the console |
| `IpcOutcomes.CallsAreCut` | src/cpu/isr.c:4649-4649 | a call moves at most 65536 bytes and is the same call cut there |
| `IpcInvariant.StepKeeps` | src/cpu/isr.c:1406-1525 | every system call keeps the reference-count invariant |
| `IpcInvariant.EveryRun` | src/cpu/isr.c:1406-1672 | after any run from boot each count equals the open descriptors on that end, no descriptor names a dead object, only FIFOs live unreferenced, FIFO paths are distinct |
| `IpcInvariant.ReleaseKeeps` | src/cpu/isr.c:1406-1457 | closing keeps the invariant, destroying what became unreferenced |
| `IpcInvariant.DupKeeps` | src/cpu/isr.c:1459-1513 | dup keeps the invariant |
| `IpcInvariant.CreatePipeKeeps` | src/cpu/isr.c:1574-1614 | pipe creation keeps the invariant, failed creation included |
| `IpcInvariant.OpenFifoKeeps` | src/cpu/isr.c:4862-4887 | opening a FIFO keeps the invariant, provided the file system never calls the empty path a FIFO |
| `IpcInvariant.NoDangling` | src/cpu/isr.c:1406-1513 | every open descriptor names a live object with a positive count |
| `IpcStreams.ReadTakesPrefix` | src/cpu/isr.c:1241-1249 | a read takes a prefix of ring-then-spool, as long as asked for and available |
| `IpcStreams.NonblockingWrite` | src/cpu/isr.c:1252-1299 | a non-blocking write takes exactly min(len, free ring + free spool) bytes and fails if and only if the pipe is dead, has no reader or has no free byte |
| `IpcStreams.InOrderIff` | src/cpu/isr.c:1280-1294 | a write appends in order, whatever its bytes, if and only if the spool is empty or the ring is full |
| `IpcStreams.StepFlow` | src/cpu/isr.c:1185-1404 | one system call: bytes buffered plus accepted are bytes delivered plus buffered, as a bag always and in order under that guard |
| `IpcStreams.StreamLaw` | src/cpu/isr.c:1185-1299 | over any run in which every write meets the guard, a held channel delivers exactly what it accepted, in order |
| `IpcStreams.NothingLost` | src/cpu/isr.c:1185-1299 | without the guard nothing is lost or invented either, over any run |
| `IpcStreams.PtyStreams` | src/cpu/isr.c:1320-1404 | each PTY direction is an in-order stream of its own over any run |
| `IpcStreams.PtyStepFlow` | src/cpu/isr.c:1320-1404 | a PTY transfer moves one direction and leaves the other alone |
| `IpcLaws.PipeStream` | src/cpu/isr.c:1185-1299 | a pipe whose spool is never switched on delivers exactly the bytes accepted, in order, while some descriptor is open on it |
| `IpcLaws.WriterFirst` | src/cpu/isr.c:1252-1299 | when all writing comes before any reading even a spooled pipe keeps every byte in order |
| `IpcFailures.SpillFromBoot` | src/cpu/isr.c:1252-1299 | on a run from boot, a byte written after a read of a spilled pipe is waiting in front of an older spooled byte |
| `IpcLaws.EofStep` | src/cpu/isr.c:1221-1231 | from end of file one call leaves a still-readable anonymous pipe at end of file if and only if it is not a non-empty write through one of the pipe's own descriptors |
| `IpcLaws.EofForever` | src/cpu/isr.c:1221-1231 | over any run without such a write end of file is permanent and nothing is delivered |
| `IpcLaws.EofReads` | src/cpu/isr.c:1227-1231 | at end of file every read returns no bytes at once |
| `IpcLaws.EofBroken` | src/cpu/isr.c:4672-4677 | at end of file a write through any read descriptor is accepted and read back, blocking or not: the write path does not look at the descriptor's end |
| `IpcFailures.EofBrokenFromBoot` | src/cpu/isr.c:4672-4677 | a run from boot reaches such an end of file: make a pipe and close its write end |
| `IpcLaws.PtyEof` | src/cpu/isr.c:1348-1353 | a PTY read reports end of file if and only if its buffer is drained and no descriptor is open on the peer side |
| `PackBits.RleDecode` | src/drivers/reis.c:31-65 | the in-place decoder fills the buffer exactly as the packet semantics says, or fails exactly when that has no value |
| `PackBits.NeverNoOp` | devtools/audio_to_reis.py:32-35 | a control byte of a packet of 1..128 units is never 0x80 and its sign tells runs from literals |
| `PackBits.PacketDecodes` | src/drivers/reis.c:39-62 | decoding a packet puts its content in front of what the rest gives |
| `PackBits.DecoderEquations` | src/drivers/reis.c:39-62 | 128 is passed over; below it one more than that many units follow, above it the next unit is repeated 257 less that many times; what fits neither the input nor the room fails |
| `PackBits.CopiesBytes` | src/drivers/reis.c:39-62 | a repeated unit, byte by byte |
| `PackBitsEncoders.AudioEncode` | devtools/audio_to_reis.py:41-83 | the audio encoder emits the packets of the greedy cut with runs from three units on; PackBitsGreedy says which these are |
| `PackBitsEncoders.ImageEncode` | devtools/png_to_rei.py:268-305 | the image encoder emits the packets of the greedy cut with runs from two units on; PackBitsGreedy says which these are |
| `PackBitsEncoders.AudioRle` | devtools/audio_to_reis.py:28-83 | on bytes: a partial unit at the end is dropped |
| `PackBitsEncoders.ImageRle` | devtools/png_to_rei.py:268-305 | on bytes: a partial unit at the end is kept |
| `PackBitsGreedy.EncodesGreedily` | devtools/audio_to_reis.py:41-81 | whatever borders cut the data into greedy pieces, the encoding is those pieces' packets: a piece of equal units is a run, 257 less its length and the unit, any other its length less one and the units |
| `PackBitsGreedy.GreedyUnique` | devtools/audio_to_reis.py:41-81 | there is one greedy cut only: a piece is a run if and only if the least number of equal units starts there; a run under 128 units ends at the data's end or at a different unit, a literal at the end or at such a start |
| `PackBitsGreedy.GreedyExists` | devtools/png_to_rei.py:276-304 | and there is one for all data |
| `PackBitsGreedy.PieceOnData` | devtools/png_to_rei.py:276-304 | a piece of the data, byte by byte |
| `PackBitsEncoders.FirstOk` | devtools/audio_to_reis.py:54-81 | every packet cut has 1..128 whole units and stands for exactly the units it takes |
| `PackBitsEncoders.RoundTrip` | devtools/audio_to_reis.py:28-83 | the one decoder inverts both encoders on every whole number of units |
| `PackBitsEncoders.ImageRoundTripIff` | devtools/png_to_rei.py:268-305 | for the image encoder the round trip holds if and only if the input is a whole number of units; otherwise decoding fails |
| `PackBitsEncoders.EncodedSize` | devtools/audio_to_reis.py:41-81 | worst case n*p + ceil(n/128) bytes for n units of p bytes: audio for every p, image for p of at least 2 |
| `PackBitsEncoders.ImageBoundIff` | devtools/png_to_rei.py:276-304 | the image encoder's output meets that bound for every input of whole units if and only if p is at least 2 |
| `PackBitsEncoders.ImageOverruns` | devtools/png_to_rei.py:276-304 | an input of six single-byte units whose encoding has eight bytes, one over the bound |
| `PackBitsEncoders.EncodedSizeBytewise` | devtools/png_to_rei.py:276-304 | for single bytes the image encoder adds at most one byte in three |
| `Reiv.DeltaUndone` | devtools/png_to_rei.py:212-214 | the XOR delta applied to the previous frame gives the frame back |
| `Reiv.ChosenDecodes` | devtools/png_to_rei.py:199-230 | whatever form the loop chose decodes to the frame over the previous one, a due key frame over anything, and is never longer than a raw frame |
| `Reiv.Convert` | devtools/png_to_rei.py:179-247 | the loop over the pixel stream: partial frame, no frame, or exactly the index and payloads of the frames' forms; which form each frame gets is in ReivChoice.EntryChoice |
| `ReivChoice.EntryChoice` | devtools/png_to_rei.py:188-234 | entry k is the packed difference (flags 6) if and only if k is no multiple of fps, or of 30, and that is shorter than the frame and at most nine tenths of it; else the packed pixels (flags 1) if they are shorter, else the frame; its payload stands in the region at its offset |
| `ReivChoice.OffsetsAddUp` | devtools/png_to_rei.py:232-235 | each entry starts where the one before ends, the first at 0, and the last ends the region |
| `ReivChoice.FrameBytes` | devtools/png_to_rei.py:181-186 | frame k of the stream is its bytes from k times the frame size on |
| `ReivChoice.XorByteDiffers` | devtools/png_to_rei.py:212-214 | a bit of the difference is set if and only if the two bits differ |
| `ReivChoice.HeaderLayout` | devtools/png_to_rei.py:46-61 | the header's 28 bytes, by arithmetic |
| `ReivChoice.FileLayout` | devtools/png_to_rei.py:249-255 | behind it twelve bytes an entry, offset, size and flags, and then the payloads |
| `ReivChoice.FormsOfFlags` | testdir/.view/reiv.backend.inc:209-248 | which form each combination of flags stands for, and when it fails |
| `ReivChoice.OpensIff` | testdir/.view/reiv.backend.inc:36-117 | exactly which byte strings the player opens |
| `ReivChoice.RawPlays` | testdir/.view/reiv.backend.inc:194-207 | a file without an index is shown frame after frame, from its bytes as they are |
| `Reiv.IndexFinds` | devtools/png_to_rei.py:232-235 | offsets are the running sums of sizes and each entry cuts out its own payload |
| `Reiv.DecodesOn` | testdir/.view/reiv.backend.inc:209-248 | from a key frame on, over whatever was shown before, decoding reproduces the frames |
| `Reiv.SeekCost` | devtools/png_to_rei.py:188-197 | any frame is recovered from any state by decoding at most keyint consecutive frames that end with it |
| `ReivPlayer.OpensAsWritten` | testdir/.view/reiv.backend.inc:36-117 | of all files that could be packed, the player opens exactly those up to 640 by 480 with at least one frame and at most 8 MiB of index, with the index and payloads as they were written |
| `ReivPlayer.Player.DecodeNext` | testdir/.view/reiv.backend.inc:186-249 | the in-place player shows the next frame, ends, or reports a broken file, as the playback function says |
| `ReivPlayer.PlaysOnce` | testdir/.view/reiv.backend.inc:186-249 | from anywhere the frames still to come are shown once, in order |
| `ReivPlayer.PlaysRound` | testdir/.view/reiv.backend.inc:119-146 | a looping clip plays its frames round and round for as many calls as are made |
| `ReivPlayer.ThenEnds` | testdir/.view/reiv.backend.inc:189-192 | a clip that does not loop shows its remaining frames and the next call reports the end, not a broken file |
| `ReivPlayer.ConvertThenPlay` | devtools/png_to_rei.py:249-255 | a pixel stream of whole frames, converted, written, opened and played, shows exactly its frames |
| `ClipLine.ClipSegment` | src/cpu/isr.c:1923-1969 | the clipping loop ends and computes the clipped segment, never through a zero divisor; what that is, is in ClipReject; integers are unbounded here |
| `ClipLine.ClipEnd` | src/cpu/isr.c:1942-1960 | clipping an outside end never divides by zero, stays in the segment's box, and leaves the end cheaper or the segment beyond one edge |
| `ClipLine.NarrowIff` | src/cpu/isr.c:1942-1960 | no step of the loop leaves 32 bits, whatever the clip rectangle, if and only if the sides and the area of the segment's box are 32-bit ints |
| `ClipLine.OverflowInput` | src/cpu/isr.c:1942-1960 | a segment whose first product at the top edge overflows |
| `ClipLine.FewClips` | src/cpu/isr.c:1930-1968 | at most two clips for each end |
| `ClipLine.ClippedInside` | src/cpu/isr.c:1930-1935 | on success both ends are inside the half-open clip rectangle and the original bounding box |
| `ClipLine.EndsKept` | src/cpu/isr.c:1923-1969 | an end inside stays put and keeps the segment alive; an end outside moves onto an edge |
| `ClipLine.HorizontalExact` | src/cpu/isr.c:1923-1969 | for horizontal segments clipping is exactly interval intersection |
| `ClipLine.VerticalExact` | src/cpu/isr.c:1923-1969 | for vertical segments likewise |
| `ClipLine.StaysOnLine` | src/cpu/isr.c:1942-1960 | truncating division moves the drawn ends off the original line by a bounded area, at most the square root of 8 pixels |
| `ClipReject.RejectedMisses` | src/cpu/isr.c:1930-1968 | a rejected segment has no point, whole or fractional, in the rectangle two pixels in from its edges |
| `ClipReject.DrawnCovers` | src/cpu/isr.c:1930-1968 | every point of an accepted segment in there is within two pixels of the box of what is drawn |
| `ClipReject.DiagonalExact` | src/cpu/isr.c:1923-1969 | for slopes 1 and -1 the pixels drawn are exactly those of the segment in the rectangle, and it is rejected exactly if there are none |
| `ClipReject.ClipEquations` | src/cpu/isr.c:1930-1968 | every clip: both ends inside, the segment stays; both beyond one edge, it goes; else the first outside end moves to the top or bottom row, or to the last or first column, as far along as C's division says by its remainder, and the rest is clipped alike |
| `Console.Terminal.Byte` | src/cpu/isr.c:2604-2655 | one byte through the control-sequence state is one more byte of the parsed stream |
| `Console.Terminal.Write` | src/cpu/isr.c:2571-2664 | a write shows what the grammar gives for the pending bytes and the new ones |
| `Console.Terminal.WriteChunked` | src/cpu/isr.c:4651-4669 | the 256-byte kernel chunks change nothing |
| `Console.SplitAnywhere` | src/cpu/isr.c:2604-2655 | parsing a stream in two parts is parsing it whole, wherever it is split |
| `Console.WritesDoNotMatter` | src/cpu/isr.c:2604-2655 | a program's output looks the same however it is cut into writes |
| `Console.SentIsMeant` | src/cpu/isr.c:2604-2655 | text, colours and icons written one after another are shown as meant: after 0xFF r g b characters have red r, green g and blue b until the next colour |
| `EventRing.Ring.Push` | src/cpu/isr.c:1852-1865 | the 64-slot ring appends, dropping the oldest event when 63 are waiting |
| `EventRing.PushedAtEnd` | src/cpu/isr.c:1852-1865 | with fewer than 63 waiting the event joins the end; with 63 the first goes and it joins the end |
| `EventRing.Ring.Pop` | src/cpu/isr.c:1879-1892 | the oldest waiting event comes out, or none |
| `EventRing.Ring.Serve` | src/cpu/isr.c:1852-1892 | any interleaving of pushes and pops on the ring ends where the run of the queue ends and yields what it pops |
| `EventRing.KeepsLatest` | src/cpu/isr.c:1852-1892 | over any run the events waiting are the latest part of those pushed, at most 63 |
| `EventRing.InOrder` | src/cpu/isr.c:1852-1892 | drops or not, events come out in the order they came in |
| `EventRing.NoDropNoLoss` | src/cpu/isr.c:1852-1892 | without a drop the ring is a plain queue |
| `EventRing.Accounting` | src/cpu/isr.c:1852-1892 | popped, waiting and dropped events account for all that were pushed |
| `SegDom.DescDecodes` | src/cpu/segdom.c:11-21 | the packed fields give back every 32-bit base, every 20-bit limit, the access byte and the granularity |
| `SegDom.DescFields` | src/cpu/segdom.c:11-21 | where each piece of base, limit, access byte and flags is put |
| `SegDom.AccessBits` | src/cpu/segdom.c:6-9 | both segments are present, of ring 3 and no system segments; one is code that may be read, one data that may be written; 32 bits, limits in bytes or pages |
| `SegDom.SegmentBuilt` | src/cpu/segdom.c:23-30 | the effective limit is exact up to 20 bits and the least 4 KiB cover beyond |
| `SegDom.Domain.constructor` | src/cpu/segdom.c:23-51 | both user descriptors of a new domain stand for its base and limit |
| `SegDom.Domain.RangeOkIff` | src/cpu/segdom.c:57-72 | a range is accepted if and only if it is empty, or lies in the domain and the domain ends below 2^32 |
| `SegDom.Domain.AcceptedInSegment` | src/cpu/segdom.c:57-72 | every byte of an accepted range is within the limit of the domain's descriptor |
| `SegDom.Domain.TopRefused` | src/cpu/segdom.c:57-72 | a domain that ends exactly at 2^32 refuses every non-empty range |

## Left out

- The magic and legacy superblock lookup, partition tables and the translation of blocks to disk sectors: block numbers are the model's addresses, relative to the partition.
- `clear_root_directory`: on a freshly formatted volume it changes nothing; an image that already holds files is not modelled.
- A copy onto a volume of a tree with names over 31 bytes: `EynfsNames.StoresIff` says that it does not store the tree, the image it leaves is not described.
- EynfsBuilder.Builder.CopyTree: the walk, after backslashes became slashes, takes no file path twice and leaves no piece of a directory path empty up to the point where the tool gives up. A backslash at an end of a directory name, or two in a row, can make the tool enter a directory under the empty name or write over the slots of an existing one. `EynfsNames.StoresIff` covers these trees all the same: they are not stored exactly.
- The readers of an image are given, as ghost data, the chain they walk: on a disk with a cyclic chain the originals do not end.
- EynfsMounts.CopyMountsThenGrubRead: the trees give no file path twice and no path both as a file and as a directory. For a file given twice the tool writes a second entry, which the search never finds (`EynfsReaders.SecondUnreached`); a directory over a file is an error in the tool, modelled for one directory in `EynfsBuilder.Builder.AddDir`.
- EynfsReaders.FindInDir: is about chains that end; on such disks it is exact.
- EynfsCursor.ReadFileFast: reads of files that are not written meanwhile; the mapping of pages and its failure paths belong to the memory manager.
- EynfsCapacity.PickPartitionSize: the floating-point factor 1.10 is the rational 11/10 with `int` as floor, and the environment's overrides have their defaults.
- Reiv.InterForm: the floating-point `int(delta_len * 0.90)` is the floor of 9/10.
- copyin and copyout that fail part-way through a transfer, null buffers, negative lengths, capability checks and scheduling costs.
- A call that sleeps while its descriptor is closed: the model re-checks the descriptor on waking, the kernel goes on with the object it had looked up.
- The spool memory a FIFO holds when all descriptors are reset is not returned to the heap by the kernel; the model has no heap accounting.
- What the console and the file system do with a read or write that ends up there, and descriptor inheritance.
- Descriptors on ordinary files are counted as targets only; their contents are in `EynfsCursor`.
- IpcKernel.Kernel.SystemCall: the result of a stat, of the parent lookup and of the marker write are parameters of the call; paths are already resolved.
- The console outside tiling mode, which prints through `%s`.
- ClipLine.ClipSegment: what the compiler makes of a product that overflows; `ClipLine.NarrowIff` says when none does.
- ClipReject.RejectedMisses: the margin of two pixels covers the rounding of every clip; no claim is made that it is the least such margin.
- IpcOutcomes.FifoMade: for paths that are not empty, as resolved paths are; the same holds of the laws about opening a FIFO.
- The order of the entries in a directory: files as the walk gives them, then each directory when the walk reaches it.
- Symbolic links on the host.
- Waking waiters after a GUI event, and the interrupt flag around the ring.
- The player's handling of a failed lseek (reopening the path), of memory that cannot be had, and of a header whose index size overflows 32 bits; headers of other files than the converter's are otherwise handled as the code does.
- Loading the descriptor table into the processor.
- The MLFQ scheduler, the network stack, sound, the heap, paging, the program loaders and the drawing code: hardware, or code with no property beyond its own body.
