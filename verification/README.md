# Verified model of a small x86 kernel and its disk-image tool

This Dafny project models the parts of the kernel and of its MINIX image tool that carry
state across operations, in the form the C and assembly code has (classes whose methods
update fields and arrays, loops with invariants), and proves what those parts promise:

* **Memory** (`Frames`, `FrameRuns`, `HeapLayout`, `HeapRuns`, `Heap`): the first-fit frame
  allocator over a map of two bits per frame, and the `kalloc`/`kfree` heap, a doubly linked
  list of headers that splits and joins blocks. Both are proved against sequences: of frame
  states, and of blocks that tile the heap.
* **Image tool and boot loader** (`Blocks`, `ZoneTree`, `ZoneBits`, `MinixTool`, `InodeTable`,
  `MinixWrite`, `Boot`): appending to, reading and truncating a MINIX v1 zone tree, the
  free-space estimate, the copy loop, and the loader that fetches the blocks again, up to one
  end-to-end statement: what was installed is what lies in memory after booting.
* **Virtual file system** (`DentryCache`, `MemTree`, `PathCache`, `Eviction`, `PathLookup`,
  `Creation`, `Vnodes`, `OpenFiles`, `OpenRules`, `MountCache`, `Memory`, `Vfs`, `VfsRuns`,
  `Devices`, with `Strtok`, `MemFile` and `LinkedList`): the dentry cache with its eviction, path
  lookup through the cache against an uncached walk over the in-memory trees, node creation,
  reference-counted vnodes, open files and mounts, one call at a time and in runs of calls.
  Requests for memory are answered from a fixed sequence `answers`; a call that reports a lack of
  memory made a request that was refused (`Memory.Spent`), so with memory for every request no
  call does (`Memory.NeverRefused`).
* **Programs** (`Gdt`, `AOut`, `Exec`): segment descriptors as bits, the layout of a program,
  and `proc_exec` as a transaction over frames, descriptors and open files.
* **Concurrency and time** (`Serial`, `Interrupts`, `Clock`): the serial ring buffer, the
  processor's steps with interrupts between them, and the clock read until two readings agree.

Where a method is proved against a function, a lemma says of that function what its result means
without naming it: the bytes of a word, a header, an inode and a descriptor, the digits of a map
entry and of a BCD number, the least number of frames, blocks or units, the bits of a mode.
Every lemma turns Dafny's automatic induction off, so each induction is spelled out. Large
invariants are written as an equation with `true`: the verifier then carries them as one fact.
Bodies that a proof does not need are hidden in it, which keeps the proofs quick.

## Where the code does not do what it promises

Each of these is a lemma or a contract that says exactly when the code is right.

* A heap chunk has room for the request that caused it up to 0xFFFFFFE0 bytes; above, the
  32-bit size wraps (`HeapRuns.NewChunkFitsIff`).
* Both stack macros of `src/kernel/include/mem.h` name frame 766. Frame 767, the interrupt
  stack, is reserved only if the memory map withholds it (`Frames.InterruptStackFrameReservedIff`).
* The image tool's space check asks for one zone too many at 7 blocks and two too many at 519
  (`MinixWrite.EstimateCovers`), and removing an empty image leaves one zone taken
  (`MinixWrite.InstallThenRemove`).
* A request for no frames takes none and answers with the frame behind the first one in use
  (`Frames.FrameMap.AllocateFrames`).
* The image tool does not reject the block that would start exactly at the end of a file, and
  answers with what the inode or an index block has in that place
  (`MinixTool.MinixFs.FileBlockToBlock`).
* Creating a node trusts the cache: if the name exists but is not cached, a second entry of
  that name is made (`Creation.MakeRightIffNew`). Two things make a cached name unknown: an
  eviction, and a failed mount, which forgets the entry of the directory it was to mount on
  (`MountCache.MountCompleteIff`).
* An eviction keeps the cache right exactly if the entry evicted is neither the parent of the
  entry that takes its slot nor the parent of another one (`Eviction.EvictIff`); the code does
  not look, and a full cache can evict that very parent (`Eviction.ParentCanBeVictim`).
* A path that ends in a slash creates a node with the empty name, and the path leads to the
  directory of that node as before (`Creation.CreatedResolves`).
* Mounting does not look for cached entries below the mountpoint: once "/a/b" has been looked up,
  mounting on "/a" leaves that path to the node in the directory mounted on
  (`MountCache.MountHidesChild`). A mount keeps the cache right exactly if that directory has no
  cached children (`MountCache.MountKeeps`), and so does a mount that fails
  (`Eviction.ForgetKeeps`).
* Mounting takes a reference to the mountpoint's node and never gives it back, not even when it
  fails; the model counts it in `held`. `Vfs.FileSystem.Mount` says when one is kept: if the path
  leads to a node that is no root, memory suffices, and not all slots hold mountpoints. Opening a
  node that is no file, directory or character device leaves freed memory in the list of open
  files (`OpenRules.OpenKeepsLive`).
* The boot loader doubles the number of an inode table block in 16 bits and reads the right
  sectors exactly for blocks below 0x8000 (`Boot.TableSectorIff`).
* The parts of a program are disjoint and inside its frames exactly if its sizes pass
  `AOut.Sane`; the code does not look (`AOut.InsideIffSane`). The limit of a segment counts its
  frames, although the processor takes it as the last one: the segments reach one frame further,
  into a second program exactly if that starts right behind (`Exec.ReachesNextIff`).
* Reading the clock never ends in BCD mode if the two-digit year is 80 or more
  (`Clock.SetThenGet`). In the 12-hour format noon and midnight are read wrong, and no other hour
  (`Clock.TwelveHoursIff`).
* The serial buffer keeps 63 bytes; one more makes all 64 unreadable
  (`Interrupts.OverrunLoses`). Outside of handlers, locked regions keep interrupts off only
  if none ends inside another (`Interrupts.RegionsHoldIff`).

## Model

| member | source | states |
|---|---|---|
| Frames.FrameMap.SetEntry | src/kernel/drivers/mem.c:101-109 | Writing one two-bit entry changes that frame's state and no other. |
| Frames.FrameMap.GetEntry | src/kernel/drivers/mem.c:111-116 | Reading an entry gives the state of that frame. |
| Frames.EntryOfWithEntry | src/kernel/drivers/mem.c:101-116 | In a packed byte, a written entry reads back, and the other three are as before. |
| Frames.ByteOfCodes | src/kernel/drivers/mem.c:89-116 | A byte of the map is the number whose four digits to the base 4 are the states of four frames, the lowest digit for the first: 0 free, 1 used, 2 reserved. |
| Frames.FrameMap.Setup | src/kernel/drivers/mem.c:122-194 | Setup succeeds iff an available region holds the bitmap; then exactly the withheld frames, the low frames and the stack frame are reserved, and all others free; the low frames hold the whole map, so it protects itself. |
| Frames.FrameMap.ReserveRegions | src/kernel/drivers/mem.c:160-180 | Exactly the frames touched by unavailable regions become reserved. |
| Frames.WithholdsIff | src/kernel/drivers/mem.c:160-180 | A region that is not available withholds the frames that hold one of its bytes, and the one that holds the byte behind it. |
| Frames.MapIsReserved | src/kernel/drivers/mem.c:181-185 | The frame in which the entry of any frame lies is reserved. |
| Frames.FrameMap.AllocateFrames | src/kernel/drivers/mem.c:206-236 | The one-pass counting search gives what the naive first fit gives, marks that run used and nothing else, and returns 0 iff there is no run; for a count of 0 it takes nothing and answers with the frame behind the first one in use. |
| Frames.FirstFitIsLeast | src/kernel/drivers/mem.c:206-236 | The run handed out is free and starts at the least address of any free run in range; none is found only if none exists. |
| Frames.FitIsLeast | src/kernel/drivers/mem.c:206-236 | The search finds the least run of free frames in memory and between the bounds given, a last bound of 0 being none, and fails iff there is no such run. |
| Frames.PastIsNext | src/kernel/drivers/mem.c:206-236 | A request for no frames answers with the address behind the first frame that is not free, or 0 if that is the last one of 4 GB. |
| Frames.FrameMap.ReleaseFrames | src/kernel/drivers/mem.c:241-262 | Exactly the used frames of the given range become free, with the 32-bit end of range as the code computes it. |
| Frames.ReleaseReaches | src/kernel/drivers/mem.c:241-262 | A release reaches the frames of its count that memory has, and none if the end of range needs more than 32 bits. |
| Frames.ReleaseUndoesAllocate | src/kernel/drivers/mem.c:206-262 | Releasing a run that was allocated restores every frame's state. |
| Frames.InterruptStackFrameReservedIff | src/kernel/include/mem.h:53-58 | The frame under 3M is reserved by setup iff the memory map withholds it. |
| FrameRuns.ReservedForever | src/kernel/drivers/mem.c:206-262 | A reserved frame stays reserved in every run of requests and releases of any arguments. |
| FrameRuns.ReservedNeverHandedOut | src/kernel/drivers/mem.c:206-262 | No allocation of any run returns a range with a frame reserved at the start. |
| FrameRuns.LedgerIsExact | src/kernel/drivers/mem.c:206-262 | In every run, the frames not used originally are used exactly if a live allocation covers them, live allocations are disjoint, and giving all back restores memory. |
| FrameRuns.Perform | src/kernel/drivers/mem.c:206-262 | Each request of the frame map does what a step of a run does. |
| HeapRuns.NewChunkFitsIff | src/kernel/drivers/mem.c:349-362 | The frames requested for an allocation hold it iff it asks for at most 0xFFFFFFE0 bytes. |
| HeapRuns.FramesForIsLeast | src/kernel/drivers/mem.c:349-352 | A number of frames holds the bytes asked for and a header iff it is at least the number requested. |
| HeapRuns.ChunkIsNext | src/kernel/drivers/mem.c:349-363 | A new chunk of frames starts exactly where the heap ends. |
| HeapLayout.LiveDisjoint | src/kernel/drivers/mem.c:280-309 | Payloads of different live blocks do not overlap. |
| HeapLayout.TilingAddsUp | src/kernel/drivers/mem.c:280-309 | Block sizes with their headers add up to the whole heap. |
| HeapLayout.FreeAtCorrect | src/kernel/drivers/mem.c:380-405 | Freeing a block, with joins on either side, keeps the tiling and removes exactly that block from the live ones. |
| HeapLayout.FreeAtNoFreeNeighbours | src/kernel/drivers/mem.c:380-405 | After a free, no two neighbouring blocks are both free. |
| HeapLayout.TakeAtCorrect | src/kernel/drivers/mem.c:321-344 | Taking a free block, split or whole, keeps the tiling and adds one live block of the size asked for. |
| HeapRuns.KallocCorrect | src/kernel/drivers/mem.c:312-365 | An allocation keeps the heap invariant; it gives a new live block, its payload behind its header, that holds the bytes asked for and less than two headers more, or 0 exactly if no free block is large enough and, for any number of frames that hold the bytes and a header, no run of that many is left. |
| HeapRuns.KallocPlace | src/kernel/drivers/mem.c:312-363 | A request is met from the lowest free block that has room; if there is none, at the end of the heap, which grows by the fewest frames that hold the bytes and a header. |
| HeapRuns.KfreeCorrect | src/kernel/drivers/mem.c:367-409 | Freeing removes exactly the live block whose payload is at the address given; any other address, a second free among them, changes nothing. |
| HeapRuns.FreeUndoesAllocate | src/kernel/drivers/mem.c:312-409 | Allocating and freeing leaves the live blocks as they were, and a second free does nothing. |
| HeapRuns.EveryRunKeepsTheTiling | src/kernel/drivers/mem.c:312-409 | After every run of calls the blocks tile the frames obtained, without free neighbours. |
| HeapRuns.EveryRunKeepsBlocksApart | src/kernel/drivers/mem.c:312-409 | After every run live payloads are disjoint and lie inside the heap's own frames. |
| Heap.KernelHeap.Kalloc | src/kernel/drivers/mem.c:312-365 | The list search with splitting and at most one request for frames does to the linked headers what the block-sequence allocation does. |
| Heap.KernelHeap.Search | src/kernel/drivers/mem.c:320-364 | The scan ends, at the first free block large enough, growing the heap once at most, and fails only with no such block and no frames. |
| Heap.KernelHeap.Kfree | src/kernel/drivers/mem.c:367-409 | The scan through predecessors, the flag change and the joins do what the block-sequence free does. |
| Heap.KernelHeap.Join | src/kernel/drivers/mem.c:389-404 | A free block swallows its list successor, and the headers stay a doubly linked list of exactly the blocks. |
| Heap.KernelHeap.StorePayload | src/kernel/drivers/mem.c:312-365 | Storing anything in a live payload leaves the heap valid. |
| Heap.StartUp | src/kernel/kernel.c:40-49 | On a machine without withheld frames between the bitmap and 3M, start-up fails only without room for the bitmap, and otherwise leaves a valid empty heap behind the last byte of the frame map, with frame 767 taken for the stack. |
| Blocks.BitMap.Set | tools/src/minix.c:48-49 | Setting a bit of the packed zone map sets that bit and no other. |
| Blocks.MapDigits | tools/src/minix.c:48-50 | Bit n of the map is binary digit n % 8 of byte n / 8. |
| Blocks.WordIsLittle | tools/src/minix.c:82 | A word of an index block is the little-endian number of its two bytes. |
| MinixTool.MinixFs.TakeZone | tools/src/minix.c:155-160 | The lowest clear bit's zone is taken; nothing is taken iff no bit is clear. |
| MinixTool.MinixFs.AddFileBlock | tools/src/minix.c:146-214 | Appending a block succeeds iff enough zones are free for it and the index blocks it needs; the file then owns its old zones and exactly the new ones, all distinct and taken, and looking the new block up gives the zone returned, whose number stands in the inode or, low byte first, in the two bytes of an index block for it. |
| ZoneBits.AppendedKeepsTree | tools/src/minix.c:123-214 | A file to whose tree a part was added owns its old zones and that part, in order and without repetition, and every earlier block is looked up as before. |
| ZoneBits.AppendedKeepsData | tools/src/minix.c:146-214 | An append leaves the contents of all earlier blocks alone. |
| ZoneBits.AppendedKeepsRest | tools/src/minix.c:146-214 | An append leaves every block alone that is neither newly taken nor an index block of the file. |
| ZoneBits.LookupsDistinct | tools/src/minix.c:123-214 | Different blocks of a file are in different zones. |
| ZoneTree.GrowDouble | tools/src/minix.c:183-211 | Growing in the double-indirect range adds the new zones and changes no earlier block's place. |
| MinixTool.MinixFs.FileBlockToBlock | tools/src/minix.c:123-144 | A block of the file gives its zone, the number in the inode or in the two bytes of an index block for it, low byte first, and a block past the end is rejected; the one that would start exactly at the end gives what the tree has in its place, if the index blocks can be read. |
| ZoneTree.LookupNames | tools/src/minix.c:119-144 | The zone looked up for a block is the number stored in the inode, the indirect or a double-indirect block in the place for it. |
| MinixTool.BlocksOfIsLeast | tools/src/minix.c:146-151 | The blocks of a file are the fewest that hold its bytes. |
| MinixTool.MinixFs.TruncInode | tools/src/minix.c:241-276 | Truncation clears exactly the bits of the file's data and index zones. |
| ZoneBits.ClearedUndoesClaimed | tools/src/minix.c:146-276 | Clearing the zones that appends took restores the map. |
| InodeTable.StoredIsLoaded | tools/src/minix.c:216-239 | A saved inode is loaded back, and every other inode of the table as before. |
| InodeTable.InodeLayout | tools/src/minix.c:76-84 | Mode, owner, size, time, group, links and the nine zones lie in this order in the 32 bytes of an inode, each with its low byte first. |
| InodeTable.TableIsDense | tools/src/minix.c:216-239 | Inodes, numbered from 1, follow each other without gaps from the start of the table, and none lies across blocks. |
| InodeTable.SaveInode | tools/src/minix.c:228-239 | Saving writes the inode's 32 bytes into its slot of its table block. |
| InodeTable.LoadInode | tools/src/minix.c:216-226 | Loading decodes the inode's slot. |
| MinixWrite.EstimateCovers | tools/src/minix.c:412-417 | The estimate is never below the zones needed, index blocks included, and equals them except at 7 and 519 blocks. |
| MinixWrite.SpaceCheck | tools/src/minix.c:412-425 | The check passes iff at least the estimated number of zones is free. |
| MinixWrite.CopyImage | tools/src/minix.c:449-459 | The copy loop succeeds iff the zones needed are free; then the file holds the image block by block. |
| MinixWrite.WriteKernel | tools/src/minix.c:412-459 | If the check passes, the copy never runs out of space; the image is stored, its inode is that of a regular file of one link, read and written by user 0, of the image's size and the time given, and no foreign block is touched. |
| MinixWrite.InstallThenRemove | tools/src/minix.c:241-276 | Truncating what was installed restores the zone map iff the image was not empty. |
| Boot.Loader.ReadInode | src/boot/vbr.asm:469-507 | The inode read is the one in its slot of the table block that the 16-bit sector number names, which is the inode asked for if its block is below 0x8000. |
| Boot.TableSectorIff | src/boot/vbr.asm:482-488 | The sector computed for a table block is the block's own iff the block is below 0x8000. |
| Boot.Loader.LoadZone | src/boot/vbr.asm:573-672 | The loader fetches, through one buffer, the zone the tool's lookup names. |
| Boot.Loader.LoadFile | src/boot/vbr.asm:514-556 | Every block is copied to its place from the load address on, and nothing else in memory changes. |
| Boot.DestinationIsLinearIff | src/boot/vbr.asm:533-546 | The segment and offset computed name the linear address iff the block ends within the first megabyte. |
| Boot.InstallThenBoot | tools/src/minix.c:412-459 | Installing an image and booting leaves the image, filled with zeros to a block boundary, at the load address, if the inode's table block is below 0x8000. |
| Strtok.Tokenizer.Next | src/kernel/string.c:100-139 | A call returns the next token in place and overwrites only the delimiter behind it, or reports that none is left. |
| Strtok.Tokenizer.All | src/kernel/string.c:100-139 | Calling until the end terminates, gives all tokens in order, keeps them all in place and overwrites delimiters only. |
| Strtok.TokensAreFields | src/kernel/string.c:100-139 | The tokens are exactly the non-empty pieces between delimiters, in order. |
| DentryCache.Cache.Get | src/kernel/vfs.c:264-339 | A hit only counts the use; a miss takes a free slot if there is one, otherwise a least used entry that is no mountpoint; no slot is found only if all are mountpoints. |
| DentryCache.FirstIsVictim | src/kernel/vfs.c:264-339 | The scan settles on the last free slot, or else on the first of the least used entries that are no mountpoints; nothing else is such a choice. |
| DentryCache.RunKeepsKeys | src/kernel/vfs.c:256-339 | In every run of requests, fills, mounts and resets, evictions included, (parent, name) keys stay unique and every mountpoint keeps its slot. |
| DentryCache.CountIsRequests | src/kernel/vfs.c:264-339 | In every run, the count by which victims are chosen is, of any entry, the number of requests answered with it since it was entered. |
| Eviction.EvictIff | src/kernel/vfs.c:264-339 | Entering a child in place of an entry that is no mountpoint keeps the cache right iff that entry is neither the parent nor the parent of another entry. |
| Eviction.ParentCanBeVictim | src/kernel/vfs.c:264-339 | In a full cache the best victim, and the only one, can be the very parent of the new entry; the cache is wrong then. |
| PathCache.HitAgrees | src/kernel/vfs.c:264-290 | A cached child is the one the directory names, crossed into what is mounted on it. |
| PathCache.EnterKeeps | src/kernel/vfs.c:843-886 | Entering a looked-up child in a free slot keeps the cache right. |
| PathCache.NodesApart | src/kernel/vfs.c:264-339 | Different entries stand for different nodes. |
| PathCache.MadeComplete | src/kernel/fs/memfs.c:310-335 | In a complete cache, a name not cached is nobody's; making and entering it keeps the cache right and complete. |
| MemTree.MadeUnique | src/kernel/fs/memfs.c:310-335 | Names in a directory stay unique iff the name made was not in it. |
| MemTree.MadeChildren | src/kernel/fs/memfs.c:291-335 | After a node is made its name leads to it, and every earlier name where it led. |
| MemTree.MadeNumbered | src/kernel/fs/memfs.c:105-126 | Nodes are numbered in the order they are made; a number below the next one that is no node's was used up by a failure. |
| Vfs.FileSystem.GetOrRead | src/kernel/vfs.c:502-536 | The vnode, loaded if it was not in the list, gains one reference; it fails only if there is no such node or a request for memory is refused, exactly one of the two the vnode needs, and then changes no vnode. |
| Vfs.FileSystem.Release | src/kernel/vfs.c:484-498 | A reference less; the last one removes the vnode. |
| Vnodes.ReleaseUndoesAcquire | src/kernel/vfs.c:477-536 | Acquiring and releasing a vnode leaves the list exactly as it was. |
| Vfs.FileSystem.Lookup | src/kernel/vfs.c:811-898 | Unless a step evicts an entry still needed, the cached lookup returns the entry of exactly the node the uncached walk reaches; it fails only if the walk does, a request for memory is refused, or all slots hold mountpoints. With room no entry is lost; vnodes are kept. |
| Vfs.FileSystem.LookupIn | src/kernel/vfs.c:837-891 | One component: the child the directory names, in the slot of a hit, a free one or that of the victim; or a slot given back. |
| PathLookup.WayAdvances | src/kernel/vfs.c:837-891 | After each step the rest of the walk starts at the entry reached. |
| PathLookup.RoomIsSafe | src/kernel/vfs.c:811-898 | With a free slot for each miss, or one in a complete cache, no step of a lookup evicts anything. |
| PathLookup.CachedIsSafe | src/kernel/vfs.c:811-898 | If the steps behind a cached way evict nothing that is needed, neither do all the steps from its start, although the hits on the way count as uses and so change which entries are evicted. |
| PathLookup.FailedIsSafe | src/kernel/vfs.c:837-891 | A step refused memory, or to a name that is nobody's, can be tried again: the slot it wiped is the one it takes next, and the steps after it evict nothing that is needed, as before. |
| Creation.AtAgrees | src/kernel/vfs.c:811-898 | Cached steps lead where the walk leads. |
| Creation.CompleteKnowsPath | src/kernel/vfs.c:732-746 | A complete cache knows every path, so creation may trust it. |
| Vfs.FileSystem.CreateNode | src/kernel/vfs.c:692-803 | A node is made only if its directory exists, the name is free and the type can be made, and is made then unless a request for memory is refused or all slots hold mountpoints; failures leave the trees, but for a number used up, and the vnodes as they were; mountpoints stay, and with room no entry is lost. |
| OpenRules.CreatedIff | src/kernel/vfs.c:692-803 | With memory and a slot, a node is made iff its directory exists, the name is free, and the type is one of the six that can be made. |
| Vfs.FileSystem.MakeInode | src/kernel/fs/memfs.c:310-335 | Node and directory entry are made together or not at all; that fails only for the type or a refused request for memory. |
| Creation.CreatedResolves | src/kernel/vfs.c:692-803 | After a creation the path leads to the new node, with its mode and device, iff it does not end in a slash; otherwise it leads to the directory of the new node. |
| Creation.MakeRightIffNew | src/kernel/vfs.c:732-746 | Entering a made node keeps the cache right, and names unique, iff no node had that name. |
| Vfs.FileSystem.Mkdir | src/kernel/vfs.c:1071-1076 | A directory is created as by CreateNode, with the twelve permission bits given and no entries; vnode references and open files balance afterwards, and only mounted file systems have nodes. |
| Vfs.FileSystem.Mknod | src/kernel/vfs.c:1079-1090 | Directories, files and links are rejected; other nodes are created as by CreateNode, with the references balanced. |
| Vfs.FileSystem.Stat | src/kernel/vfs.c:1042-1068 | Number, mode and device of the node the walk reaches; none only if the lookup fails or a request for memory is refused. The cache is as after a lookup, every vnode as before. |
| Vfs.FileSystem.Open | src/kernel/vfs.c:1093-1157 | The file opened is on the node the path leads to, created only if asked and absent, permitted and of an openable type; an open of such a file fails only for a refused request for memory, its device, or a cache full of mountpoints; a failed open leaves the vnodes as they were; references balance. With memory, an open that made its node succeeds iff the permissions given allow what is asked for. |
| OpenRules.WithTypeKeeps | src/kernel/vfs.c:61 | Setting the type of a mode replaces the old type and keeps the other twelve bits, those for reading and writing among them. |
| MemTree.TypeIsDigit | src/kernel/include/typedef.h:54 | The type of a node is the fourth digit of its mode to the base 16. |
| OpenRules.FlagsAreBits | src/kernel/vfs.c:1093-1143 | The flags of an open are its four lowest binary digits, and the owner's permissions to read and write digits 8 and 7 of the mode. |
| OpenRules.PermittedIff | src/kernel/vfs.c:1132-1143 | An open is permitted iff reading, if asked for, and writing, if asked for, are among the owner's permissions. |
| OpenRules.MadeOpens | src/kernel/vfs.c:1093-1157 | An open that made its node, under a name that is not empty, succeeds with memory iff the mode given permits what is asked for. |
| OpenRules.KnownLater | src/kernel/vfs.c:1093-1130 | A lookup that finds nothing, though memory suffices, shows that the name is nobody's: the creation that follows may trust the cache. |
| Vfs.FileSystem.FileOpen | src/kernel/vfs.c:580-643 | A file is added to the list only for a type that can be opened and, for a character device, if its driver agrees; otherwise the list is as before, or a freed file stays in it; each case by type, device and the two requests for memory. |
| OpenRules.OpenKeepsLive | src/kernel/vfs.c:600-623 | Listed files stay in use iff the node opened is not permitted, is of a type that can be opened, or a request for memory that the open needs is refused. |
| OpenRules.OpenKeepsBalance | src/kernel/vfs.c:580-643 | Counts equal open files and references held, whether an open succeeds or fails. |
| Vfs.FileSystem.Close | src/kernel/vfs.c:646-670 | The file leaves the list and its reference is dropped; an unknown file changes nothing. |
| OpenFiles.CloseUndoesOpen | src/kernel/vfs.c:580-670 | Opening and closing leaves files and vnodes exactly as they were. |
| Vfs.FileSystem.Mount | src/kernel/vfs.c:923-1039 | A mount succeeds only if the path is an existing directory that is no mountpoint (or the first "/") and type and device fit, and does then unless a request for memory is refused or all slots hold mountpoints; the path then leads to the mounted root, and a complete cache stays complete. The reference to the node found is kept whether it succeeds or not; a mount that fails on a directory forgets its entry, so that the cache is not complete, and one that fails before changes nothing else. |
| Vfs.FileSystem.Attach | src/kernel/fs/memfs.c:452-477 | The root directory is made; an attach succeeds only for a known type and a device not mounted, whose file system has no nodes yet, fails only for type, device or a refused request for memory, and removes only a file system without nodes. |
| MountCache.MountKeeps | src/kernel/vfs.c:923-1039 | Mounting a file system that is not in use on a directory keeps the cache right iff no entry of the directory is cached. |
| MountCache.MountHidesChild | src/kernel/vfs.c:946-1034 | After "/a/b" was looked up, mounting on "/a" leaves the path cached, with the node of the directory mounted on, though it leads nowhere any more. |
| MountCache.MountCompleteIff | src/kernel/vfs.c:946-1034 | In a complete cache with room, a mount leaves the cache complete iff it succeeds, takes no reference, or finds no directory. |
| MountCache.MountLeads | src/kernel/vfs.c:923-1039 | The path of the mountpoint leads to the root of what is mounted. |
| Eviction.ForgetKeeps | src/kernel/vfs.c:985-1027 | Giving an entry back keeps the cache right iff it has no cached children; the cache no longer knows the name. |
| VfsRuns.CallSteady | src/kernel/vfs.c:692-1157 | Any call but a mount leaves mounts and root as they were and the trees grown by a node at most; in a complete cache with a free slot it leaves the cache complete and takes one slot at most. |
| VfsRuns.CompleteAllows | src/kernel/vfs.c:692-1157 | A complete cache with a free slot meets what lookups, creations and opens need of the cache, for every path. |
| VfsRuns.TameRunStaysComplete | src/kernel/vfs.c:643-1157 | A complete cache stays complete in every run of calls without evictions and failed mounts. |
| VfsRuns.EveryRunKeeps | src/kernel/vfs.c:643-1157 | After every run of calls, with mounts and evictions, the cache is right, references balance, names are unique, every mountpoint is in the slot it had, only mounted file systems have nodes, and no node is lost or changes its mode. |
| VfsRuns.RunStaysComplete | src/kernel/vfs.c:643-1157 | From a complete cache with more free slots than there are calls, every call of a run whose mounts succeed finds its needs met, the cache stays complete, and a path that led to a node leads to it ever after, or to the root of what was mounted on it. |
| VfsRuns.ReadySucceeds | src/kernel/vfs.c:923-1039 | With memory for every request, and a free slot in a complete cache, mounting a known file system that is not mounted on an empty directory that is no root, or on "/" first, succeeds. |
| VfsRuns.LeadsMounted | src/kernel/vfs.c:923-1039 | A mount in a complete cache moves the paths to its mountpoint to the new root, and leaves every other path where it led. |
| VfsRuns.Perform | src/kernel/vfs.c:643-1157 | Each call of the file system does what a step of a run may do. |
| Devices.DevInit | src/kernel/devices.c:32-36 | Making a directory under the root and mounting a file system on it succeeds iff the name is free and the file system known and not mounted, unless a request for memory is refused or all slots hold mountpoints; the path then leads to the mounted root, and a complete cache with a free slot stays complete. |
| MemFile.File.Write | src/kernel/fs/memfs.c:237-266 | A write adds itself to the log and moves the position, or changes nothing without permission or memory. |
| MemFile.File.Read | src/kernel/fs/memfs.c:214-234 | A read returns the bytes written last, zeros in holes, nothing past the size, and moves the position by what it returns. |
| MemFile.WriteMeans | src/kernel/fs/memfs.c:237-266 | Growing with zeros and copying over is what one more write means: last write wins, the size is the largest end written. |
| MemFile.WrittenIsThere | src/kernel/fs/memfs.c:237-266 | After a write the file holds its bytes in their place, and every other byte is as before. |
| MemFile.File.Seek | src/kernel/vfs.c:1178-1199 | The position moves in 32-bit arithmetic; an unknown mode changes nothing. |
| LinkedList.List.Add | src/kernel/list.c:11-33 | A value is appended, or nothing changes without memory. |
| LinkedList.List.Get | src/kernel/list.c:35-46 | The value at a position, none past the end. |
| LinkedList.List.FindValue | src/kernel/list.c:48-56 | The first value that matches. |
| LinkedList.List.FindPos | src/kernel/list.c:58-69 | The first position that matches, or -1. |
| LinkedList.List.Delete | src/kernel/list.c:71-97 | The value at a position is removed and the order of the others kept. |
| LinkedList.List.FindDelete | src/kernel/list.c:99-124 | The first match is removed and the order of the others kept. |
| Gdt.DescriptorHolds | src/kernel/gdt.c:79-117 | Base and the low twenty bits of the limit are read back from a descriptor, and the flags are untouched. |
| Gdt.LimitIsExactIff | src/kernel/gdt.c:79-117 | The whole limit is read back iff it has twenty bits. |
| Gdt.DescriptorLayout | src/kernel/gdt.c:79-99 | The two parts of the limit and the three of the base lie in a descriptor where the processor looks for them, with the flags between. |
| Gdt.UserAccess | src/kernel/include/gdt.h:22-57 | The segments of programs are present, for user level, of 32 bits and in units of a frame, writable data or readable code, and exactly that for code is a code segment. |
| Gdt.Table.Alloc | src/kernel/gdt.c:191-201 | The first null entry after entry 0 gets the descriptor; 0 iff there is none. |
| Gdt.Table.Dealloc | src/kernel/gdt.c:203-208 | The selector's entry becomes null and no other changes. |
| Gdt.Table.Get | src/kernel/gdt.c:101-117 | Base and limit of an entry are those it was made of. |
| AOut.HeaderIsSpelled | src/kernel/proc.c:9-18 | Text, data, bss and entry are the second, third, fourth and sixth 32-bit word of the file, signed and with the low byte first, and no other header is read from it. |
| AOut.HeaderIsRead | src/kernel/proc.c:9-18 | From eight numbers written in the order of the header, those four are read back, whatever their sign. |
| AOut.InsideIffSane | src/kernel/proc.c:144-155 | In the code's 32-bit arithmetic, the bytes of text, data and bss do not overlap and lie in the program's frames below the stack's, iff data and bss end below 2 GB and above the frames of the text, and a negative data size keeps the bss behind the text. |
| AOut.ProgramLayout | src/kernel/proc.c:143-155 | The data of a sane program starts at the first frame boundary behind header and text, the zeros behind the data, and the stack's frame, the last one, at the first boundary behind them. |
| Exec.Processes.ReleaseSegment | src/kernel/proc.c:46-55 | A null entry is skipped; otherwise entry and frames decoded from it are released. |
| Exec.Processes.ReleaseMemory | src/kernel/proc.c:58-65 | Six selectors, two segments, one run of frames: each is given back once. |
| Exec.ReleaseBoth | src/kernel/proc.c:46-65 | Releasing code and then data, which name the same frames, frees them once. |
| Exec.SegmentsOwned | src/kernel/proc.c:241-248 | A program runs with a code segment for code and one writable segment for data, stack and all else, over the same bytes, all selected for user level. |
| Exec.Processes.Acquire | src/kernel/proc.c:157-199 | Least free run and first two null entries are taken, or everything is as before. |
| Exec.Beside | src/kernel/proc.c:158-250 | The new image stands beside the old one; either can go without touching the other. |
| Exec.ReachesNextIff | src/kernel/proc.c:158-199 | Both segments of a program end one frame behind its frames, and while a second image stands beside it, either reaches into the other iff that starts right behind. |
| Exec.Processes.LoadPart | src/kernel/proc.c:201-227 | However short the reads, the loop ends with exactly the wanted bytes in place, or fails. |
| Exec.Processes.LoadProgram | src/kernel/proc.c:201-227 | Text and data of the file are in memory, and nothing at or above the stack's frame changed. |
| Exec.ProgramInMemory | src/kernel/proc.c:200-233 | Byte by byte, header and text of the file are at the start of the program, its data from the next frame boundary on, and zeros behind it. |
| Exec.Processes.Exec | src/kernel/proc.c:101-257 | Failure leaves frames, segments, open files and process as before; success leaves the process owning exactly its new frames and two segments, the old ones free, and text, data and zeros in memory; without read errors it succeeds iff everything it needs is there. |
| Serial.Buffer.ReadByte | src/kernel/drivers/serial.c:254-261 | With fewer than 63 unread, the byte is added behind them; with 63, none is left. |
| Serial.Buffer.Read | src/kernel/drivers/serial.c:356-384 | The oldest bytes, as many as asked for and there are. |
| Serial.PutKeepsIff | src/kernel/drivers/serial.c:254-261 | A byte is kept in order iff fewer than 63 are unread. |
| Interrupts.StepGuarded | src/kernel/interrupts.c:44-72 | Every step keeps: interrupts are off exactly in handlers and locked regions, and handlers do not nest. |
| Interrupts.StepFaithful | src/kernel/drivers/serial.c:356-384 | Every step keeps: received bytes are the delivered ones followed by the unread ones, until an overrun. |
| Interrupts.ReadsAreFaithful | src/kernel/include/lock.h:26-38 | In every interleaving from boot, without overrun, what was delivered are the first bytes received, none lost or repeated. |
| Interrupts.ReadsEnd | src/kernel/drivers/serial.c:362-378 | A read that ends without overrun gives at least one byte and no more than asked for. |
| Interrupts.ReadCompletes | src/kernel/drivers/serial.c:356-384 | A waiting read can come to its end as soon as there is data: from every state without a handler, by steps of the reader alone. |
| Interrupts.HandlerCompletes | src/kernel/drivers/serial.c:252-261 | An interrupt can be taken wherever interrupts are on, and after the steps of its handler all is as before but for the byte received. |
| Interrupts.OverrunLoses | src/kernel/drivers/serial.c:252-261 | A byte that arrives is received and pending iff fewer than 63 were unread; on top of 63 it makes all 64 unreadable. |
| Interrupts.RegionsHoldIff | src/kernel/interrupts.c:136-144 | For every sequence of region ends, interrupts are off wherever a region is open iff a handler runs or no region ends inside another. |
| Clock.Chip.Load | src/kernel/time.c:16-30 | One sweep reads each register at its own moment. |
| Clock.Chip.TimeGet | src/kernel/time.c:34-87 | The date of the first sweep that agrees with the one before, from binary or BCD and either hour format. |
| Clock.AgreeIff | src/kernel/time.c:56-67 | Two sweeps agree iff they are equal and the year register is below 128. |
| Clock.StableIsReal | src/kernel/time.c:34-67 | With at most one update in the last two sweeps, the value is the registers just before or just after it. |
| Clock.QuietSweepsEnd | src/kernel/time.c:48-67 | The loop ends by the first two sweeps without update, if the year register is below 128. |
| Clock.TimeSet | src/kernel/time.c:96-117 | The registers hold the date in the chip's format. |
| Clock.RegistersShow | src/kernel/time.c:96-117 | Seconds, minutes, hours, day, month, year and century are in this order in the registers, in BCD as their two decimal digits. |
| Clock.BcdDigits | src/kernel/time.c:89-117 | Two decimal digits are two digits to the base 16 in BCD and read back from them, with or without the mark of the afternoon. |
| Clock.SetThenGet | src/kernel/time.c:34-117 | Without updates, in either hour format, getting returns the date set iff the chip counts in binary or the two-digit year is below 80. |
| Clock.TwelveHoursIff | src/kernel/time.c:69-82 | An hour shown in the 12-hour format, in binary or BCD, is read as that hour iff it is neither noon nor midnight. |

## Left out

- Vfs.FileSystem.Lookup: requires that no step evicts an entry still needed; `Eviction.EvictIff` says which are.
- Vfs.FileSystem.CreateNode: requires a slash in the path, that no step evicts an entry still needed, and that an existing name is cached, as do Vfs.FileSystem.Mkdir and Vfs.FileSystem.Mknod; a complete cache with a free slot meets the last two (`VfsRuns.CompleteAllows`), and stays complete but for failed mounts and evictions (`VfsRuns.TameRunStaysComplete`).
- Vfs.FileSystem.Open: requires what Lookup requires, and if it may create, that an existing name is cached or that memory suffices for its first lookup (`OpenRules.KnownLater`).
- Vfs.FileSystem.Stat: omits the size, which vnodes of the model do not carry.
- Vfs.FileSystem.Mount: requires a file system registered for the device if its type is known and it is not mounted, since the code follows a null pointer when the type finds none, and no cached children of the mountpoint, see `MountCache.MountKeeps`.
- Vfs.FileSystem.Close: does not model a later file at the same address as one freed while still in the list; file numbers are never used twice.
- Heap.KernelHeap.Kalloc: requires at most 0xFFFFFFE0 bytes, see `HeapRuns.NewChunkFitsIff`.
- Frames.FrameMap.Setup: requires a memory map that ends between 3M and 4G; below, the stack's frame is outside of the map, and above, frame numbers need more than the 20 bits addresses have.
- MinixTool.MinixFs.FileBlockToBlock: requires a block number the double-indirect range has; past it the tool reads behind an index block.
- Boot.Loader.LoadFile: requires that the file ends within the first megabyte, see `Boot.DestinationIsLinearIff`.
- Boot.InstallThenBoot: requires that the inode's table block is below 0x8000, see `Boot.TableSectorIff`.
- The first megabyte is modelled as plain memory, also from 0xA0000 on, where video memory and firmware are.
- MemFile.File.Write: requires that the position and the count add up in 32 bits, as does MemFile.File.Read; the code does not check the sum.
- Exec.Processes.Exec: requires a sane header and a text below 2 GB, because the code checks neither; looking up and opening the program are parameters, and its file is a byte sequence with arbitrarily short or failing reads.
- Clock.Chip.TimeGet: the wait for an update in progress is not modelled, updates may fall between any two register reads.
- LinkedList.List.Get: requires a position that is not negative if the list is empty, as does LinkedList.List.Delete; the code follows a null pointer there.
- The frame bitmap, the heap headers, the descriptor table and the memory programs are loaded into are separate arrays, although they share physical memory.
- Memory for the file system is a stream of answers to its requests rather than the heap of `Heap`; failures at every request are covered.
- Names are sequences of characters: `memfs_dentry_alloc` reserves the size of a pointer plus one for a name of any length.
- In-memory file systems allow directories, files and nodes; the code calls a null function where one is not allowed.
- A new file of the in-memory file system has size 0, which the code does not set.
- Vnodes carry number, mode, device and references; the size they copy at load time appears in `MemFile.File.Seek` only.
- Error numbers, console output and port input and output.
- Keyboard and framebuffer drivers, interrupt controller and timer setup, the system call table.
- The assembly of the boot sector, of the mode switches and of the jump to user space; the loader's zone walk and copy loop are modelled.
- Unmounting, which no code path can reach; listing directories; reading memory as a device.
- Directory search and insertion in the image tool, partition tables and command lines.
- `get_seconds` and `time_sleep`.
- `itoa` and the formatted output built on it.
