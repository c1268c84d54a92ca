# XOS, modelled and proved in Dafny

XOS is a small x86-64 kernel with a FAT32 driver, a round-robin scheduler, a page allocator with a bump
heap, an ELF64 loader, a text console with scrollback and the Internet checksum, and with a Python script
that builds its storage image. This project models those parts and proves what they promise over every
input, every run and every reachable state.

Each component is modelled twice. Functions on values say what an operation computes. Classes and methods
(`Driver.Fat32`, `Builder.Build`, `Loader`, `Shell`, `Pmm.PageMap`, `Memory.Heap`, `Scheduler.Kernel`,
`Vga.Display`) update fields and arrays step by step as the source does, and are proved to compute those
functions. The theorems are about the functions. `Formats`, `Spelling`, `Scans`, `Calls`, `Executables` and
`Screen` say what those functions mean in bytes, slots, rows and columns, without naming them: when each call
succeeds, what stands where, and that case does not matter.

## Results

**FAT32 volume** (`FatTable`, `Layout`, `Names`, `Spelling`, `Directory`, `Scans`, `Files`, `Operations`,
`Formats`, `Driver`, `Consistency`, `Runs`, `Space`, `WorkDir`, `Calls`, `Session`, `RoundTrip`, `OtherFiles`,
`Builder`, `BuiltVolume`, `Boot`, `Shell`, `Instances`). The disk is a byte sequence; the abstract volume is a
masked table and a sequence of clusters. Lookups through the one-sector cache and updates of all table copies
refine a plain table. A *ledger* says which directory slot owns which chain. From every image the builder can
make, every run of legal writes, creates, deletes, mkdirs and chdirs keeps a ledger: chains are acyclic, in
range, end-marked and disjoint, every non-free cluster is in exactly one chain, names are unique, free slots
are clean, and the tracked path leads to the tracked directory. A file that a run does not rewrite opens after
it as it did before, and every series of reads from it delivers the same bytes, so a program on the image
loads byte for byte after any legal run.

Where the code does less than its comments or a reader would expect, the exact condition is proved, and
`Instances` reaches cases from an empty image:

- The allocator does not reserve a cluster before it searches again, so a request for `count` clusters
  yields ceil(count/2) of them (`FatTable.AllocatorLaw`), although its comment promises `count`. One call reads
  a written buffer back as far as those clusters hold it, so in full if and only if it fits in one cluster
  (`RoundTrip.WriteThenRead`).
- A read that comes to the end of a chain stops there, but leaves the handle on the last cluster, and the next
  call delivers that cluster again while the entry claims more bytes. How a file is read in chunks makes no
  difference if and only if its chain holds its size (`Files.ReadsAreChunkIndependent`). Built files always do;
  a written buffer does if and only if it fits in one cluster. A reader that reads on, as the shell's `cat`
  does, gets as many bytes as were written, past the clusters taken the last one over again, so the buffer in
  full if and only if it repeats that cluster there (`RoundTrip.WriteThenReadAll`, `Shell.Cat`,
  `Instances.LongWrite`).
- `fat32_write` walks a path, `fat32_open` takes a name only. After a successful write the path that was
  written opens the file if and only if it has no directory part (`RoundTrip.WriteThenOpen`,
  `Instances.WrittenUnopened`), so the shell's `cat` (src/kernel/shell/shell.c:313)
  cannot open "A/B" after its `echo` (src/kernel/shell/shell.c:572) has written it.
- `fat32_delete` looks in the root only, wherever the path starts, although the shell's comment
  (src/kernel/shell/shell.c:450) says that it handles the current directory: in another directory `rm` erases
  the file of that name in the root. After a delete the path opens nothing if and only if it is looked up in
  the root, or opened nothing before (`Runs.DeletedIsGone`).
- A write frees the old chain before the allocation can fail. It leaves a consistent volume if and only if
  it has no data, or the free clusters and the old chain are enough for it, or there is neither
  (`Space.OutOfSpace`, `Instances.HugeWrite`).
- A chdir keeps an absolute path as it was given, and edits the tracked path by the last name of a relative
  one only. Path and cluster stay coherent if and only if an absolute path is canonical names with one slash
  before each, or the last name of a relative one, taken alone, leads to the same directory
  (`WorkDir.ChdirExact`). For joined canonical names that means a single name (`WorkDir.ChdirJoined`,
  `Instances.NestedChdir`); for a name followed by "..", that the current directory is the root
  (`WorkDir.DownAndUp`).
- A chdir to "/" always fails, as to any path that ends in a slash (`WorkDir.ChdirToSlashFails`), so the
  shell's `cd` without an argument (src/kernel/shell/shell.c:477) never succeeds. A chdir to the tracked
  path leads back to it if and only if that is not "/" (`WorkDir.ChdirToCwd`).
- Descending from a path of 255 bytes that does not end in a slash writes one byte behind the path buffer;
  nothing else does (`WorkDir.ChdirPathFits`, `Instances.OverrunReached`).

**Scheduler and context switch** (`Scheduler`, `Scheduling`, `Switching`). The state is the task table, the
processor's registers, memory as 8-byte words and the lowest free page. After any successful start exactly
one task runs, a READY task waits at most seven ticks even while tasks are created, and the tick counts of
a fixed set of tasks stay balanced. In every interleaving in which tasks keep to their own registers and
stacks, a switch is a no-op for the task it suspends. Every task, created at boot or later, first executes
the instruction its creator gave, on its own stack.

This kernel's timer is started by its first task (src/kernel/shell/shell.c:860), so no tick comes before the
start. Only another caller of the scheduler's interface could meet this: if ticks came first, the start
would succeed if and only if at least two slots were READY (`Scheduling.EarlyTicks`), and after a failed one
the next tick makes two RUNNING slots if and only if a slot is READY (`Scheduling.StrayRunning`,
`Switching.TwoRunning`).

**Pages, stacks and heap** (`Pmm`, `Memory`, `Ownership`). The bitmap refines a set of pages. In runs that
free no page (nothing in the kernel frees one) all stacks and heap blocks are disjoint.

**ELF64 loader** (`Elf`, `Executables`, `Loader`; System V gABI, chapters 4 and 5). Which files load, and what
every byte of memory is afterwards, on top of the chunked FAT reader. The range check adds in 64 bits and can
wrap: a load of a loadable file writes only 2 MB to 256 MB if and only if no segment wraps, failed loads have
their own exact condition (`Elf.LoadInside`), and a loadable file of 120 bytes does wrap
(`Elf.WrappingFileLoads`).

**Internet checksum** (`Checksum`; RFC 1071) and **scrollback** (`Vga`, `Screen`, `Scrollback`). Over every run the live
screen is that of a terminal without scrollback. The view is not that of a terminal that scrolls line by line:
`n` lines back it shows the rows `n` lines and one screen back, so the newest line that was scrolled off is on
no row of any view within the ring (`Scrollback.PagedShows`, `Scrollback.Reachable`). Rows older than the ring
show the line 500 later; one letter and 549 newlines get to such a row (`Scrollback.WrongRow`).

## Conventions

- Sector reads and writes succeed. Clusters are 1 to 8 sectors, there is at least one table copy, and the
  volume is mounted once.
- A *canonical* name is an accepted 8.3 name without spaces, leading slash or trailing dot, whose first
  byte is neither a dot nor 0xE5.
- A *legal* call of a session is one that a caller can recognise beforehand: it uses C strings and canonical
  names, does not write or delete a directory, does not write more than there is room for (`Space.WriteFits`),
  and does not chdir in a way that loses track (`WorkDir.KeepsTrack`) or outgrows the path buffer
  (`WorkDir.PathRoom`). The call may fail for any other reason.
- Products, remainders and rounded-up quotients of layout arithmetic are kept as repeated addition or
  subtraction, with lemmas that equate them with `*`, `%` and `/`.
- Unsigned 32-bit and 64-bit wrap-around is written out in the mount arithmetic, `malloc`, the stack
  pointer, the checksum's accumulator and the loader's addresses and range check.

## Model

| member | source | states |
|---|---|---|
| `FatTable.ChainUnique` | src/kernel/fs/fat32.c:111-145 | a complete chain (in range, acyclic, linked, end-marked) is determined by its first cluster |
| `FatTable.FreeChainClearsReachable` | src/kernel/fs/fat32.c:260-273 | on every in-range table, cyclic and rho-shaped ones included, freeing ends and zeroes exactly the clusters reachable from the first one; all others keep their entry |
| `FatTable.FreeChainOfChain` | src/kernel/fs/fat32.c:260-273 | on a well-formed chain freeing clears the chain and nothing else |
| `FatTable.FreeUndoesLink` | src/kernel/fs/fat32.c:260-299 | linking free clusters makes a chain, and freeing it gives back the very table it was made from |
| `FatTable.FindAgain` | src/kernel/fs/fat32.c:280-291 | a found cluster is not reserved, so the next search finds it again and links it to itself |
| `FatTable.Relink` | src/kernel/fs/fat32.c:280-291 | the link stored after the next cluster is found overwrites that self-link |
| `FatTable.EndChain` | src/kernel/fs/fat32.c:293-298 | the end mark overwrites whatever the last cluster holds, found once or twice |
| `FatTable.SearchFinds` | src/kernel/fs/fat32.c:249-291 | search number i finds free cluster number i / 2, and finds nothing exactly when all are linked |
| `FatTable.SearchLinks` | src/kernel/fs/fat32.c:286-290 | the link stored after search i gives the table the next search sees |
| `FatTable.AllocatorLaw` | src/kernel/fs/fat32.c:249-299 | a successful allocation of `count` takes the ceil(count/2) lowest free clusters in increasing order as one end-marked chain, changes no other entry, and is undone by freeing |
| `Layout.EntryWriteRefines` | src/kernel/fs/fat32.c:212-246 | storing one word in every copy of the table changes exactly one masked entry, no data cluster, and keeps the copies equal |
| `Layout.ClusterWriteRefines` | src/kernel/fs/fat32.c:107-109 | writing one data cluster changes that cluster, no other one and no table copy |
| `Names.MakeName83` | src/kernel/fs/fat32.c:155-193 | the byte-by-byte packing loop computes `Name83`: the upper-cased, space-padded stem and extension, or failure for an empty, over-long, twice-dotted or slashed name |
| `Names.FormatName` | src/kernel/fs/fat32.c:302-333 | the formatting loop computes `Format`: the stem up to its first space, then a dot and the extension if there is one |
| `Names.NameMatch` | src/kernel/fs/fat32.c:522-538 | the comparison loop decides case-insensitive equality of the formatted entry and the name |
| `Names.FormatRoundTrip` | src/kernel/fs/fat32.c:155-193 | formatting the packed form of an accepted name gives its upper-case form if and only if the name has no space, leading slash or trailing dot |
| `Names.PackOfFormat` | src/kernel/fs/fat32.c:302-333 | packing the formatted text of a canonical entry gives its 11 bytes back |
| `Names.MatchIsPackedEquality` | src/kernel/fs/fat32.c:522-606 | case-insensitive matching (path walking) and comparing packed bytes (open, write, delete) accept the same entries for a canonical name |
| `Names.MatchedName` | src/kernel/fs/fat32.c:522-538 | every text that a canonical entry answers to is itself a canonical name |
| `Names.CanonicalEntryFirst` | src/kernel/fs/fat32.c:601-606 | a canonical entry never reads as free or deleted, and answers to neither dot name |
| `Spelling.NamePacked` | src/kernel/fs/fat32.c:155-193 | a name of up to 8 and up to 3 bytes is packed byte by byte: capitals for small letters, spaces behind stem and extension |
| `Spelling.NameAccepted` | src/kernel/fs/fat32.c:155-193 | exactly those names are accepted, one leading slash not counted |
| `Spelling.NoSmallLetters` | src/kernel/fs/fat32.c:147-152 | no packed name holds a byte from 0x61 to 0x7A |
| `Spelling.FormatLaw` | src/kernel/fs/fat32.c:302-333 | 11 bytes read as the stem and extension up to their first spaces, with a dot if there is an extension |
| `Spelling.MatchLaw` | src/kernel/fs/fat32.c:522-538 | an entry matches exactly the texts that differ from its own in the case of letters only |
| `Spelling.CaseBlind` | src/kernel/fs/fat32.c:155-193 | names that differ in the case of letters only are packed alike and match the same entries |
| `Spelling.OnlyCase` | src/kernel/fs/fat32.c:155-193 | canonical names that are packed alike differ in nothing else |
| `Directory.ScanHits` | src/kernel/fs/fat32.c:601-635 | a live slot that alone answers to a key is the slot the lookup loop finds |
| `Directory.ScanMisses` | src/kernel/fs/fat32.c:601-635 | in a tidy directory the lookup finds nothing only if no live slot answers to the key |
| `Directory.ScanWritePicks` | src/kernel/fs/fat32.c:728-753 | the write loop picks the live slot of that name, and failing that the first free slot |
| `Directory.ScanFreePicks` | src/kernel/fs/fat32.c:1201-1216 | the mkdir loop picks a free slot and fails only in a full directory |
| `Directory.TidyPut` | src/kernel/fs/fat32.c:761-766 | putting a new entry in a picked slot keeps a directory tidy: names distinct, deleted slots without cluster, slots past the end marker zero |
| `Directory.TidyErase` | src/kernel/fs/fat32.c:880-884 | erasing a live slot keeps a directory tidy |
| `Scans.ScanLaw` | src/kernel/fs/fat32.c:601-635 | in any directory a lookup finds a slot if and only if it answers, no slot before it does, and none before it is unused; deleted and long-name slots are passed over |
| `Scans.ScanWriteLaw` | src/kernel/fs/fat32.c:728-753 | in any directory the write loop takes the first slot of that name before it ends at an unused one with no free one before, failing that the first free one, and fails only if there is neither |
| `Scans.ScanFreeLaw` | src/kernel/fs/fat32.c:1201-1216 | in any directory the mkdir loop takes the first slot whose first byte is 0 or 0xE5 |
| `Formats.LittleEndian` | scripts/create_storage_image.py:53-62 | words are little-endian, written and read |
| `Formats.WordsStand` | src/kernel/fs/fat32.h:35-84 | a word is read from where it stands in a buffer |
| `Formats.SlotsStand` | src/kernel/fs/fat32.c:729-732 | directory slots are 32 bytes, one after the other |
| `Formats.Attributes` | src/kernel/fs/fat32.h:86-94 | the attribute bytes of files, directories and long names |
| `Formats.EntryBytes` | src/kernel/fs/fat32.c:761-766 | what stands at each byte of a new directory entry |
| `Formats.EntryRead` | src/kernel/fs/fat32.h:71-94 | cluster, size and attribute tests of an entry, by the bytes they are read from |
| `Formats.ErasedBytes` | src/kernel/fs/fat32.c:880-884 | which bytes a delete sets and that it keeps the others |
| `Formats.NewDirectory` | src/kernel/fs/fat32.c:1161-1192 | a new directory's cluster, by its bytes: itself, its parent, zeros |
| `Formats.TableMarks` | src/kernel/fs/fat32.c:111-145 | the constants of the table: end marks from 0x0FFFFFF8, 28 bits of each word |
| `Formats.EntryPlace` | src/kernel/fs/fat32.c:111-135 | entry c of the table is the word at four times c from the start of the first copy |
| `Formats.ClusterPlace` | src/kernel/fs/fat32.c:107-109 | cluster c starts c - 2 clusters into the data area |
| `Formats.BootRead` | src/kernel/fs/fat32.c:402-419 | each field of the geometry, by the bytes of the boot sector it is computed from, for any sector when nothing wraps |
| `Formats.MountLaw` | src/kernel/fs/fat32.c:393-400 | a sector is mounted if and only if it ends in 0x55, 0xAA |
| `Files.OffsetIsMod` | src/kernel/fs/fat32.c:671-686 | the position within a cluster, kept by repeated subtraction, is the remainder the driver computes |
| `Files.ReadLoopAlong` | src/kernel/fs/fat32.c:638-690 | along a chain, whatever size the entry claims, one read loop delivers exactly the next bytes of the chain up to its end, and past it the last cluster again up to its end; the current cluster keeps tracking the position |
| `Files.ZeroEndsRead` | src/kernel/fs/fat32.c:681-686 | a link to cluster 0 ends a chain for the reader like an end mark |
| `Files.ReadDelivers` | src/kernel/fs/fat32.c:638-690 | every read delivers the next of the bytes that reading on delivers, at least one unless it is at the end of the file, and leaves a handle with the same property |
| `Files.ReadManyDelivers` | src/kernel/fs/fat32.c:638-690 | so successive reads with whatever counts concatenate to the next of the same bytes |
| `Files.ReadAllDelivers` | src/kernel/shell/shell.c:317-322 | and reading until nothing comes delivers all of them, whatever the chunk |
| `Files.ReadsAreChunkIndependent` | src/kernel/fs/fat32.c:671-686 | series of reads deliver what one read of the sum of their counts delivers, for all series, if and only if the file ends within reach of one call: from its start, if and only if its chain holds the size its entry claims |
| `Files.WriteLoopExact` | src/kernel/fs/fat32.c:792-817 | along a chain of k clusters the write loop leaves each one with its piece of the buffer, zero-pads the last one written, and changes nothing else |
| `Files.WriteLoopOther` | src/kernel/fs/fat32.c:792-817 | no cluster outside the chain is changed |
| `Files.ZeroEndsWrite` | src/kernel/fs/fat32.c:812-816 | and for the writer |
| `Files.WrittenContent` | src/kernel/fs/fat32.c:792-817 | the chain then starts with the first min(count, k * cluster size) bytes of the buffer |
| `Operations.WalkEnds` | src/kernel/fs/fat32.c:1045-1128 | a path walk ends with the lookup of its last component in the directory the others lead to |
| `Operations.WalkStays` | src/kernel/fs/fat32.c:1045-1128 | a walk never leaves a set of directories that is closed under descending |
| `Operations.ClustersForIsCeiling` | src/kernel/fs/fat32.c:784-785 | the number of clusters asked for is the rounded-up quotient |
| `Driver.FindSlot` | src/kernel/fs/fat32.c:992-1040 | the slot loop of a lookup computes `Scan`: the first match before the end marker, deleted and long-name slots skipped |
| `Driver.FindEntryOrFree` | src/kernel/fs/fat32.c:728-753 | the slot loop of a write computes `ScanWrite` |
| `Driver.FindFree` | src/kernel/fs/fat32.c:1201-1216 | the slot loop of mkdir computes `ScanFree` |
| `Driver.MountDisk` | src/kernel/fs/fat32.c:393-426 | mounting fails without the boot signature; otherwise it starts in the root directory, with an empty cache, on the volume the disk holds, with the geometry computed from the boot sector in 32-bit arithmetic |
| `Driver.Fat32.NextCluster` | src/kernel/fs/fat32.c:111-135 | lookup through the one-sector cache equals lookup in the abstract table, keeps the cached sector equal to the disk, and changes nothing of the volume |
| `Driver.Fat32.SetFatEntry` | src/kernel/fs/fat32.c:212-246 | an update changes exactly one masked entry of the abstract table, in all copies and in the cached sector |
| `Driver.Fat32.WriteCluster` | src/kernel/fs/fat32.c:107-109 | a data-cluster write changes one cluster of the abstract volume and keeps cache and copies valid |
| `Driver.Fat32.FindFreeCluster` | src/kernel/fs/fat32.c:249-257 | succeeds iff some cluster is free, and returns the lowest one |
| `Driver.Fat32.FreeClusterChain` | src/kernel/fs/fat32.c:260-273 | terminates on every in-range table and leaves `FreeChain` of it; data untouched |
| `Driver.Fat32.AllocateClusterChain` | src/kernel/fs/fat32.c:276-299 | succeeds iff at least ceil(count/2) clusters are free, and leaves the table and first cluster of the allocator law; on failure leaves every free cluster linked, the last to itself |
| `Driver.Fat32.Read` | src/kernel/fs/fat32.c:638-690 | computes `Files.Read` of the abstract volume and handle, volume unchanged |
| `Driver.Fat32.NavigatePath` | src/kernel/fs/fat32.c:1045-1128 | the byte loop computes `Navigate`: found entry, missing last component with its parent, or not found |
| `Driver.Fat32.Open` | src/kernel/fs/fat32.c:558-635 | computes `Operations.Open`: a handle at position 0 of the named file, or failure for a bad name, a missing entry or a directory |
| `Driver.Fat32.StoreData` | src/kernel/fs/fat32.c:792-817 | computes `WriteLoop` of the abstract volume |
| `Driver.Fat32.Write` | src/kernel/fs/fat32.c:693-847 | computes `WriteFile` of the abstract volume, on success and on every failure, the one after the old chain was freed included |
| `Driver.Fat32.Delete` | src/kernel/fs/fat32.c:850-895 | computes `DeleteFile` of the abstract volume |
| `Driver.Fat32.Mkdir` | src/kernel/fs/fat32.c:1131-1244 | computes `MakeDir` of the abstract volume, failures after the allocation included |
| `Driver.Fat32.Chdir` | src/kernel/fs/fat32.c:1247-1328 | computes `ChangeDir` of cluster and path for every path the buffer can hold, volume unchanged |
| `Driver.GoUp` | src/kernel/fs/fat32.c:1293-1306 | the path edit for ".." computes `ParentPath` |
| `Driver.GoDown` | src/kernel/fs/fat32.c:1307-1327 | the path edit for a name computes `ChildPath`: a slash where there is none, then the name up to 255 bytes |
| `Operations.ChildPathFits` | src/kernel/fs/fat32.c:1313-1326 | the terminator of that edit stays within the 256-byte buffer exactly when the path was under 255 bytes or ends in a slash |
| `Consistency.OwnedMeans` | src/kernel/fs/fat32.c:260-299 | a ledger that fits means pairwise disjoint chains and every non-free cluster in exactly one of them |
| `Consistency.Release` | src/kernel/fs/fat32.c:756-759 | freeing an owned chain leaves all other chains as they were |
| `Consistency.Acquire` | src/kernel/fs/fat32.c:276-299 | linking free clusters gives one slot a chain and disturbs no other |
| `Consistency.ChangeKeeps` | src/kernel/fs/fat32.c:819-831 | replacing one entry that names no directory, everything else framed, keeps a volume consistent and every directory entry |
| `Consistency.StoreDataKeeps` | src/kernel/fs/fat32.c:756-842 | a successful write with data has a ledger for the volume it leaves |
| `Consistency.StoreEmptyKeeps` | src/kernel/fs/fat32.c:756-781 | so has a create or a write of no bytes |
| `Consistency.DeleteKeeps` | src/kernel/fs/fat32.c:876-895 | so has the deletion of a file entry |
| `Consistency.MkdirKeeps` | src/kernel/fs/fat32.c:1161-1244 | so has naming a freshly made directory in a free slot |
| `Consistency.DirsAreClosed` | src/kernel/fs/fat32.c:1045-1128 | in a consistent volume every directory entry leads to a directory of the ledger |
| `Consistency.LookUpIs` | src/kernel/fs/fat32.c:992-1040 | in a consistent directory a lookup by canonical text finds the entry with that packed name |
| `Runs.NavigateIs` | src/kernel/fs/fat32.c:1045-1128 | a walk in a consistent volume ends in a directory of the tree, with the lookup result of its last component |
| `Runs.WritePreserves` | src/kernel/fs/fat32.c:693-847 | a successful write or create by path keeps the volume consistent, the set of directories, every directory entry and every other slot's chain |
| `Runs.DeletePreserves` | src/kernel/fs/fat32.c:850-895 | so does a successful delete of a root file |
| `Runs.DeletedIsGone` | src/kernel/fs/fat32.c:850-895 | after a delete the path opens nothing if and only if it is looked up in the root or opened nothing before; from another directory it opens what it did before |
| `Runs.MkdirPreserves` | src/kernel/fs/fat32.c:1131-1244 | a successful mkdir adds exactly one directory, in a cluster that was free, and keeps the volume consistent, every other chain and every directory entry |
| `Runs.FailedMkdirRestores` | src/kernel/fs/fat32.c:1154-1216 | a mkdir that fails, for a bad name or a full parent too, leaves the table as it was and touches no used cluster |
| `Runs.MkdirFinds` | src/kernel/fs/fat32.c:1131-1244 | a directory just made is found by its name, and sits in the lowest cluster that was free |
| `Calls.MkdirLaw` | src/kernel/fs/fat32.c:1131-1244 | a mkdir by path succeeds if and only if the path leads to a missing name, some cluster is free and some slot of the parent is unused or deleted |
| `Calls.MkdirMakes` | src/kernel/fs/fat32.c:1131-1244 | navigating the same path then finds a directory, in the lowest cluster that was free, and that is an end-marked chain of its own |
| `Calls.DeleteLaw` | src/kernel/fs/fat32.c:850-895 | a delete succeeds if and only if its path is an accepted name that some live slot of the root carries, and changes nothing otherwise |
| `Calls.DeleteFrees` | src/kernel/fs/fat32.c:874-889 | it marks that slot and frees exactly the chain it owned |
| `Calls.WriteLaw` | src/kernel/fs/fat32.c:693-790 | a write succeeds if and only if its path leads to a directory with a slot of that name or a free one, and it has no data or half the clusters it needs are free or its own |
| `Calls.OpenLaw` | src/kernel/fs/fat32.c:558-635 | an open succeeds if and only if its path is an accepted name that some live slot carries that is no directory, and the handle has that slot's cluster and size |
| `Calls.ChdirLaw` | src/kernel/fs/fat32.c:1247-1291 | a chdir succeeds if and only if its path leads to a directory, and goes there |
| `Calls.NavigateKept` | src/kernel/fs/fat32.c:1045-1128 | while directory entries are kept, a walk ends where it did, with what its last name is then |
| `Calls.LookUpIgnoresCase` | src/kernel/fs/fat32.c:992-1040 | names that differ in the case of letters only are looked up alike |
| `Calls.CallsIgnoreCase` | src/kernel/fs/fat32.c:558-895 | and opened, written and deleted alike |
| `WorkDir.ParentOfPath` | src/kernel/fs/fat32.c:1293-1306 | ".." cuts the last name off a spelled path |
| `WorkDir.ChildOfPath` | src/kernel/fs/fat32.c:1307-1327 | descending appends a slash and the name while the path stays within its buffer |
| `WorkDir.NavigateSpelled` | src/kernel/fs/fat32.c:1045-1128 | navigating a spelled absolute path looks its last name up where the others lead |
| `WorkDir.ChdirExact` | src/kernel/fs/fat32.c:1247-1328 | from a coherent working directory and for every path, walking the new `current_path` from the root reaches the new `current_dir_cluster` if and only if an absolute path is spelled in canonical names, or the last name of a relative path leads, taken alone, where the path does (".." in the root staying there); while the path is under 255 bytes |
| `WorkDir.EditedCoherent` | src/kernel/fs/fat32.c:1287-1327 | the path edit by a name is the path of what that name alone leads to, and of nothing else |
| `WorkDir.AloneMeans` | src/kernel/fs/fat32.c:1307-1327 | when the last name is canonical, the relative case means that the names before it lead back to the current directory |
| `WorkDir.DownAndUp` | src/kernel/fs/fat32.c:1293-1306 | a chdir to a name followed by ".." stays in the directory and cuts the tracked path; the two stay coherent in the root only |
| `WorkDir.NavigateLast` | src/kernel/fs/fat32.c:1045-1128 | the name a walk ends with is the last component of the text, cut at 255 bytes |
| `WorkDir.PathRoomIs` | src/kernel/fs/fat32.c:1278-1327 | whether the new path stays under 255 bytes can be told from the current path and the path given |
| `WorkDir.ChdirText` | src/kernel/fs/fat32.c:1278-1327 | which text any chdir leaves is told by the first byte and the last component of its path: an absolute path as far as 255 bytes, "." nothing new, ".." and names as below |
| `WorkDir.UpText` | src/kernel/fs/fat32.c:1293-1306 | what ".." makes of any path text, with and without slashes |
| `WorkDir.DownText` | src/kernel/fs/fat32.c:1307-1327 | what a name makes of any path text that fits the buffer |
| `WorkDir.ChdirToCwd` | src/kernel/fs/fat32.c:1247-1328 | a chdir to the tracked path, from anywhere, leads back to the tracked directory if and only if that path is not "/" |
| `WorkDir.ChdirToSlashFails` | src/kernel/fs/fat32.c:1104-1128 | a chdir to any path that ends in a slash fails, "/" included: the walk finds no last component |
| `WorkDir.NavigateJoined` | src/kernel/fs/fat32.c:1045-1128 | navigating names joined by slashes looks the last one up where the others lead from the current directory |
| `WorkDir.ChdirJoined` | src/kernel/fs/fat32.c:1287-1327 | a relative chdir by several names reaches the directory they resolve to, and path and cluster stay coherent if and only if there was one name, because only the last is appended |
| `WorkDir.ChdirPathFits` | src/kernel/fs/fat32.c:1278-1327 | a chdir keeps the path within its buffer exactly unless it descends by a relative name from a path of 255 bytes that does not end in a slash |
| `WorkDir.PathOverrun` | src/kernel/fs/fat32.c:1278-1327 | an absolute path padded with slashes to 255 bytes, and one step down, get there |
| `WorkDir.CoherenceKept` | src/kernel/fs/fat32.c:1161-1175 | operations that keep directory entries keep path and cluster coherent |
| `Session.StepKeeps` | src/kernel/fs/fat32.c:693-1328 | every legal write, create, delete, mkdir and chdir, failing ones included, keeps the volume consistent and the working directory coherent, and the entries of all other slots and what they own |
| `Session.RunKeeps` | src/kernel/fs/fat32.c:693-1328 | so does every finite run of them |
| `RoundTrip.HalfCovers` | src/kernel/fs/fat32.c:276-299 | the clusters the allocator yields hold the buffer exactly when the buffer fits in one cluster |
| `RoundTrip.WriteThenRead` | src/kernel/fs/fat32.c:693-842 | after a successful write by any path, opening the file in its directory and reading in one call gives back exactly the part of the buffer that ceil(k/2) clusters hold, k being the clusters it needs: all of it if and only if it fits in one cluster; reading on delivers the echoed buffer, and chunks make no difference if and only if it fits in one cluster; the recorded size is always the buffer's |
| `RoundTrip.WriteThenReadAll` | src/kernel/fs/fat32.c:638-690 | reading until nothing comes delivers the buffer as far as its clusters hold it, then byte p of the last cluster at p modulo the cluster size; that is the buffer if and only if the buffer repeats its last kept cluster |
| `RoundTrip.WriteThenOpen` | src/kernel/fs/fat32.c:558-635 | the path that was written opens that entry if it has no directory part, and fails to open if it has one |
| `Space.FreedCount` | src/kernel/fs/fat32.c:260-273 | freeing a chain adds exactly its length to the number of free clusters |
| `Space.RoomIs` | src/kernel/fs/fat32.c:756-759 | what a write can draw on is the free clusters and the chain of the entry it replaces |
| `Space.WriteLedger` | src/kernel/fs/fat32.c:693-842 | a write by path succeeds, leaves a consistent volume, or changes nothing, each exactly under a condition on the volume before the call |
| `Space.OutOfSpace` | src/kernel/fs/fat32.c:756-790 | a write leaves a consistent volume if and only if its data is empty, or the free clusters and the old chain together are at least ceil(k/2), or there is neither |
| `Space.MkdirSucceeds` | src/kernel/fs/fat32.c:1154-1216 | a mkdir of a missing name succeeds exactly when a cluster is free, the name is accepted and the parent has a free slot |
| `Instances.NestedChdir` | src/kernel/fs/fat32.c:1287-1327 | on an empty image with "A" and "A/B" made, a chdir to "A/B" leaves the path "/B", which is incoherent |
| `Instances.EmptyMkdir` | src/kernel/fs/fat32.c:1131-1244 | on an empty image mkdir "A" makes a directory in cluster 3 |
| `Instances.HelloByLowerCase` | src/kernel/fs/fat32.c:558-635 | on an image with the script's HELLO.TXT, "hello.txt" opens it in cluster 3 with 16 bytes, and deletes it |
| `Instances.OverrunReached` | src/kernel/fs/fat32.c:1278-1327 | there, 254 slashes with "A" and then "B" need a byte behind the path buffer |
| `Instances.LongWrite` | src/kernel/fs/fat32.c:693-842 | on an empty image a write of one byte more than a cluster succeeds; one call reads it back a byte short, and a second call or reading on in any chunks delivers the first byte in place of the last |
| `Instances.WrittenUnopened` | src/kernel/fs/fat32.c:558-635 | on an empty image with directory "A" made, a write to "A/B" succeeds and opening "A/B" fails; the bytes are there under "B" in "A" |
| `Instances.HugeWrite` | src/kernel/fs/fat32.c:756-790 | there, a write of 256 MB or more leaves a volume that no ledger fits |
| `OtherFiles.WriteSpares` | src/kernel/fs/fat32.c:756-842 | a successful write changes neither the table entries nor the bytes of any other file |
| `OtherFiles.DeleteSpares` | src/kernel/fs/fat32.c:870-895 | neither does a successful delete |
| `OtherFiles.MkdirSpares` | src/kernel/fs/fat32.c:1154-1244 | neither does a successful mkdir |
| `OtherFiles.StepSpares` | src/kernel/fs/fat32.c:693-1328 | nor any legal call, failing ones included, that does not rewrite the file's own slot |
| `OtherFiles.RunSpares` | src/kernel/fs/fat32.c:693-1328 | over every legal run that leaves its slot alone, a file keeps its chain, its table entries and its bytes |
| `OtherFiles.ReadersKept` | src/kernel/fs/fat32.c:638-1328 | so whatever reads are made from any handle on it, from wherever it was, deliver the same bytes and leave the same handle as before the run |
| `OtherFiles.EntryStays` | src/kernel/fs/fat32.c:693-1328 | over every such run a live directory entry keeps its 32 bytes, in whichever directory |
| `OtherFiles.FileSurvives` | src/kernel/fs/fat32.c:558-1328 | so a path that opened a file before the run opens it after, with the same handle, and whatever reads are made from it deliver the same bytes; for every file, empty ones and those whose chain is shorter than their size included |
| `OtherFiles.FilesRead` | src/kernel/fs/fat32.c:558-690 | in a consistent volume every file entry with a cluster can be read on to the size it claims, so the reading and loading results apply to it |
| `Builder.ClustersNeeded` | scripts/create_storage_image.py:65-70 | computes the cluster count of a file, one for an empty file |
| `Builder.PlaceFiles` | scripts/create_storage_image.py:221-225 | the running counter places the files one after the other from cluster 3 |
| `Builder.MakeFatTables` | scripts/create_storage_image.py:126-153 | writes the same chained table into both table areas of the image in place |
| `Builder.MakeRootDirectory` | scripts/create_storage_image.py:156-178 | writes one entry per file and the end marker into the root cluster in place |
| `Builder.MakeFileData` | scripts/create_storage_image.py:181-194 | writes every file's clusters, zero-padded, in place |
| `Builder.Build` | scripts/create_storage_image.py:230-240 | the array the steps leave, partition table included, is `Image` of the file list |
| `Builder.MountRecovers` | src/kernel/fs/fat32.c:395-419 | mounting any disk with the builder's boot sector recovers the builder's layout, in the driver's 32-bit arithmetic |
| `Builder.ImagePartition` | scripts/create_storage_image.py:73-89 | the image's first sector names one FAT32 partition, at the sector the driver mounts |
| `Formats.BootBytes` | scripts/create_storage_image.py:93-123 | the boot sector's first fields, by their places |
| `Formats.BootTexts` | scripts/create_storage_image.py:96-97 | its name |
| `Formats.BootWords` | scripts/create_storage_image.py:107-115 | its 32-bit and last 16-bit fields |
| `Formats.BootRest` | scripts/create_storage_image.py:116-122 | its texts, signature and zeros |
| `Formats.PartitionBytes` | scripts/create_storage_image.py:73-89 | every byte of the partition-table sector |
| `Builder.ImageMounts` | src/kernel/fs/fat32.c:395-419 | the built image mounts, and its two tables are equal |
| `Builder.ImageFat` | scripts/create_storage_image.py:126-153 | every table entry of the mounted volume is the one the file placement describes |
| `Builder.ImageRoot` | scripts/create_storage_image.py:156-178 | its root cluster is the directory the builder wrote |
| `Builder.ImageData` | scripts/create_storage_image.py:181-194 | every data cluster of a file holds its zero-padded chunk |
| `BuiltVolume.PadIsPack` | scripts/create_storage_image.py:160-162 | the builder's name padding is the driver's name packing |
| `BuiltVolume.BuiltConsistent` | scripts/create_storage_image.py:126-194 | every built image of at most 127 distinctly named files that fit is a consistent volume |
| `BuiltVolume.BuiltRuns` | scripts/create_storage_image.py:230-240 | from any built image, every legal run ends with a consistent volume and a coherent working directory |
| `BuiltVolume.BuiltFileReads` | src/kernel/fs/fat32.c:558-690 | opening each file of a built image and reading it, in any chunks, gives its exact bytes, empty and multi-cluster files included |
| `Boot.SlotsFreeable` | src/kernel/fs/fat32.c:756-759 | in a consistent volume whatever a directory slot holds can be freed safely, free and deleted slots included |
| `Boot.Perform` | src/kernel/fs/fat32.c:693-1328 | one legal call made on the driver object leaves the state the session specifies, sound, and returns whether the specified operation succeeds |
| `Boot.Replay` | src/kernel/fs/fat32.c:693-1328 | so does a whole legal run made on the driver object |
| `Boot.BuildAndMount` | src/kernel/fs/fat32.c:362-426 | building an image and mounting it gives a driver on exactly that volume, in its root directory |
| `Boot.BuildMountRun` | scripts/create_storage_image.py:230-240 | build, mount, run: the driver object ends consistent and coherent after any legal run |
| `Boot.BuiltFileSurvives` | scripts/create_storage_image.py:181-194 | after any legal run on a built image, a file whose slot was not rewritten opens by its path from any directory and reads as the builder wrote it, in whatever chunks |
| `Boot.BuiltProgramLoads` | src/kernel/arch/elf.c:113-235 | after any such run a loadable program put on the image by the builder is opened and loaded: its entry point, and its memory image byte for byte |
| `Shell.Cat` | src/kernel/shell/shell.c:305-322 | the shell's loop of 127-byte reads reads to the first one that delivers nothing, or fails iff the path does not open |
| `Elf.ReadExactDelivers` | src/kernel/arch/elf.c:88-97 | on any file with a chain, read_exact delivers the next of the bytes that reading on delivers, and succeeds iff the file's size has enough: on a chain shorter than the size too, where they are those of the last cluster again |
| `Elf.SkipSeeks` | src/kernel/arch/elf.c:100-109 | on any such file skipping by 128-byte reads succeeds iff the target is within the size, and reading continues from there |
| `Elf.WindowUnlessWrapped` | src/kernel/arch/elf.c:193-201 | for a segment that passes the checks, lying in the load window is the same as its 64-bit end not wrapping |
| `Elf.WrappedSegmentAdmitted` | src/kernel/arch/elf.c:197-201 | a concrete segment above the window that the wrapping check admits |
| `Elf.HeadersDeliver` | src/kernel/arch/elf.c:124-184 | the headers are accepted exactly for files with a valid ELF64 header and a program header table within the file, and are the file's own |
| `Elf.SegmentsDeliver` | src/kernel/arch/elf.c:188-228 | the segment loop succeeds exactly when every PT_LOAD fits, and then overlays the segments in table order |
| `Elf.TableAt` | src/kernel/arch/elf.c:170-184 | header i of the table stands 56 times i bytes behind its start |
| `Executables.PhdrRoundTrip` | src/kernel/arch/elf.c:68-78 | a program header written field by field in the order of the format is read back, for all values of its eight fields |
| `Executables.HeaderAccepted` | src/kernel/arch/elf.c:124-160 | a file header written field by field is accepted if and only if it is that of a little-endian 64-bit x86-64 executable with 1 to 32 headers of 56 bytes and an entry from 2 MB to 256 MB |
| `Executables.SegmentAccepted` | src/kernel/arch/elf.c:193-201 | a segment that does not wrap is accepted if and only if its file part is no longer than its memory and it lies from 2 MB up and ends below 256 MB |
| `Executables.WrappedAccepted` | src/kernel/arch/elf.c:197-201 | one that wraps, if and only if its end is below 256 MB in 64 bits |
| `Executables.KindsLaw` | src/kernel/arch/elf.c:188-192 | headers of any type but PT_LOAD, which is 1, are passed over, and PT_LOAD segments are loaded in table order until one fails |
| `Executables.ProgramLoads` | src/kernel/arch/elf.c:113-235 | every executable with one such segment loads: its bytes stand at their address, zeros after them, and the rest of memory is as it was |
| `Executables.ProgramExample` | src/kernel/arch/elf.c:113-235 | a concrete one whose offset, file size and memory size all differ, with the five bytes it leaves |
| `Elf.LoadMeans` | src/kernel/arch/elf.c:113-235 | loading succeeds exactly on loadable files and returns their entry point; unless a range wraps, every byte of memory is that of the last segment covering it, file bytes first and zeros after, or what it was; a rejected header changes nothing |
| `Elf.LoadStaysInWindow` | src/kernel/arch/elf.c:188-228 | after a successful load nothing outside the loaded ranges has changed, and nothing below 2 MB or from 256 MB up |
| `Elf.AnyLoadStaysInWindow` | src/kernel/arch/elf.c:113-235 | no load, failing or not and on whatever handle, changes anything outside 2 MB to 256 MB, unless a range wraps |
| `Elf.LoadInside` | src/kernel/arch/elf.c:113-235 | for every file with a chain, as long as its size or not, loadable or not, a load writes only 2 MB to 256 MB if and only if its segments are contained: none that fits wraps, and what the first one that does not fit stores ends in the window; for a loadable file, if and only if no segment wraps |
| `Elf.WrappingFileLoads` | src/kernel/arch/elf.c:197-201 | a concrete 120-byte executable is loadable and has a segment that wraps |
| `Elf.FailsAtFirst` | src/kernel/arch/elf.c:188-222 | a load fails at the first PT_LOAD that does not fit, with the segments before it loaded |
| `Elf.FailedSegment` | src/kernel/arch/elf.c:193-222 | and that segment has written the rest of the file from its offset, if its checks passed and the offset is within the file, and nothing otherwise |
| `Loader.Ram.StoreAt` | src/kernel/arch/elf.c:216-221 | stores bytes at consecutive addresses, wrapping at 64 bits |
| `Loader.Ram.Clear` | src/kernel/arch/elf.c:81-85 | zeroes consecutive addresses |
| `Loader.ReadExactly` | src/kernel/arch/elf.c:88-97 | the loop over driver reads computes `ReadExact` |
| `Loader.SkipBytes` | src/kernel/arch/elf.c:100-109 | the loop over driver reads computes `Skip` |
| `Loader.ReadHeaders` | src/kernel/arch/elf.c:124-184 | header checks, seek and header table computed over the driver are `Headers` |
| `Loader.LoadProgram` | src/kernel/arch/elf.c:113-235 | the loader over the driver computes `Load`, partial memory writes of a failed load included, and leaves the volume unchanged |
| `Pmm.PageMap.constructor` | src/kernel/mm/pmm.c:56-66 | initialisation leaves exactly the pages below 512 in use |
| `Pmm.PageMap.Set` | src/kernel/mm/pmm.c:41-43 | setting a bit adds one page to the set of used pages |
| `Pmm.PageMap.Clear` | src/kernel/mm/pmm.c:46-48 | clearing a bit removes one page from it |
| `Pmm.PageMap.Alloc` | src/kernel/mm/pmm.c:77-88 | returns the lowest free page from 512 up and adds it to the set, or 0 if there is none |
| `Pmm.PageMap.AllocNext` | src/kernel/mm/pmm.c:77-88 | while no page is freed the used pages are an initial segment, and pages are handed out in order |
| `Pmm.PageMap.Free` | src/kernel/mm/pmm.c:91-99 | removes the page of the address, unless it is reserved or beyond the map |
| `Pmm.PageMap.GetStats` | src/kernel/mm/pmm.c:102-112 | reports the counted pages |
| `Pmm.LowestIsFirstFit` | src/kernel/mm/pmm.c:77-88 | every page before the one found is in use, and it is free |
| `Pmm.CountIsCardinality` | src/kernel/mm/pmm.c:102-112 | the counting loop yields the size of the set of used pages |
| `Memory.StackIsFourPages` | src/kernel/sched/scheduler.c:126-141 | a stack is handed out iff four pages are left, and is then exactly those four consecutive pages |
| `Memory.Heap.Alloc` | src/kernel/mm/heap.c:39-58 | malloc on any page map computes `Bump`, with its 64-bit wrap-around, and takes the lowest free page exactly when it asks for one |
| `Memory.Heap.AllocInOrder` | src/kernel/mm/heap.c:39-58 | while no page is freed the same call computes `Malloc` |
| `Ownership.MallocCuts` | src/kernel/mm/heap.c:39-58 | a request of at most a page is cut, 8-aligned, off the current page or off a fresh one |
| `Ownership.MallocFits` | src/kernel/mm/heap.c:39-58 | of all 64-bit requests that succeed, those whose bytes stay within the pages handed out are exactly those of at most a page |
| `Ownership.MallocSucceeds` | src/kernel/mm/heap.c:39-58 | a request of any size but 0 succeeds if and only if it fits, rounded up to 8, in what is left of the heap's page or a page is left, and where it then is |
| `Ownership.StepKeeps` | src/kernel/sched/scheduler.c:126-225 | creating a kernel or user task and small mallocs keep all blocks disjoint from each other and from the heap's tail |
| `Ownership.OwnershipFromBoot` | src/kernel/sched/scheduler.c:126-225 | from boot, every run of these page operations hands out pairwise disjoint, 8-aligned blocks between 2 MB and 256 MB |
| `Ownership.CreateIsStep` | src/kernel/sched/scheduler.c:99-250 | a task creation takes exactly the pages of such an operation, succeeds exactly when it hands out blocks, and these are the new task's kernel stack and user stack |
| `Ownership.SystemOwnership` | src/kernel/sched/scheduler.c:99-250 | from boot, whatever tasks the scheduler creates and whatever blocks of at most a page malloc cuts, in any order, all stacks and blocks are pairwise disjoint, 8-aligned and between 2 MB and 256 MB |
| `Scheduler.Kernel.constructor` | src/kernel/sched/scheduler.c:77-96 | initialisation leaves all slots unused and no current task |
| `Scheduler.Kernel.FindNextReady` | src/kernel/sched/scheduler.c:65-74 | the wrapping search loop computes `NextReady` |
| `Scheduler.Kernel.CreateTask` | src/kernel/sched/scheduler.c:99-173 | computes `Create` for kernel code, name and every failure included |
| `Scheduler.Kernel.CreateUserTask` | src/kernel/sched/scheduler.c:176-250 | computes `Create` for user code, name and every failure included |
| `Scheduler.Kernel.ContextSwitch` | src/kernel/sched/context_switch.asm:47-75 | the stores and loads, one by one, compute `Switch` |
| `Scheduler.Kernel.OnTick` | src/kernel/sched/scheduler.c:253-280 | computes `Tick` |
| `Scheduler.Kernel.OnStart` | src/kernel/sched/scheduler.c:283-319 | computes `Start`, the jump into the first context included |
| `Scheduling.NearestInTurn` | src/kernel/sched/scheduler.c:65-74 | the search finds the READY slot that comes first in cyclic order after the current one, and fails only if there is none |
| `Scheduling.TickOutline` | src/kernel/sched/scheduler.c:253-280 | what a tick does to states, tick counts, current task and TSS stack of all slots |
| `Scheduling.CreateOutline` | src/kernel/sched/scheduler.c:99-250 | a creation touches one vacant slot only and leaves it READY iff it succeeds |
| `Scheduling.CreateRecords` | src/kernel/sched/scheduler.c:99-250 | a creation takes the first unused or dead slot and records name, next id and, for user code, its entry |
| `Scheduling.CreateNeeds` | src/kernel/sched/scheduler.c:99-250 | it succeeds if and only if there is such a slot and four pages are left, five for user code |
| `Scheduling.SuccessiveIds` | src/kernel/sched/scheduler.c:113-190 | creations that succeed one after the other return successive ids |
| `Scheduling.StartSafe` | src/kernel/sched/scheduler.c:283-319 | from any state, starting succeeds iff a slot is READY, and then exactly one slot is RUNNING, it is current, and the TSS stack is its own |
| `Scheduling.TickFrame` | src/kernel/sched/scheduler.c:253-280 | a tick allocates nothing, keeps names, ids, stacks and entries, and touches registers, memory and contexts only by switching from one task to another |
| `Scheduling.StartFrame` | src/kernel/sched/scheduler.c:283-319 | a start changes of the tasks their states only, and if it fails nothing but the current task |
| `Scheduling.CreateFrame` | src/kernel/sched/scheduler.c:99-250 | a creation changes neither the processor nor the TSS nor any other slot |
| `Scheduling.OneRunning` | src/kernel/sched/scheduler.c:253-319 | after a successful start that stays true in every run of ticks, creations and task work |
| `Scheduling.EarlyTicks` | src/kernel/sched/scheduler.c:253-319 | if one or more ticks came before the start, the start would succeed if and only if at least two slots were READY |
| `Scheduling.StrayRunning` | src/kernel/sched/scheduler.c:253-280 | with one RUNNING slot but no current task, a tick makes two RUNNING slots if and only if a slot is READY |
| `Switching.TwoRunning` | src/kernel/sched/scheduler.c:99-319 | from initialisation, one creation, a tick, the start that then fails, a second creation and a tick get there |
| `Scheduling.BoundedWaiting` | src/kernel/sched/scheduler.c:65-74 | a READY slot becomes current within as many ticks as it is places away, at most MAX_TASKS - 1, while tasks may be created |
| `Scheduling.FullTableMovesByOne` | src/kernel/sched/scheduler.c:65-74 | with all slots taken each tick moves on by exactly one slot, so the bound is met |
| `Scheduling.TickBalance` | src/kernel/sched/scheduler.c:253-280 | with a fixed set of tasks and no ticks before the start, the tick counts sum to the number of ticks and no two differ by more than one |
| `Switching.SwitchIs` | src/kernel/sched/context_switch.asm:47-75 | the only memory word a switch changes is the return address pushed on the old task's own stack; storing rip at the new stack's top changes nothing |
| `Switching.StepKeeps` | src/kernel/sched/scheduler.c:99-280 | every tick, creation and legal work step keeps stacks disjoint, the running task on its own stack and every READY task parked on its own |
| `Switching.SleeperWakes` | src/kernel/sched/context_switch.asm:47-75 | however long it waits, a READY task wakes with exactly its saved context, its stack untouched |
| `Switching.Transparent` | src/kernel/sched/context_switch.asm:47-75 | a task switched away by a tick resumes after its call with r12-r15, rbx, rbp and rsp as before the call, and no stack word at or above rsp changed |
| `Switching.FreshStart` | src/kernel/sched/scheduler.c:147-165 | a task created while others run first executes its entry (or the user bootstrap) on top of its own four-page stack |
| `Switching.BootedByCreating` | src/kernel/sched/scheduler.c:99-250 | however many tasks are created at boot, the first eight fill the slots in order, each parked at the first instruction its own creator gave |
| `Switching.StartEnters` | src/kernel/sched/task_bootstrap.asm:37-49 | the start enters the task created first at the instruction its creator gave, with its initial registers, on its own stack, and leaves all others parked |
| `Switching.FirstBootTask` | src/kernel/sched/scheduler.c:283-319 | so from initialisation the first task begins at its entry, one word below the top of its stack |
| `Switching.LaterBootTask` | src/kernel/sched/scheduler.c:253-280 | and every other boot-time task begins, when its turn comes, at its own entry on top of its stack |
| `Switching.FromBoot` | src/kernel/sched/scheduler.c:77-319 | from initialisation with at least one task created, the start succeeds, and any legal run leaves one task on its own stack and all others parked on theirs |
| `Checksum.NetChecksum` | src/kernel/drivers/network/net.c:62-83 | the 32-bit accumulation never overflows and, folded and complemented, is `Sum16` |
| `Checksum.FoldIsResidue` | src/kernel/drivers/network/net.c:76-79 | folding is reduction modulo 65535, where only 0 folds to 0 |
| `Checksum.FilledFieldVerifies` | src/kernel/drivers/network/net.c:156-161 | storing the checksum in a zeroed aligned field makes the recomputed checksum 0 |
| `Checksum.VerifiesIff` | src/kernel/drivers/network/net.c:62-83 | the checksum is 0 exactly when the words add up to a non-zero multiple of 65535 |
| `Checksum.SwapCommutes` | src/kernel/drivers/network/net.c:62-83 | for even lengths, swapping the bytes of every word swaps the bytes of the checksum (RFC 1071, section 2) |
| `Checksum.OddLengthAgrees` | src/kernel/drivers/network/net.c:71-74 | for odd lengths the code agrees with zero-padding (RFC 1071, section 4.1) if and only if the last byte is 0 |
| `Formats.ChecksumExample` | src/kernel/drivers/network/net.c:62-83 | the example of RFC 1071, section 3, and data of no byte and of one |
| `Vga.Display.constructor` | src/kernel/drivers/display/vga.c:60-70 | initialisation leaves a blank screen, an empty ring and the live view |
| `Vga.Display.ClearAll` | src/kernel/drivers/display/vga.c:83-96 | computes `Clear` |
| `Vga.Display.ScrollUp` | src/kernel/drivers/display/vga.c:99-116 | the copy loops compute `Scroll`: top line into the ring, rows up, last row blank |
| `Vga.Display.PutChar` | src/kernel/drivers/display/vga.c:119-149 | computes `Put`: back to the live view, write, wrap, scroll |
| `Vga.Display.ScrollbackUp` | src/kernel/drivers/display/vga.c:170-187 | computes `Up`: saves the live screen once, clamps the offset, renders |
| `Vga.Display.ScrollbackDown` | src/kernel/drivers/display/vga.c:190-210 | computes `Down`: restores the live screen at offset 0, renders otherwise |
| `Vga.Display.ScrollbackReset` | src/kernel/drivers/display/vga.c:213-227 | computes `Reset` |
| `Vga.Display.RenderView` | src/kernel/drivers/display/vga.c:235-271 | the row loops compute `Render` |
| `Screen.CellLaw` | src/kernel/drivers/display/vga.c:119-149 | a cell holds the character in its low byte and the colour in its high one, which characters from 128 up fill with ones |
| `Screen.PrintLaw` | src/kernel/drivers/display/vga.c:135-143 | a printable character goes to the cursor's row and column, every other place is unchanged, and the cursor moves one on, from column 79 to the next row |
| `Screen.NewlineLaw` | src/kernel/drivers/display/vga.c:125-127 | a newline writes nothing and goes to the start of the next row |
| `Screen.BackspaceLaw` | src/kernel/drivers/display/vga.c:128-136 | a backspace goes back one place, over the start of a row too, and blanks it and nothing else |
| `Screen.TypeThenErase` | src/kernel/drivers/display/vga.c:119-149 | a character and a backspace return the cursor and leave a blank, the wrap at column 79 included |
| `Screen.LineLaw` | src/kernel/drivers/display/vga.c:119-149 | characters that fit on the line stand in its row one after the other, and the rest of the screen is unchanged |
| `Screen.ScrollLaw` | src/kernel/drivers/display/vga.c:107-116 | scrolling moves each row one up and blanks the last |
| `Screen.PutLaw` | src/kernel/drivers/display/vga.c:99-149 | a character from the live view scrolls exactly when it leaves the last row, and the top row then goes to the next line of the ring |
| `Screen.OffsetLaw` | src/kernel/drivers/display/vga.c:170-210 | how far back the view is after paging up or down by any count |
| `Scrollback.StepShows` | src/kernel/drivers/display/vga.c:83-271 | every operation keeps the live contents equal to a terminal without scrollback, and the ring equal to the last 500 lines of its log |
| `Scrollback.Transparent` | src/kernel/drivers/display/vga.c:60-271 | so from initialisation, for every sequence of operations, going back to the live view leaves exactly that terminal's screen |
| `Scrollback.ViewShowsLog` | src/kernel/drivers/display/vga.c:235-271 | after scrolling, every row is the log's line while offset + 25 <= 500; beyond that exactly the rows older than the ring show the line 500 later |
| `Scrollback.OverwrittenRow` | src/kernel/drivers/display/vga.c:241-266 | a row older than the ring is shown right if and only if the line that replaced it is the same |
| `Scrollback.WrongRow` | src/kernel/drivers/display/vga.c:241-266 | from initialisation, one letter, 549 newlines and paging up 500 lines show such a row wrong |
| `Scrollback.PagedShows` | src/kernel/drivers/display/vga.c:235-271 | of the history made of the log and the rows of the screen, the live view shows the last 25 lines, but the view n lines back shows those n lines and one screen further back |
| `Scrollback.Reachable` | src/kernel/drivers/display/vga.c:170-271 | so within the ring exactly the screen's rows and the last 500 logged lines but the newest are on some row of some view |
| `Scrollback.NewestHidden` | src/kernel/drivers/display/vga.c:170-271 | a newest logged line unlike all others is on no row of any view within the ring |

## Left out

- Long-name entries, bad-cluster marks, remounting and disk errors: outside the domain in which the driver keeps its own invariants.
- The driver's partition lookup: the partition start is a parameter; `Builder.ImagePartition` says what the image's partition table holds.
- `fat32_stat`, `fat32_readdir`, directory listings and `root_dir_buffer` as a second copy of the root directory: unimplemented, display only, or always reloaded before use.
- Driver.Fat32.Mkdir: requires a parent that is found and a last component, because the source goes on with an unset cluster number or name otherwise.
- Driver.Fat32.Write: requires a path that ends in a component, because the source reads an unset name otherwise, and directories whose slots hold cluster numbers that exist; `Boot.SlotsFreeable` shows that every consistent volume has such directories.
- Driver.MountDisk: requires a boot sector with at least one sector per cluster, since the source divides by that number, and with at most eight, and a layout that lies on the disk with equal table copies.
- Driver.Fat32.Read: does not model the conversion of the count to a signed 32-bit result for reads of 2 GB and more.
- Builder.Build: file names are bytes, so the script's rejection of characters outside ASCII is not modelled.
- FatTable.AllocatorLaw: is about the allocator as written; no variant that reserves each cluster is modelled.
- Scheduler.Kernel.CreateTask: task ids are unbounded, so the overflow of the id counter after two billion creations is not modelled.
- Scheduler.Kernel.OnTick: takes the return address that the call of `context_switch` pushes as a parameter, and models memory as aligned 8-byte words.
- `user_task_bootstrap` after its first instruction, `usermode_enter`, interrupt entry and the enabling of interrupts: processor mechanisms outside the model.
- Switching.Transparent: assumes, as the kernel does, that tasks write neither other tasks' stacks nor the task table; loaded programs are not shown to be disjoint from allocated pages, because the code does not ensure it.
- Memory.Heap.AllocInOrder: states the page order of runs without `pmm_free_page`, which nothing calls.
- Loader.LoadProgram: the one static file handle is a fresh object per open, and closing it has no effect.
- Scrollback.Transparent: covers non-negative scroll counts, the only ones the kernel uses; the display methods take any count, without the overflow of the signed counters.
- Vga.Display.SetColor: takes the packed colour byte; hardware cursor writes are left out.
- Packet assembly, ATA, PCI, network card, timer, serial and keyboard drivers, the shell apart from what `Shell.Cat` reads, `printf`, GDT and IDT set-up, system calls: hardware protocols, output and table set-up.
