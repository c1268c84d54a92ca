/** The storage-image builder: boot sector, mirrored tables, root directory and file data, written
    in place into one image; and the driver's mount, which reads the geometry back. */
module Builder {
  import opened Bytes
  import opened FatTable
  import opened Layout
  import opened Names
  import opened Directory
  import opened Files
  import opened Operations

  const IMAGE_SIZE := 64 * 1024 * 1024
  const PARTITION_START := 2048
  const PARTITION_SECTORS := 131072 - 2048
  const RESERVED_SECTORS := 32
  const SECTORS_PER_FAT := 1024
  const FAT_START := 2080
  const DATA_START := 4128
  const CLUSTER := 4096

  /** The geometry the builder lays out. */
  const G := Geometry(FAT_START, SECTORS_PER_FAT, 2, DATA_START, 8, 15868, 2)

  datatype FileSpec = FileSpec(name: seq<byte>, ext: seq<byte>, data: seq<byte>)

  // ---- sectors ----

  /** `make_mbr`: one partition of type 0x0C. */
  function Mbr(): (r: seq<byte>)
    ensures |r| == SECTOR
  {
    Zeros(446) + [0, 0, 2, 0, 0x0C, 0, 0, 0] + LE32(PARTITION_START) + LE32(PARTITION_SECTORS) + Zeros(48) + [0x55, 0xAA]
  }

  /** `make_fat32_boot_sector`: jump and name, the common fields, those of FAT32, and the rest. */
  function BootSector(): (r: seq<byte>)
    ensures |r| == SECTOR
  {
    BootStart() + BootCommon() + BootFat32() + BootEnd()
  }

  function BootStart(): (r: seq<byte>)
    ensures |r| == 11
  {
    [0xEB, 0x58, 0x90] + [0x58, 0x4F, 0x53, 0x42, 0x4F, 0x4F, 0x54, 0x20]
  }

  function BootCommon(): (r: seq<byte>)
    ensures |r| == 25
  {
    LE16(SECTOR) + [8] + LE16(RESERVED_SECTORS) + [2] + LE16(0) + LE16(0) + [0xF8] + LE16(0) + LE16(63) + LE16(255)
    + LE32(PARTITION_START) + LE32(PARTITION_SECTORS)
  }

  function BootFat32(): (r: seq<byte>)
    ensures |r| == 16
  {
    LE32(SECTORS_PER_FAT) + LE16(0) + LE16(0) + LE32(2) + LE16(1) + LE16(6)
  }

  function BootEnd(): (r: seq<byte>)
    ensures |r| == 460
  {
    Zeros(12) + [0x80, 0, 0x29] + LE32(0x12345678)
    + [0x58, 0x4F, 0x53, 0x20, 0x53, 0x54, 0x4F, 0x52, 0x41, 0x47, 0x45] + [0x46, 0x41, 0x54, 0x33, 0x32, 0x20, 0x20, 0x20]
    + Zeros(420) + [0x55, 0xAA]
  }

  lemma BootFields()
    ensures var b := BootSector();
            && b[13] == 8 && b[16] == 2 && b[510] == 0x55 && b[511] == 0xAA
            && U16At(b, 14) == RESERVED_SECTORS && U32At(b, 32) == PARTITION_SECTORS
            && U32At(b, 36) == SECTORS_PER_FAT && U32At(b, 44) == 2
  {
  }

  /** Mounting any disk that carries this boot sector recovers the builder's layout. */
  lemma MountRecovers(disk: seq<byte>)
    requires |disk| >= SECTOR * PARTITION_START + SECTOR
    requires Slice(disk, SECTOR * PARTITION_START, SECTOR) == BootSector()
    ensures disk[SECTOR * PARTITION_START + 13] != 0 && Mount(disk, PARTITION_START) == Some(G)
  {
    hide BootSector;
    BootFields();
    assert disk[SECTOR * PARTITION_START + 13] == BootSector()[13];
  }

  lemma GeometryOk()
    ensures G.Ok() && G.DiskSize() == IMAGE_SIZE && G.ClusterSize() == CLUSTER && Slots(G) == 128
  {
    BlocksIsProduct(2, SECTORS_PER_FAT);
    BlocksIsProduct(15868, 8);
  }

  lemma ClusterLbaIs(c: nat)
    requires 2 <= c
    ensures G.ClusterLba(c) == DATA_START + 8 * (c - 2)
  {
    BlocksIsProduct(c - 2, 8);
  }

  // ---- where files go ----

  /** `clusters_needed`: an empty file still gets a cluster. */
  function CountOf(f: FileSpec): (k: nat)
    ensures k > 0
  {
    if f.data == [] then 1 else ClustersFor(|f.data|, CLUSTER)
  }

  /** The first cluster of file `i`: files are laid out one after the other from cluster 3. */
  function FirstOf(files: seq<FileSpec>, i: nat): (c: nat)
    requires i <= |files|
    ensures c >= 3
  {
    if i == 0 then 3 else FirstOf(files, i - 1) + CountOf(files[i - 1])
  }

  /** The placement computed for each file. */
  ghost predicate Placed(files: seq<FileSpec>, firsts: seq<nat>, counts: seq<nat>) {
    && |firsts| == |counts| <= |files|
    && forall i {:trigger firsts[i]} {:trigger counts[i]} :: 0 <= i < |firsts| ==>
         firsts[i] == FirstOf(files, i) && counts[i] == CountOf(files[i])
  }

  lemma FirstStart(files: seq<FileSpec>)
    ensures FirstOf(files, 0) == 3
  {
  }

  lemma FirstNext(files: seq<FileSpec>, i: nat)
    requires i < |files|
    ensures FirstOf(files, i + 1) == FirstOf(files, i) + CountOf(files[i])
  {
  }

  lemma {:induction false} FirstOrder(files: seq<FileSpec>, i: nat, j: nat)
    requires i <= j <= |files|
    ensures FirstOf(files, i) <= FirstOf(files, j)
    ensures i < j ==> FirstOf(files, i) + CountOf(files[i]) <= FirstOf(files, j)
    decreases j
  {
    if i < j {
      FirstOrder(files, i, j - 1);
    }
  }

  /** The files fit: a slot each with one left for the end marker, enough clusters, and sizes of 32 bits. */
  predicate Placeable(files: seq<FileSpec>) {
    && |files| <= 127 && FirstOf(files, |files|) <= G.Clusters()
    && forall i :: 0 <= i < |files| ==> |files[i].data| < 0x1_0000_0000
  }

  // ---- the table ----

  const TABLE := SECTOR * SECTORS_PER_FAT

  function Reserved(): (t: seq<byte>)
    ensures |t| == TABLE
  {
    Splice(Splice(Splice(Zeros(TABLE), 0, LE32(0x0FFF_FFF8)), 4, LE32(0x0FFF_FFFF)), 8, LE32(0x0FFF_FFFF))
  }

  /** The table with the first `j` links of a chain of `count` clusters stored. */
  function ChainTable(t: seq<byte>, first: nat, count: nat, j: nat): (r: seq<byte>)
    requires |t| == TABLE && j <= count && first + count <= G.Clusters()
    ensures |r| == TABLE
    decreases j
  {
    if j == 0 then t
    else Splice(ChainTable(t, first, count, j - 1), 4 * (first + j - 1), LE32(if j == count then END_MARK else first + j))
  }

  function FileTable(files: seq<FileSpec>, i: nat): (r: seq<byte>)
    requires i <= |files| && FirstOf(files, i) <= G.Clusters()
    ensures |r| == TABLE
    decreases i
  {
    if i == 0 then Reserved()
    else ChainTable(FileTable(files, i - 1), FirstOf(files, i - 1), CountOf(files[i - 1]), CountOf(files[i - 1]))
  }

  /** The entry of cluster `c` once the first `i` files have been chained. */
  function BuiltEntry(files: seq<FileSpec>, i: nat, c: nat): (e: nat)
    requires i <= |files|
    decreases i
  {
    if i == 0 then (if c == 0 then 0x0FFF_FFF8 else if c <= 2 then END_MARK else 0)
    else if FirstOf(files, i - 1) <= c < FirstOf(files, i) then (if c == FirstOf(files, i) - 1 then END_MARK else c + 1)
    else BuiltEntry(files, i - 1, c)
  }

  lemma {:induction false} ChainTableWord(t: seq<byte>, first: nat, count: nat, j: nat, c: nat)
    requires |t| == TABLE && j <= count && first + count <= G.Clusters() && c < G.Clusters()
    ensures U32At(ChainTable(t, first, count, j), 4 * c)
            == if first <= c < first + j then (if c == first + count - 1 then END_MARK else c + 1) else U32At(t, 4 * c)
    decreases j
  {
    hide U32At, LE32, Splice;
    if j > 0 {
      ChainTableWord(t, first, count, j - 1, c);
      U32AfterSplice(ChainTable(t, first, count, j - 1), 4 * (first + j - 1), if j == count then END_MARK else first + j, 4 * c);
    }
  }

  lemma ReservedWord(c: nat)
    requires c < G.Clusters()
    ensures U32At(Reserved(), 4 * c) == if c == 0 then 0x0FFF_FFF8 else if c <= 2 then END_MARK else 0
  {
    hide LE32, Splice;
    var t0 := Zeros(TABLE);
    var t1 := Splice(t0, 0, LE32(0x0FFF_FFF8));
    var t2 := Splice(t1, 4, LE32(0x0FFF_FFFF));
    U32AfterSplice(t0, 0, 0x0FFF_FFF8, 4 * c);
    U32AfterSplice(t1, 4, 0x0FFF_FFFF, 4 * c);
    U32AfterSplice(t2, 8, 0x0FFF_FFFF, 4 * c);
  }

  lemma {:induction false} FileTableWord(files: seq<FileSpec>, i: nat, c: nat)
    requires i <= |files| && FirstOf(files, i) <= G.Clusters() && c < G.Clusters()
    ensures U32At(FileTable(files, i), 4 * c) == BuiltEntry(files, i, c)
    decreases i
  {
    hide U32At, Reserved;
    if i == 0 {
      ReservedWord(c);
    } else {
      FileTableWord(files, i - 1, c);
      ChainTableWord(FileTable(files, i - 1), FirstOf(files, i - 1), CountOf(files[i - 1]), CountOf(files[i - 1]), c);
    }
  }

  // ---- the root directory ----

  /** At most the first `n` bytes. */
  function Cut(s: seq<byte>, n: nat): (r: seq<byte>)
    ensures |r| <= n && (|s| <= n ==> r == s)
  {
    if |s| <= n then s else s[..n]
  }

  /** Name and extension, cut and padded with spaces to 8 and 3 bytes. */
  function PadName(f: FileSpec): (r: seq<byte>)
    ensures |r| == 11
  {
    var name, ext := Cut(f.name, 8), Cut(f.ext, 3);
    name + Spaces(8 - |name|) + ext + Spaces(3 - |ext|)
  }

  function EntryFor(files: seq<FileSpec>, i: nat): (s: seq<byte>)
    requires Placeable(files) && i < |files|
    ensures |s| == SLOT
  {
    FirstOrder(files, i, |files|);
    MakeSlot(PadName(files[i]), 0x20, FirstOf(files, i), |files[i].data|)
  }

  function RootDir(files: seq<FileSpec>, i: nat): (r: seq<byte>)
    requires Placeable(files) && i <= |files|
    ensures |r| == CLUSTER
    decreases i
  {
    if i == 0 then Zeros(CLUSTER) else PutSlot(RootDir(files, i - 1), i - 1, EntryFor(files, i - 1))
  }

  lemma {:induction false} RootSlot(files: seq<FileSpec>, i: nat, j: nat)
    requires Placeable(files) && i <= |files| && j < 128
    ensures SlotAt(RootDir(files, i), j) == if j < i then EntryFor(files, j) else Zeros(SLOT)
    decreases i
  {
    hide EntryFor, PutSlot;
    if i > 0 {
      RootSlot(files, i - 1, j);
      SlotAfterPut(RootDir(files, i - 1), i - 1, EntryFor(files, i - 1), j);
    }
  }

  // ---- file data ----

  /** The j-th cluster of a file, padded with zeros. */
  function Chunk(data: seq<byte>, j: nat): (r: seq<byte>)
    ensures |r| == CLUSTER
  {
    Piece(Zeros(CLUSTER), data, CLUSTER * j)
  }

  function Offset512(c: nat): nat
    requires c >= 2
  {
    SECTOR * (DATA_START + 8 * (c - 2))
  }

  function FileData(image: seq<byte>, first: nat, data: seq<byte>, j: nat): (r: seq<byte>)
    requires |image| == IMAGE_SIZE && 2 <= first && first + j <= G.Clusters()
    ensures |r| == IMAGE_SIZE
    decreases j
  {
    if j == 0 then image
    else Splice(FileData(image, first, data, j - 1), Offset512(first + j - 1), Chunk(data, j - 1))
  }

  function AllData(image: seq<byte>, files: seq<FileSpec>, i: nat): (r: seq<byte>)
    requires |image| == IMAGE_SIZE && i <= |files| && FirstOf(files, i) <= G.Clusters()
    ensures |r| == IMAGE_SIZE
    decreases i
  {
    if i == 0 then image
    else FileData(AllData(image, files, i - 1), FirstOf(files, i - 1), files[i - 1].data, CountOf(files[i - 1]))
  }

  /** Everything before the file data. */
  function Header(files: seq<FileSpec>): (r: seq<byte>)
    requires Placeable(files)
    ensures |r| == IMAGE_SIZE
  {
    var table := FileTable(files, |files|);
    var booted := Splice(Splice(Zeros(IMAGE_SIZE), 0, Mbr()), SECTOR * PARTITION_START, BootSector());
    var tabled := Splice(Splice(booted, SECTOR * FAT_START, table), SECTOR * (FAT_START + SECTORS_PER_FAT), table);
    Splice(tabled, Offset512(2), RootDir(files, |files|))
  }

  function Image(files: seq<FileSpec>): (r: seq<byte>)
    requires Placeable(files)
    ensures |r| == IMAGE_SIZE
  {
    AllData(Header(files), files, |files|)
  }

  // ---- the builder's code ----

  /** Slice assignment into a bytearray. */
  method Blit(image: array<byte>, at: nat, bytes: seq<byte>)
    requires at + |bytes| <= image.Length
    modifies image
    ensures image[..] == Splice(old(image[..]), at, bytes)
  {
    forall i | 0 <= i < |bytes| {
      image[at + i] := bytes[i];
    }
  }

  method ClustersNeeded(size: nat) returns (count: nat)
    ensures count == if size == 0 then 1 else ClustersFor(size, CLUSTER)
  {
    hide ClustersFor;
    ClustersForIsCeiling(size, CLUSTER);
    count := if size == 0 then 1 else (size + CLUSTER - 1) / CLUSTER;
  }

  /** The cluster assignment of `build_file_table`: a running counter. */
  method PlaceFiles(files: seq<FileSpec>) returns (firsts: seq<nat>, counts: seq<nat>)
    ensures |firsts| == |files| && Placed(files, firsts, counts)
  {
    hide ClustersFor, FirstOf;
    firsts, counts := [], [];
    var next := 3;
    FirstStart(files);
    var i := 0;
    while i < |files|
      invariant 0 <= i <= |files| && |firsts| == i && Placed(files, firsts, counts) && next == FirstOf(files, i)
    {
      FirstNext(files, i);
      var count := ClustersNeeded(|files[i].data|);
      firsts, counts := firsts + [next], counts + [count];
      next := next + count;
      i := i + 1;
    }
  }

  /** `make_fat_tables`: one table, chained file by file, copied twice. */
  method MakeFatTables(image: array<byte>, files: seq<FileSpec>, firsts: seq<nat>, counts: seq<nat>)
    requires image.Length == IMAGE_SIZE && Placeable(files) && |firsts| == |files| && Placed(files, firsts, counts)
    modifies image
    ensures var table := FileTable(files, |files|);
            image[..] == Splice(Splice(old(image[..]), SECTOR * FAT_START, table), SECTOR * (FAT_START + SECTORS_PER_FAT), table)
  {
    hide Splice, CountOf, FirstOf, FileTable;
    var table := MakeTable(files, firsts, counts);
    Blit(image, SECTOR * FAT_START, table);
    Blit(image, SECTOR * (FAT_START + SECTORS_PER_FAT), table);
  }

  method MakeTable(files: seq<FileSpec>, firsts: seq<nat>, counts: seq<nat>) returns (table: seq<byte>)
    requires Placeable(files) && |firsts| == |files| && Placed(files, firsts, counts)
    ensures table == FileTable(files, |files|)
  {
    hide Splice, LE32, CountOf, ChainTable, FirstOf;
    var fat := new byte[TABLE](_ => 0);
    assert fat[..] == Zeros(TABLE);
    Blit(fat, 0, LE32(0x0FFF_FFF8));
    Blit(fat, 4, LE32(0x0FFF_FFFF));
    Blit(fat, 8, LE32(0x0FFF_FFFF));
    FirstOrder(files, 0, |files|);
    var i := 0;
    while i < |files|
      invariant 0 <= i <= |files| && FirstOf(files, i) <= G.Clusters()
      invariant fat[..] == FileTable(files, i)
    {
      FirstOrder(files, i + 1, |files|);
      FirstNext(files, i);
      ChainFile(fat, firsts[i], counts[i]);
      i := i + 1;
    }
    table := fat[..];
  }

  /** The inner loop of `make_fat_tables`. */
  method ChainFile(fat: array<byte>, first: nat, count: nat)
    requires fat.Length == TABLE && first + count <= G.Clusters()
    modifies fat
    ensures fat[..] == ChainTable(old(fat[..]), first, count, count)
  {
    hide Splice, LE32;
    var i := 0;
    while i < count
      invariant 0 <= i <= count && fat[..] == ChainTable(old(fat[..]), first, count, i)
    {
      var c := first + i;
      Blit(fat, 4 * c, LE32(if i == count - 1 then 0x0FFF_FFFF else c + 1));
      i := i + 1;
    }
  }

  /** `make_root_directory`. */
  method MakeRootDirectory(image: array<byte>, files: seq<FileSpec>, firsts: seq<nat>, ghost counts: seq<nat>)
    requires image.Length == IMAGE_SIZE && Placeable(files) && |firsts| == |files| && Placed(files, firsts, counts)
    modifies image
    ensures image[..] == Splice(old(image[..]), Offset512(2), RootDir(files, |files|))
  {
    hide Splice, MakeSlot, FirstOf, PadName;
    var root := new byte[CLUSTER](_ => 0);
    assert root[..] == Zeros(CLUSTER);
    var i := 0;
    while i < |files|
      invariant 0 <= i <= |files| && root[..] == RootDir(files, i) && image[..] == old(image[..])
      modifies root
    {
      FirstOrder(files, i, |files|);
      Blit(root, 32 * i, MakeSlot(PadName(files[i]), 0x20, firsts[i], |files[i].data|));
      i := i + 1;
    }
    MarkEnd(root, files);
    Blit(image, Offset512(2), root[..]);
  }

  /** The end marker: the slot after the last file is already zero. */
  method MarkEnd(root: array<byte>, files: seq<FileSpec>)
    requires Placeable(files) && root.Length == CLUSTER && root[..] == RootDir(files, |files|)
    modifies root
    ensures root[..] == old(root[..])
  {
    RootSlot(files, |files|, |files|);
    assert root[..][32 * |files|] == SlotAt(RootDir(files, |files|), |files|)[0];
    root[32 * |files|] := 0;
  }

  /** `make_file_data`. */
  method MakeFileData(image: array<byte>, files: seq<FileSpec>, firsts: seq<nat>, counts: seq<nat>)
    requires image.Length == IMAGE_SIZE && Placeable(files) && |firsts| == |files| && Placed(files, firsts, counts)
    modifies image
    ensures image[..] == AllData(old(image[..]), files, |files|)
  {
    hide CountOf, FileData, FirstOf;
    var i := 0;
    FirstOrder(files, 0, |files|);
    while i < |files|
      invariant 0 <= i <= |files| && FirstOf(files, i) <= G.Clusters() && image[..] == AllData(old(image[..]), files, i)
    {
      FirstOrder(files, i + 1, |files|);
      FirstNext(files, i);
      WriteFileData(image, firsts[i], files[i].data, counts[i]);
      i := i + 1;
    }
  }

  method WriteFileData(image: array<byte>, first: nat, data: seq<byte>, count: nat)
    requires image.Length == IMAGE_SIZE && 2 <= first && first + count <= G.Clusters()
    modifies image
    ensures image[..] == FileData(old(image[..]), first, data, count)
  {
    hide Splice, Chunk;
    var i := 0;
    while i < count
      invariant 0 <= i <= count && image[..] == FileData(old(image[..]), first, data, i)
    {
      var chunk := data[Min(i * CLUSTER, |data|)..Min((i + 1) * CLUSTER, |data|)];
      ChunkIs(data, i);
      Blit(image, Offset512(first + i), chunk + Zeros(CLUSTER - |chunk|));
      i := i + 1;
    }
  }

  function Min(a: nat, b: nat): nat {
    if a < b then a else b
  }

  lemma ChunkIs(data: seq<byte>, i: nat)
    ensures var chunk := data[Min(i * CLUSTER, |data|)..Min((i + 1) * CLUSTER, |data|)];
            |chunk| <= CLUSTER && chunk + Zeros(CLUSTER - |chunk|) == Chunk(data, i)
  {
  }

  /** The whole build. */
  method Build(files: seq<FileSpec>) returns (image: array<byte>)
    requires Placeable(files)
    ensures fresh(image) && image[..] == Image(files)
  {
    hide Splice, Mbr, BootSector, FileTable, RootDir, AllData;
    image := new byte[IMAGE_SIZE](_ => 0);
    assert image[..] == Zeros(IMAGE_SIZE);
    var firsts, counts := PlaceFiles(files);
    Blit(image, 0, Mbr());
    Blit(image, SECTOR * PARTITION_START, BootSector());
    MakeFatTables(image, files, firsts, counts);
    MakeRootDirectory(image, files, firsts, counts);
    MakeFileData(image, files, firsts, counts);
  }

  // ---- what the image holds ----

  lemma {:induction false} FileDataOutside(image: seq<byte>, first: nat, data: seq<byte>, j: nat, from: nat, n: nat)
    requires |image| == IMAGE_SIZE && 2 <= first && first + j <= G.Clusters() && from + n <= IMAGE_SIZE
    requires from + n <= Offset512(first) || Offset512(first + j) <= from
    ensures Slice(FileData(image, first, data, j), from, n) == Slice(image, from, n)
    decreases j
  {
    hide Chunk, Splice, Slice;
    if j > 0 {
      FileDataOutside(image, first, data, j - 1, from, n);
      SliceOfSplice(FileData(image, first, data, j - 1), Offset512(first + j - 1), Chunk(data, j - 1), from, n);
    }
  }

  lemma {:induction false} FileDataInside(image: seq<byte>, first: nat, data: seq<byte>, j: nat, x: nat)
    requires |image| == IMAGE_SIZE && 2 <= first && first + j <= G.Clusters() && x < j
    ensures Slice(FileData(image, first, data, j), Offset512(first + x), CLUSTER) == Chunk(data, x)
    decreases j
  {
    hide Chunk, Splice, Slice;
    SliceOfSplice(FileData(image, first, data, j - 1), Offset512(first + j - 1), Chunk(data, j - 1), Offset512(first + x), CLUSTER);
    if x < j - 1 {
      FileDataInside(image, first, data, j - 1, x);
    }
  }

  lemma {:induction false} AllDataBefore(image: seq<byte>, files: seq<FileSpec>, i: nat, from: nat, n: nat)
    requires |image| == IMAGE_SIZE && i <= |files| && FirstOf(files, i) <= G.Clusters() && from + n <= Offset512(3)
    ensures Slice(AllData(image, files, i), from, n) == Slice(image, from, n)
    decreases i
  {
    hide FileData, CountOf, Slice;
    if i > 0 {
      AllDataBefore(image, files, i - 1, from, n);
      FileDataOutside(AllData(image, files, i - 1), FirstOf(files, i - 1), files[i - 1].data, CountOf(files[i - 1]), from, n);
    }
  }

  lemma {:induction false} AllDataInside(image: seq<byte>, files: seq<FileSpec>, i: nat, k: nat, x: nat)
    requires |image| == IMAGE_SIZE && k < i <= |files| && FirstOf(files, i) <= G.Clusters() && x < CountOf(files[k])
    ensures FirstOf(files, k) + x < G.Clusters()
    ensures Slice(AllData(image, files, i), Offset512(FirstOf(files, k) + x), CLUSTER) == Chunk(files[k].data, x)
    decreases i
  {
    hide FileData, CountOf, Slice, Chunk;
    FirstOrder(files, k, i);
    var before := AllData(image, files, i - 1);
    if k == i - 1 {
      FileDataInside(before, FirstOf(files, k), files[k].data, CountOf(files[k]), x);
    } else {
      FirstOrder(files, k, i - 1);
      AllDataInside(image, files, i - 1, k, x);
      FileDataOutside(before, FirstOf(files, i - 1), files[i - 1].data, CountOf(files[i - 1]), Offset512(FirstOf(files, k) + x), CLUSTER);
    }
  }

  /** The header regions of the image. */
  lemma HeaderHolds(files: seq<FileSpec>)
    requires Placeable(files)
    ensures Slice(Header(files), 0, SECTOR) == Mbr()
    ensures Slice(Header(files), SECTOR * PARTITION_START, SECTOR) == BootSector()
    ensures Slice(Header(files), SECTOR * FAT_START, TABLE) == FileTable(files, |files|)
    ensures Slice(Header(files), SECTOR * (FAT_START + SECTORS_PER_FAT), TABLE) == FileTable(files, |files|)
    ensures Slice(Header(files), Offset512(2), CLUSTER) == RootDir(files, |files|)
  {
    hide FileTable, BootSector, Mbr, RootDir, Splice, Slice, FirstOf, CountOf;
    var table, root := FileTable(files, |files|), RootDir(files, |files|);
    var z := Splice(Zeros(IMAGE_SIZE), 0, Mbr());
    var a := Splice(z, SECTOR * PARTITION_START, BootSector());
    var b := Splice(a, SECTOR * FAT_START, table);
    var c := Splice(b, SECTOR * (FAT_START + SECTORS_PER_FAT), table);
    var y := Zeros(IMAGE_SIZE);
    SliceOfSplice(y, 0, Mbr(), 0, SECTOR);
    SliceOfSplice(z, SECTOR * PARTITION_START, BootSector(), 0, SECTOR);
    SliceOfSplice(a, SECTOR * FAT_START, table, 0, SECTOR);
    SliceOfSplice(b, SECTOR * (FAT_START + SECTORS_PER_FAT), table, 0, SECTOR);
    SliceOfSplice(c, Offset512(2), root, 0, SECTOR);
    SliceOfSplice(z, SECTOR * PARTITION_START, BootSector(), SECTOR * PARTITION_START, SECTOR);
    SliceOfSplice(a, SECTOR * FAT_START, table, SECTOR * PARTITION_START, SECTOR);
    SliceOfSplice(a, SECTOR * FAT_START, table, SECTOR * FAT_START, TABLE);
    SliceOfSplice(b, SECTOR * (FAT_START + SECTORS_PER_FAT), table, SECTOR * PARTITION_START, SECTOR);
    SliceOfSplice(b, SECTOR * (FAT_START + SECTORS_PER_FAT), table, SECTOR * FAT_START, TABLE);
    SliceOfSplice(b, SECTOR * (FAT_START + SECTORS_PER_FAT), table, SECTOR * (FAT_START + SECTORS_PER_FAT), TABLE);
    SliceOfSplice(c, Offset512(2), root, SECTOR * PARTITION_START, SECTOR);
    SliceOfSplice(c, Offset512(2), root, SECTOR * FAT_START, TABLE);
    SliceOfSplice(c, Offset512(2), root, SECTOR * (FAT_START + SECTORS_PER_FAT), TABLE);
    SliceOfSplice(c, Offset512(2), root, Offset512(2), CLUSTER);
  }

  lemma ImageHeader(files: seq<FileSpec>)
    requires Placeable(files)
    ensures Slice(Image(files), 0, SECTOR) == Mbr()
    ensures Slice(Image(files), SECTOR * PARTITION_START, SECTOR) == BootSector()
    ensures Slice(Image(files), SECTOR * FAT_START, TABLE) == FileTable(files, |files|)
    ensures Slice(Image(files), SECTOR * (FAT_START + SECTORS_PER_FAT), TABLE) == FileTable(files, |files|)
    ensures Slice(Image(files), Offset512(2), CLUSTER) == RootDir(files, |files|)
  {
    hide FileTable, Mbr, BootSector, RootDir, Header, AllData, Slice, FirstOf, CountOf;
    HeaderHolds(files);
    var h, n := Header(files), |files|;
    AllDataBefore(h, files, n, 0, SECTOR);
    AllDataBefore(h, files, n, SECTOR * PARTITION_START, SECTOR);
    AllDataBefore(h, files, n, SECTOR * FAT_START, TABLE);
    AllDataBefore(h, files, n, SECTOR * (FAT_START + SECTORS_PER_FAT), TABLE);
    AllDataBefore(h, files, n, Offset512(2), CLUSTER);
  }

  /** The image's first sector names one partition, of FAT32 type, where the driver is told to mount. */
  lemma ImagePartition(files: seq<FileSpec>)
    requires Placeable(files)
    ensures var mbr := Slice(Image(files), 0, SECTOR);
            && mbr[450] == 0x0C && U32At(mbr, 454) == PARTITION_START && U32At(mbr, 458) == PARTITION_SECTORS
            && mbr[510] == 0x55 && mbr[511] == 0xAA
  {
    hide Image, BootSector;
    ImageHeader(files);
    MbrFields();
  }

  lemma MbrFields()
    ensures var m := Mbr();
            && m[450] == 0x0C && U32At(m, 454) == PARTITION_START && U32At(m, 458) == PARTITION_SECTORS
            && m[510] == 0x55 && m[511] == 0xAA
  {
    var m := Mbr();
    assert m[454..458] == LE32(PARTITION_START) && m[458..462] == LE32(PARTITION_SECTORS);
    U32OfLE32(PARTITION_START);
    U32OfLE32(PARTITION_SECTORS);
    assert U32At(m, 454) == U32At(m[454..458], 0) && U32At(m, 458) == U32At(m[458..462], 0);
  }

  /** Mounting the image recovers the layout; the two tables are equal. */
  lemma ImageMounts(files: seq<FileSpec>)
    requires Placeable(files)
    ensures Image(files)[SECTOR * PARTITION_START + 13] != 0 && Mount(Image(files), PARTITION_START) == Some(G)
    ensures G.Ok() && |Image(files)| >= G.DiskSize() && Mirrored(Image(files), G)
    ensures FatBytes(Image(files), G, 0) == FileTable(files, |files|)
  {
    hide FileTable, BootSector, Image, Slice, FirstOf, CountOf, RootDir, Mount;
    GeometryOk();
    ImageHeader(files);
    MountRecovers(Image(files));
    assert Blocks(1, SECTORS_PER_FAT) == Blocks(0, SECTORS_PER_FAT) + SECTORS_PER_FAT;
    assert FatBase(G, 0) == SECTOR * FAT_START && FatBase(G, 1) == SECTOR * (FAT_START + SECTORS_PER_FAT);
  }

  /** The table of the mounted volume. */
  lemma ImageFat(files: seq<FileSpec>, c: nat)
    requires Placeable(files) && c < G.Clusters()
    ensures G.Ok() && |Image(files)| >= G.DiskSize()
    ensures VolOf(Image(files), G).fat[c] == BuiltEntry(files, |files|, c)
  {
    hide FileTable, Image, U32At, FirstOf, CountOf, BuiltEntry;
    ImageMounts(files);
    FileTableWord(files, |files|, c);
    EntryBound(files, |files|, c);
  }

  lemma {:induction false} EntryBound(files: seq<FileSpec>, i: nat, c: nat)
    requires i <= |files| && c < G.Clusters()
    ensures BuiltEntry(files, i, c) < 0x1000_0000
    decreases i
  {
    if i > 0 {
      EntryBound(files, i - 1, c);
    }
  }

  /** The clusters of the mounted volume. */
  lemma ImageRoot(files: seq<FileSpec>)
    requires Placeable(files)
    ensures G.Ok() && |Image(files)| >= G.DiskSize()
    ensures VolOf(Image(files), G).data[2] == RootDir(files, |files|)
  {
    hide FileTable, Image, RootDir, Placeable, Slice, FatOf;
    GeometryOk();
    ImageHeader(files);
    ClusterLbaIs(2);
  }

  lemma ImageData(files: seq<FileSpec>, k: nat, x: nat)
    requires Placeable(files) && k < |files| && x < CountOf(files[k])
    ensures G.Ok() && |Image(files)| >= G.DiskSize() && FirstOf(files, k) + x < G.Clusters()
    ensures VolOf(Image(files), G).data[FirstOf(files, k) + x] == Chunk(files[k].data, x)
  {
    hide FileTable, RootDir, Slice, FatOf, AllData, CountOf, FirstOf, Chunk, Header;
    GeometryOk();
    AllDataInside(Header(files), files, |files|, k, x);
    ClusterLbaIs(FirstOf(files, k) + x);
  }
}
