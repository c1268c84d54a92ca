/** The FAT32 driver: sector I/O, the one-sector table cache, and everything built on them.
    Each method is tied to a function of the abstract volume `VolOf(disk, g)`. */
module Driver {
  import opened Bytes
  import opened FatTable
  import opened Layout
  import opened Names
  import opened Directory
  import opened Files
  import opened Operations

  const NO_SECTOR := 0xFFFF_FFFF

  // ---- one sector of a table, as the cache sees it ----

  /** `cached` is sector `i` of the table. */
  ghost predicate Caches(table: seq<byte>, i: int, cached: seq<byte>) {
    && 0 <= i && SECTOR * i + SECTOR <= |table|
    && cached == Slice(table, SECTOR * i, SECTOR)
  }

  /** Where the entry of cluster `c` lies: sector `i` of the table, offset `k` in it. */
  ghost predicate Placed(c: nat, i: int, k: int) {
    0 <= i && 0 <= k && k + 4 <= SECTOR && SECTOR * i + k == 4 * c
  }

  lemma EntryPlace(c: nat)
    ensures Placed(c, 4 * c / SECTOR, 4 * c % SECTOR)
  {
    assert 4 * c % SECTOR % 4 == 0;
  }

  lemma CachedEntry(table: seq<byte>, c: nat, i: int, k: int, cached: seq<byte>)
    requires 4 * c + 4 <= |table| && Placed(c, i, k) && Caches(table, i, cached)
    ensures U32At(cached, k) == U32At(table, 4 * c)
  {
    assert cached[k] == table[4 * c] && cached[k + 1] == table[4 * c + 1];
    assert cached[k + 2] == table[4 * c + 2] && cached[k + 3] == table[4 * c + 3];
  }

  /** A table update, seen in the cached sector `j`. */
  lemma CachedUpdate(table: seq<byte>, c: nat, word: seq<byte>, i: int, k: int, j: int, cached: seq<byte>)
    requires 4 * c + 4 <= |table| && |word| == 4 && Placed(c, i, k) && Caches(table, j, cached)
    ensures Caches(Splice(table, 4 * c, word), j, if i == j then Splice(cached, k, word) else cached)
  {
    SpliceBytes(table, SECTOR * j, SECTOR, 4 * c, word);
  }

  lemma SubSlice(d: seq<byte>, base: nat, n: nat, at: nat, m: nat)
    requires base + n <= |d| && at + m <= n
    ensures Slice(d, base + at, m) == Slice(Slice(d, base, n), at, m)
  {
    var outer := Slice(d, base, n);
    forall i | 0 <= i < m
      ensures Slice(d, base + at, m)[i] == Slice(outer, at, m)[i]
    {
      assert Slice(outer, at, m)[i] == outer[at + i];
    }
  }

  /** Rewriting a sector with `t` stored in it is storing `t` on the disk. */
  lemma SectorSplice(disk: seq<byte>, at: nat, off: nat, t: seq<byte>)
    requires at + SECTOR <= |disk| && off + |t| <= SECTOR
    ensures Splice(disk, at, Splice(Slice(disk, at, SECTOR), off, t)) == Splice(disk, at + off, t)
  {
  }

  /** Sector `i` of the first copy, on the disk and in the table. */
  lemma TableSector(disk: seq<byte>, g: Geometry, i: nat)
    requires g.Ok() && |disk| >= g.DiskSize() && i < g.sectorsPerFat
    ensures SECTOR * (g.fatStart + i) + SECTOR <= |disk|
    ensures Slice(disk, SECTOR * (g.fatStart + i), SECTOR) == Slice(FatBytes(disk, g, 0), SECTOR * i, SECTOR)
  {
    FatBasesSpaced(g);
    FatLbaOrder(g, 0, g.numFats);
    assert FatBase(g, 0) == SECTOR * g.fatStart;
    SubSlice(disk, SECTOR * g.fatStart, SECTOR * g.sectorsPerFat, SECTOR * i, SECTOR);
  }

  method StoreWord(buf: array<byte>, off: nat, word: seq<byte>)
    requires |word| == 4 && off + 4 <= buf.Length
    modifies buf
    ensures buf[..] == Splice(old(buf[..]), off, word)
  {
    buf[off] := word[0];
    buf[off + 1] := word[1];
    buf[off + 2] := word[2];
    buf[off + 3] := word[3];
  }

  /** The open file slot, `fat32_file_t`. */
  class File {
    var first: nat
    var current: nat
    var position: nat
    var size: nat

    constructor (h: Handle)
      ensures View() == h
    {
      first, current, position, size := h.first, h.current, h.position, h.size;
    }

    function View(): Handle
      reads this
    {
      Handle(first, current, position, size)
    }
  }

  /** The lookup loop over the slots of a directory buffer. */
  method FindSlot(buf: seq<byte>, n: nat, key: Key) returns (r: Option<nat>)
    requires SLOT * n <= |buf| && 0 !in key.name
    ensures r == Scan(buf, n, 0, key)
  {
    var i := 0;
    while i < n
      invariant 0 <= i <= n && Scan(buf, n, 0, key) == Scan(buf, n, i, key)
    {
      var s := SlotAt(buf, i);
      if s[0] == 0 {
        return None;
      }
      if s[0] != DELETED && s[11] != ATTR_LFN {
        var hit: bool;
        match key {
          case Packed(name) => hit := NameOf(s) == name;
          case Text(name) => hit := NameMatch(NameOf(s), name);
        }
        if hit {
          return Some(i);
        }
      }
      i := i + 1;
    }
    r := None;
  }

  /** The loop of `fat32_write` over the parent directory. */
  method FindEntryOrFree(buf: seq<byte>, n: nat, name: seq<byte>) returns (r: Option<nat>)
    requires SLOT * n <= |buf|
    ensures r == ScanWrite(buf, n, 0, name, None)
  {
    var free: Option<nat> := None;
    var i := 0;
    while i < n
      invariant 0 <= i <= n && (free.Some? ==> free.value < n)
      invariant ScanWrite(buf, n, 0, name, None) == ScanWrite(buf, n, i, name, free)
    {
      var s := SlotAt(buf, i);
      if s[0] == 0 && free.None? {
        return Some(i);
      }
      if s[0] == DELETED || s[11] == ATTR_LFN {
        if free.None? {
          free := Some(i);
        }
      } else if NameOf(s) == name {
        return Some(i);
      }
      i := i + 1;
    }
    r := free;
  }

  /** The loop of `fat32_mkdir` over the parent directory. */
  method FindFree(buf: seq<byte>, n: nat) returns (r: Option<nat>)
    requires SLOT * n <= |buf|
    ensures r == ScanFree(buf, n, 0)
  {
    var i := 0;
    while i < n
      invariant 0 <= i <= n && ScanFree(buf, n, 0) == ScanFree(buf, n, i)
    {
      if SlotAt(buf, i)[0] == 0 || SlotAt(buf, i)[0] == DELETED {
        return Some(i);
      }
      i := i + 1;
    }
    r := None;
  }

  class Fat32 {
    const g: Geometry
    var disk: seq<byte>
    var cacheSector: nat
    const cache: array<byte>
    var cwd: nat
    var path: seq<byte>

    ghost predicate DiskOk()
      reads this
    {
      g.Ok() && |disk| >= g.DiskSize() && Mirrored(disk, g)
    }

    /** The copies agree and the cached sector is what the disk holds there. */
    ghost predicate Valid()
      reads this, cache
    {
      && DiskOk()
      && cache.Length == SECTOR
      && (cacheSector != NO_SECTOR ==> Caches(FatBytes(disk, g, 0), cacheSector - g.fatStart, cache[..]))
    }

    ghost function V(): (v: Vol)
      requires Valid()
      reads this, cache
    {
      VolOf(disk, g)
    }

    /** `fat32_mount` of a disk with the geometry `g`, in the root directory and with an empty cache. */
    constructor (g: Geometry, image: seq<byte>)
      requires g.Ok() && |image| >= g.DiskSize() && Mirrored(image, g)
      ensures Valid() && fresh(cache) && this.g == g && disk == image
      ensures V() == VolOf(image, g) && cwd == g.rootCluster && path == [SLASH]
    {
      this.g, disk := g, image;
      cacheSector := NO_SECTOR;
      cache := new byte[SECTOR](_ => 0);
      cwd, path := g.rootCluster, [SLASH];
    }

    method ReadSectors(lba: nat, n: nat) returns (buf: seq<byte>)
      requires SECTOR * (lba + n) <= |disk|
      ensures buf == Slice(disk, SECTOR * lba, SECTOR * n)
    {
      buf := disk[SECTOR * lba..SECTOR * (lba + n)];
    }

    method WriteSectors(lba: nat, buf: seq<byte>)
      requires SECTOR * lba + |buf| <= |disk|
      modifies this`disk
      ensures disk == Splice(old(disk), SECTOR * lba, buf)
    {
      disk := disk[..SECTOR * lba] + buf + disk[SECTOR * lba + |buf|..];
    }

    method LoadCache(lba: nat)
      requires cache.Length == SECTOR && SECTOR * lba + SECTOR <= |disk|
      modifies this`cacheSector, cache
      ensures cacheSector == lba && cache[..] == Slice(disk, SECTOR * lba, SECTOR)
    {
      var buf := ReadSectors(lba, 1);
      forall k | 0 <= k < cache.Length {
        cache[k] := buf[k];
      }
      assert cache[..] == buf;
      cacheSector := lba;
    }

    /** The cache filled from sector `i` of the table, unless it holds that already. */
    method FillCache(i: nat)
      requires Valid() && SECTOR * i + SECTOR <= SECTOR * g.sectorsPerFat
      modifies this`cacheSector, cache
      ensures Valid() && V() == old(V())
      ensures Caches(FatBytes(disk, g, 0), i, cache[..])
    {
      hide VolOf, Mirrored, Slice;
      if g.fatStart + i != cacheSector {
        TableSector(disk, g, i);
        LoadCache(g.fatStart + i);
      }
    }

    /** `fat32_next_cluster`: lookup through the cache is lookup in the table. */
    method NextCluster(c: nat) returns (next: nat)
      requires Valid() && c < g.Clusters()
      modifies this`cacheSector, cache
      ensures Valid() && next == V().fat[c] && V() == old(V())
    {
      hide Mirrored, Caches;
      var fatOffset := 4 * c;
      var entryOffset := fatOffset % 512;
      EntryPlace(c);
      FillCache(fatOffset / 512);
      CachedEntry(FatBytes(disk, g, 0), c, fatOffset / 512, entryOffset, cache[..]);
      next := Mask28(U32At(cache[..], entryOffset));
    }

    /** The loop of `fat32_set_fat_entry` over the copies of the table. */
    method StoreInCopies(c: nat, value: nat)
      requires g.Ok() && |disk| >= g.DiskSize() && c < g.Clusters() && value < 0x1_0000_0000
      modifies this`disk
      ensures disk == WithEntry(old(disk), g, c, value)
    {
      hide Blocks, Splice, LE32;
      var word := LE32(value);
      FatBasesSpaced(g);
      ghost var bases := FatBases(g, g.numFats);
      var copy := 0;
      while copy < g.numFats
        invariant 0 <= copy <= g.numFats
        invariant disk == StoreAll(old(disk), bases[..copy], 4 * c, word)
      {
        assert bases[..copy + 1][..copy] == bases[..copy];
        StoreInCopy(copy, c, word);
        copy := copy + 1;
      }
      assert bases[..g.numFats] == bases;
    }

    /** Read the sector of one copy that holds the entry, store the word in it, write it back. */
    method StoreInCopy(copy: nat, c: nat, word: seq<byte>)
      requires g.Ok() && c < g.Clusters() && copy < g.numFats && |word| == 4
      requires FatBase(g, copy) + SECTOR * g.sectorsPerFat <= |disk|
      modifies this`disk
      ensures disk == Splice(old(disk), FatBase(g, copy) + 4 * c, word)
    {
      hide Blocks;
      var sectorIndex := 4 * c / 512;
      var entryOffset := 4 * c % 512;
      EntryPlace(c);
      var abs := g.fatStart + copy * g.sectorsPerFat + sectorIndex;
      assert abs == g.FatLba(copy) + sectorIndex by {
        BlocksIsProduct(copy, g.sectorsPerFat);
      }
      StoreInSector(abs, entryOffset, word);
    }

    method StoreInSector(abs: nat, off: nat, word: seq<byte>)
      requires SECTOR * abs + SECTOR <= |disk| && off + |word| <= SECTOR
      modifies this`disk
      ensures disk == Splice(old(disk), SECTOR * abs + off, word)
    {
      var buf := ReadSectors(abs, 1);
      SectorSplice(disk, SECTOR * abs, off, word);
      buf := Splice(buf, off, word);
      WriteSectors(abs, buf);
    }

    /** `fat32_set_fat_entry`: one masked entry changes, in every copy and in the cache. */
    method SetFatEntry(c: nat, value: nat)
      requires Valid() && c < g.Clusters() && value < 0x1_0000_0000
      modifies this`disk, cache
      ensures Valid() && |disk| == old(|disk|)
      ensures V() == old(V()).(fat := old(V()).fat[c := Mask28(value)])
    {
      hide VolOf, Mirrored, WithEntry;
      ghost var table := FatBytes(disk, g, 0);
      ghost var cached := cache[..];
      var sectorIndex := 4 * c / 512;
      var entryOffset := 4 * c % 512;
      var word := LE32(value);
      StoreInCopies(c, value);
      EntryWriteRefines(old(disk), g, c, value);
      EntryPlace(c);
      if cacheSector != NO_SECTOR {
        CachedUpdate(table, c, word, sectorIndex, entryOffset, cacheSector - g.fatStart, cached);
      }
      if cacheSector == g.fatStart + sectorIndex {
        StoreWord(cache, entryOffset, word);
      }
    }

    /** `ata_read_sectors` of one whole cluster. */
    method ReadCluster(c: nat) returns (buf: seq<byte>)
      requires Valid() && 2 <= c < g.Clusters()
      ensures buf == V().data[c]
    {
      ClusterLbaOrder(g, c, c + 1);
      buf := ReadSectors(ClusterToLba(c), g.sectorsPerCluster);
    }

    function ClusterToLba(c: nat): (lba: nat)
      requires c >= 2
      ensures lba == g.ClusterLba(c)
    {
      BlocksIsProduct(c - 2, g.sectorsPerCluster);
      g.dataStart + (c - 2) * g.sectorsPerCluster
    }

    /** `ata_write_sectors` of one whole cluster. */
    method WriteCluster(c: nat, buf: seq<byte>)
      requires Valid() && 2 <= c < g.Clusters() && |buf| == g.ClusterSize()
      modifies this`disk
      ensures Valid() && |disk| == old(|disk|)
      ensures V() == old(V()).(data := old(V()).data[c := buf])
    {
      ClusterLbaOrder(g, c, c + 1);
      ClusterWriteRefines(disk, g, c, buf);
      WriteSectors(ClusterToLba(c), buf);
    }

    /** `fat32_find_free_cluster`: first fit. */
    method FindFreeCluster() returns (ok: bool, c: nat)
      requires Valid()
      modifies this`cacheSector, cache
      ensures Valid()
      ensures ok <==> Frees(V().fat, 2) != []
      ensures ok ==> c == Frees(V().fat, 2)[0]
    {
      c := 2;
      while c < g.totalClusters + 2
        invariant Valid() && 2 <= c <= g.Clusters() && V() == old(V())
        invariant Frees(V().fat, 2) == Frees(V().fat, c)
      {
        var next := NextCluster(c);
        if next == 0 {
          return true, c;
        }
        c := c + 1;
      }
      ok := false;
    }

    /** `fat32_free_cluster_chain`: terminates on every in-range table. */
    method FreeClusterChain(first: nat)
      requires Valid() && InRange(V().fat) && (IsValidCluster(first) ==> first < g.Clusters())
      modifies this`disk, this`cacheSector, cache
      ensures Valid() && |disk| == old(|disk|)
      ensures V() == old(V()).(fat := FreeChain(old(V()).fat, first))
    {
      ghost var v := V();
      var cluster: nat := first;
      while IsValidCluster(cluster)
        invariant Valid() && |disk| == old(|disk|) && InRange(V().fat)
        invariant IsValidCluster(cluster) ==> cluster < g.Clusters()
        invariant V().data == v.data && FreeChain(V().fat, cluster) == FreeChain(v.fat, first)
        decreases Used(V().fat)
      {
        ghost var fat := V().fat;
        var next := NextCluster(cluster);
        SetFatEntry(cluster, 0);
        assert Used(V().fat) <= Used(fat);
        if IsEndOfChain(next) || next == 0 {
          break;
        }
        assert cluster in Used(fat) - Used(V().fat);
        cluster := next;
      }
    }

    /** `fat32_allocate_cluster_chain`. The found cluster is not reserved before the next search,
        so every cluster is found twice: `count` searches link the `(count + 1) / 2` lowest free ones. */
    method AllocateClusterChain(count: nat) returns (ok: bool, first: nat)
      requires Valid()
      modifies this`disk, this`cacheSector, cache
      ensures Valid() && |disk| == old(|disk|)
      ensures var v := old(V());
              var fs := Frees(v.fat, 2);
              && Within(fs, 2, |v.fat|)
              && (ok <==> |fs| >= (count + 1) / 2)
              && V() == v.(fat := if ok then Allocated(v.fat, fs, count) else Leaked(v.fat, fs))
              && (ok ==> first == if count == 0 then 0 else fs[0])
    {
      hide VolOf, Mirrored, Caches, Blocks, Frees, Searched, Allocated, Leaked, Increasing;
      ghost var v := V();
      ghost var fs := Frees(v.fat, 2);
      FreesAre(v.fat, 2);
      SearchEnds(v.fat, fs, 0);
      var prev := 0;
      first := 0;
      var i := 0;
      while i < count
        invariant 0 <= i <= count && Valid() && |disk| == old(|disk|)
        invariant (i + 1) / 2 <= |fs| && V() == v.(fat := Searched(v.fat, fs, i))
        invariant i == 0 ==> first == 0 && prev == 0 && Searched(v.fat, fs, 0) == v.fat
        invariant i > 0 ==> first == fs[0] && prev == fs[(i - 1) / 2]
      {
        SearchFinds(v.fat, fs, i);
        var found, cluster := FindFreeCluster();
        if !found {
          return false, 0;
        }
        SearchLinks(v.fat, fs, i);
        if first == 0 {
          first := cluster;
        }
        if prev != 0 {
          SetFatEntry(prev, cluster);
        }
        prev := cluster;
        i := i + 1;
      }
      SearchEnds(v.fat, fs, count);
      if prev != 0 {
        SetFatEntry(prev, 0x0FFF_FFFF);
      }
      ok := true;
    }

    /** One iteration of the loop of `fat32_read`. */
    method ReadChunk(file: File, want: nat) returns (bytes: seq<byte>, last: bool)
      requires Valid() && Fits(V(), g) && 0 < want
      requires IsValidCluster(file.current) && file.current < g.Clusters()
      modifies file, this`cacheSector, cache
      ensures Valid() && V() == old(V())
      ensures (bytes, file.View(), last) == ReadStep(V(), g.ClusterSize(), old(file.View()), want)
    {
      hide Blocks, Mirrored, Caches, Offset;
      var clusterSize := g.sectorsPerCluster * 512;
      var buf := ReadCluster(file.current);
      var off := file.position % clusterSize;
      OffsetIsMod(file.position, clusterSize);
      var available := clusterSize - off;
      var take := if want > available then available else want;
      bytes := buf[off..off + take];
      file.position := file.position + take;
      OffsetIsMod(file.position, clusterSize);
      last := false;
      if file.position % clusterSize == 0 {
        var next := NextCluster(file.current);
        if IsEndOfChain(next) || next == 0 {
          last := true;
        } else {
          file.current := next;
        }
      }
    }

    /** `fat32_read`. */
    method Read(file: File, count: nat) returns (out: seq<byte>)
      requires Valid() && Fits(V(), g) && file.position <= file.size
      requires IsValidCluster(file.current) ==> file.current < g.Clusters()
      modifies file, this`cacheSector, cache
      ensures Valid() && V() == old(V())
      ensures (out, file.View()) == Files.Read(V(), g.ClusterSize(), old(file.View()), count)
    {
      hide VolOf, Mirrored, Caches, Blocks, ReadLoop, ReadStep;
      ghost var v, cs, h := V(), g.ClusterSize(), file.View();
      var want := if count > file.size - file.position then file.size - file.position else count;
      out := [];
      while |out| < want
        invariant |out| <= want && Valid() && V() == v
        invariant IsValidCluster(file.current) ==> file.current < g.Clusters()
        invariant ReadLoop(v, cs, h, want).0 == out + ReadLoop(v, cs, file.View(), want - |out|).0
        invariant ReadLoop(v, cs, h, want).1 == ReadLoop(v, cs, file.View(), want - |out|).1
        decreases want - |out|
      {
        if !IsValidCluster(file.current) {
          break;
        }
        ReadLoopStep(v, cs, file.View(), want - |out|);
        var bytes, last := ReadChunk(file, want - |out|);
        out := out + bytes;
        if last {
          break;
        }
      }
      assert out + [] == out;
      if |out| == want || !IsValidCluster(file.current) {
        ReadLoopStops(v, cs, file.View(), want - |out|);
      }
    }

    /** `fat32_find_in_directory` and the lookups of open and delete. */
    method LookUpIn(d: nat, key: Key) returns (r: Option<seq<byte>>)
      requires Valid() && Fits(V(), g) && 2 <= d < g.Clusters() && 0 !in key.name
      ensures r == LookUp(V(), g, d, key)
    {
      hide VolOf, Mirrored, Caches, Blocks, Scan;
      var buf := ReadCluster(d);
      var i := FindSlot(buf, g.sectorsPerCluster * 16, key);
      match i {
        case None => r := None;
        case Some(k) => r := Some(SlotAt(buf, k));
      }
    }

    /** `fat32_navigate_path`, for directories that all exist. */
    method NavigatePath(path: seq<byte>, ghost dirs: set<nat>) returns (r: Nav)
      requires Valid() && DirsClosed(V(), g, dirs) && g.rootCluster in dirs && cwd in dirs && 0 !in path
      ensures r == Navigate(V(), g, cwd, path)
      ensures r.Missing? ==> r.parent in dirs && 0 !in r.name
      ensures r.Found? ==> r.parent in dirs && 0 !in r.name
    {
      hide VolOf, Mirrored, Caches, Blocks, Walk, LookUp, DescentsStay;
      ghost var v := V();
      var absolute := path != [] && path[0] == SLASH;
      var d := if absolute then g.rootCluster else cwd;
      var comp: seq<byte> := [];
      var i := if absolute then 1 else 0;
      while i < |path|
        invariant 0 <= i <= |path| && d in dirs && 0 !in comp
        invariant Navigate(v, g, cwd, path) == Walk(v, g, d, path, i, comp)
      {
        WalkStep(v, g, d, path, i, comp);
        if path[i] == SLASH {
          if comp != [] {
            var s := LookUpIn(d, Text(comp));
            if s.None? || !IsDir(s.value) {
              return NotFound;
            }
            DescentIn(v, g, dirs, d, Text(comp));
            d := First(s.value);
            comp := [];
          }
        } else if |comp| < 255 {
          comp := comp + [path[i]];
        }
        i := i + 1;
      }
      WalkStep(v, g, d, path, i, comp);
      if comp == [] {
        return Missing(d, comp);
      }
      var s := LookUpIn(d, Text(comp));
      match s {
        case None => r := Missing(d, comp);
        case Some(slot) => r := Found(d, comp, slot);
      }
    }

    /** `fat32_open`. */
    method Open(path: seq<byte>, ghost dirs: set<nat>) returns (r: Option<File>)
      requires Valid() && DirsClosed(V(), g, dirs) && g.rootCluster in dirs && cwd in dirs && 0 !in path
      ensures r.Some? ==> fresh(r.value) && Operations.Open(V(), g, cwd, path) == Some(r.value.View())
      ensures r.None? ==> Operations.Open(V(), g, cwd, path) == None
    {
      hide VolOf, Mirrored, Caches, Blocks, LookUp, DescentsStay, Name83;
      var name := StripSlash(path);
      var d := StartDir(g, cwd, path);
      var name83 := MakeName83(name);
      if name83.None? {
        return None;
      }
      NoZeroPacked(name);
      var s := LookUpIn(d, Packed(name83.value));
      if s.None? || IsDir(s.value) {
        return None;
      }
      var f := new File(Handle(First(s.value), First(s.value), 0, Size(s.value)));
      r := Some(f);
    }

    /** The loop of `fat32_write` that stores the buffer along the chain. */
    method StoreData(first: nat, bytes: seq<byte>)
      requires Valid() && Fits(V(), g) && (IsValidCluster(first) ==> first < g.Clusters())
      modifies this`disk, this`cacheSector, cache
      ensures Valid() && |disk| == old(|disk|)
      ensures V() == WriteLoop(old(V()), g.ClusterSize(), first, bytes)
    {
      hide VolOf, Mirrored, Caches, Blocks;
      ghost var target := WriteLoop(V(), g.ClusterSize(), first, bytes);
      var clusterSize := g.sectorsPerCluster * 512;
      var src := bytes;
      var cluster: nat := first;
      while |src| > 0 && IsValidCluster(cluster)
        invariant Valid() && |disk| == old(|disk|) && Fits(V(), g)
        invariant IsValidCluster(cluster) ==> cluster < g.Clusters()
        invariant WriteLoop(V(), g.ClusterSize(), cluster, src) == target
        decreases |src|
      {
        var chunk := if |src| > clusterSize then clusterSize else |src|;
        WriteCluster(cluster, src[..chunk] + Zeros(clusterSize - chunk));
        src := src[chunk..];
        var next := NextCluster(cluster);
        if IsEndOfChain(next) || next == 0 {
          break;
        }
        cluster := next;
      }
    }

    /** `fat32_write` once the parent directory has been read and the slot chosen. */
    method StoreFileIn(d: nat, buf: seq<byte>, p: nat, name: seq<byte>, bytes: seq<byte>) returns (ok: bool)
      requires Valid() && Fits(V(), g) && 2 <= d < g.Clusters() && buf == V().data[d]
      requires p < Slots(g) && |name| == 11 && |bytes| < 0x1_0000_0000
      requires Freeable(V(), First(SlotAt(buf, p)))
      modifies this`disk, this`cacheSector, cache
      ensures Valid() && |disk| == old(|disk|)
      ensures var o := StoreFile(old(V()), g, d, p, name, bytes);
              V() == o.v && (ok <==> o.Done?)
    {
      hide VolOf, Mirrored, Caches, Blocks, SlotAt, PutSlot, MakeSlot, FreeChain, WriteLoop, Frees, Allocated, Leaked;
      var previous := First(SlotAt(buf, p));
      if previous >= 2 {
        FreeClusterChain(previous);
      }
      if bytes == [] {
        WriteCluster(d, PutSlot(buf, p, MakeSlot(name, ATTR_ARCHIVE, 0, 0)));
        return true;
      }
      ghost var freed := V();
      var clusterSize := g.sectorsPerCluster * 512;
      ClustersForIsCeiling(|bytes|, clusterSize);
      var need := (|bytes| + clusterSize - 1) / clusterSize;
      var found, first := AllocateClusterChain(need);
      if !found {
        return false;
      }
      AllocatorLaw(freed.fat, Frees(freed.fat, 2), need);
      StoreData(first, bytes);
      WriteCluster(d, PutSlot(buf, p, MakeSlot(name, ATTR_ARCHIVE, first, |bytes|)));
      ok := true;
    }

    /** `fat32_write`; `fat32_create` is the call with no bytes. */
    method Write(to: seq<byte>, bytes: seq<byte>, ghost dirs: set<nat>) returns (ok: bool)
      requires Valid() && DirsClosed(V(), g, dirs) && g.rootCluster in dirs && cwd in dirs
      requires 0 !in to && to != [] && to[|to| - 1] != SLASH && |bytes| < 0x1_0000_0000
      requires Writable(V(), g, cwd, to)
      modifies this`disk, this`cacheSector, cache
      ensures Valid() && |disk| == old(|disk|)
      ensures var o := WriteFile(old(V()), g, cwd, to, bytes);
              V() == o.v && (ok <==> o.Done?)
    {
      hide VolOf, Mirrored, Caches, Blocks, Navigate, Name83, StoreFile, ScanWrite, SlotAt;
      var nav := NavigatePath(to, dirs);
      if nav.NotFound? {
        return false;
      }
      var name83 := MakeName83(nav.name);
      if name83.None? {
        return false;
      }
      var buf := ReadCluster(nav.parent);
      var p := FindEntryOrFree(buf, g.sectorsPerCluster * 16, name83.value);
      if p.None? {
        return false;
      }
      ok := StoreFileIn(nav.parent, buf, p.value, name83.value, bytes);
    }

    /** `fat32_delete`. */
    method Delete(file: seq<byte>) returns (ok: bool)
      requires Valid() && WritableIn(V(), g, g.rootCluster) && 0 !in file
      modifies this`disk, this`cacheSector, cache
      ensures Valid() && |disk| == old(|disk|)
      ensures var o := DeleteFile(old(V()), g, file);
              V() == o.v && (ok <==> o.Done?)
    {
      hide VolOf, Mirrored, Caches, Blocks, Name83, Scan, SlotAt, PutSlot, Erased, FreeChain;
      var buf := ReadCluster(g.rootCluster);
      var name := StripSlash(file);
      var name83 := MakeName83(name);
      if name83.None? {
        return false;
      }
      NoZeroPacked(name);
      var p := FindSlot(buf, g.sectorsPerCluster * 16, Packed(name83.value));
      if p.None? {
        return false;
      }
      var s := SlotAt(buf, p.value);
      if First(s) >= 2 {
        FreeClusterChain(First(s));
      }
      WriteCluster(g.rootCluster, PutSlot(buf, p.value, Erased(s)));
      ok := true;
    }

    /** `fat32_mkdir` once the path has been walked. */
    method MkdirIn(d: nat, name: seq<byte>) returns (ok: bool)
      requires Valid() && Fits(V(), g) && 2 <= d < g.Clusters()
      modifies this`disk, this`cacheSector, cache
      ensures Valid() && |disk| == old(|disk|)
      ensures var o := MakeDirIn(old(V()), g, d, name);
              V() == o.v && (ok <==> o.Done?)
    {
      hide VolOf, Mirrored, Caches, Blocks, Name83, ScanFree, PutSlot, MakeSlot, FreeChain, Frees, Allocated, DirBlock, Link;
      ghost var v := V();
      var found, c := AllocateClusterChain(1);
      if !found {
        return false;
      }
      AllocatorLaw(v.fat, Frees(v.fat, 2), 1);
      WriteCluster(c, DirBlock(g, c, d));
      var buf := ReadCluster(d);
      var name83 := MakeName83(name);
      if name83.None? {
        FreeClusterChain(c);
        return false;
      }
      var p := FindFree(buf, g.sectorsPerCluster * 16);
      if p.None? {
        FreeClusterChain(c);
        return false;
      }
      WriteCluster(d, PutSlot(buf, p.value, MakeSlot(name83.value, ATTR_DIRECTORY, c, 0)));
      ok := true;
    }

    /** `fat32_mkdir`, for a path whose parent exists. */
    method Mkdir(dir: seq<byte>, ghost dirs: set<nat>) returns (ok: bool)
      requires Valid() && DirsClosed(V(), g, dirs) && g.rootCluster in dirs && cwd in dirs
      requires 0 !in dir && dir != [] && dir[|dir| - 1] != SLASH && !Navigate(V(), g, cwd, dir).NotFound?
      requires Navigate(V(), g, cwd, dir).Missing? ==> Navigate(V(), g, cwd, dir).parent in dirs
      modifies this`disk, this`cacheSector, cache
      ensures Valid() && |disk| == old(|disk|)
      ensures var o := MakeDir(old(V()), g, cwd, dir);
              V() == o.v && (ok <==> o.Done?)
    {
      hide VolOf, Mirrored, Caches, Blocks, Navigate, MakeDirIn;
      var nav := NavigatePath(dir, dirs);
      if nav.Found? {
        return false;
      }
      ok := MkdirIn(nav.parent, nav.name);
    }

    /** `fat32_chdir`. */
    method Chdir(dir: seq<byte>, ghost dirs: set<nat>) returns (ok: bool)
      requires Valid() && DirsClosed(V(), g, dirs) && g.rootCluster in dirs && cwd in dirs
      requires 0 !in dir && 0 < |path| <= 255
      modifies this`cwd, this`path, this`cacheSector, cache
      ensures Valid() && V() == old(V())
      ensures var r := ChangeDir(V(), g, old(Cwd(cwd, path)), dir);
              && (ok <==> r.Some?)
              && Cwd(cwd, path) == if ok then r.value else old(Cwd(cwd, path))
    {
      hide VolOf, Mirrored, Caches, Blocks, ParentPath, ChildPath, LookUp;
      var nav := NavigatePath(dir, dirs);
      if !nav.Found? || !IsDir(nav.slot) {
        return false;
      }
      cwd := First(nav.slot);
      ok := true;
      if dir[0] == SLASH {
        path := if |dir| <= 255 then dir else dir[..255];
      } else if nav.name == [DOT] {
      } else if nav.name == [DOT, DOT] {
        path := GoUp(path);
      } else {
        path := GoDown(path, nav.name);
      }
    }
  }

  /** `fat32_mount` of the partition that starts at sector `start`: no file system without the boot
      signature, otherwise one with the geometry computed from the boot sector in 32-bit arithmetic. */
  method MountDisk(image: seq<byte>, start: nat) returns (fs: Option<Fat32>)
    requires SECTOR * start + SECTOR <= |image| && image[SECTOR * start + 13] != 0
    requires Mount(image, start).Some? ==>
               var g := Mount(image, start).value;
               g.Ok() && |image| >= g.DiskSize() && Mirrored(image, g)
    ensures fs.Some? <==> Mount(image, start).Some?
    ensures fs.Some? ==>
              && fresh(fs.value) && fresh(fs.value.cache) && fs.value.Valid()
              && fs.value.g == Mount(image, start).value && fs.value.disk == image
              && fs.value.V() == VolOf(image, fs.value.g)
              && fs.value.cwd == fs.value.g.rootCluster && fs.value.path == [SLASH]
  {
    hide Mirrored, VolOf, U16At, U32At;
    var boot := image[SECTOR * start..SECTOR * (start + 1)];
    if boot[510] != 0x55 || boot[511] != 0xAA {
      return None;
    }
    var fatStart := Low32(start + U16At(boot, 14));
    var fatSectors := U32At(boot, 36);
    var fatAreaSize := Low32(boot[16] * fatSectors);
    var dataStart := Low32(fatStart + fatAreaSize);
    var dataSectors := Low32(U32At(boot, 32) - Low32(U16At(boot, 14) + fatAreaSize));
    var totalClusters := dataSectors / boot[13];
    var g := Geometry(fatStart, fatSectors, boot[16], dataStart, boot[13], totalClusters, U32At(boot, 44));
    assert Mount(image, start) == Some(g);
    var mounted := new Fat32(g, image);
    fs := Some(mounted);
  }

  /** The path edit for "..": drop a trailing slash, else cut at the last slash. */
  method GoUp(path: seq<byte>) returns (r: seq<byte>)
    requires path != []
    ensures r == ParentPath(path)
  {
    var len := |path|;
    if len > 1 && path[len - 1] == SLASH {
      return path[..len - 1];
    }
    while len > 0 && (len == |path| || path[len] != SLASH)
      invariant 0 <= len <= |path|
      invariant len < |path| ==> LastSlash(path, |path| - 1) == LastSlash(path, len)
    {
      len := len - 1;
    }
    if len == 0 {
      len := 1;
    }
    r := path[..len];
  }

  /** The path edit for a name: add a slash unless there is one, then the name, up to 255 bytes. */
  method GoDown(path: seq<byte>, name: seq<byte>) returns (r: seq<byte>)
    ensures r == ChildPath(path, name)
  {
    r := path;
    if |r| > 1 || (|r| == 1 && r[0] != SLASH) {
      if r[|r| - 1] != SLASH {
        r := r + [SLASH];
      }
    } else if |r| == 0 {
      r := r + [SLASH];
    }
    ghost var base := r;
    var i := 0;
    while i < |name| && |r| < 255
      invariant 0 <= i <= |name| && r == base + name[..i] && (i == 0 || |r| <= 255)
    {
      r := r + [name[i]];
      i := i + 1;
    }
    assert base + name[..0] == base && name[..|name|] == name;
  }
}
