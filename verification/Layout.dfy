/** Where a FAT32 volume keeps things on disk: mirrored tables, then data clusters.
    The abstract volume is a plain table of masked entries and a sequence of clusters. */
module Layout {
  import opened Bytes
  import opened FatTable

  const SECTOR := 512

  /** The size of `k` blocks of `n`: the product `k * n`, kept as repeated addition so that
      everything about layouts is linear arithmetic. */
  function Blocks(k: nat, n: nat): (r: nat)
    decreases k
  {
    if k == 0 then 0 else Blocks(k - 1, n) + n
  }

  lemma {:induction false} BlocksIsProduct(k: nat, n: nat)
    ensures Blocks(k, n) == k * n
    decreases k
  {
    if k > 0 {
      BlocksIsProduct(k - 1, n);
      assert k * n == (k - 1) * n + n;
    }
  }

  lemma {:induction false} BlocksOrder(i: nat, j: nat, size: nat)
    requires i < j
    ensures Blocks(i, size) + size <= Blocks(j, size)
    decreases j
  {
    if i < j - 1 {
      BlocksOrder(i, j - 1, size);
    }
  }

  lemma DivisionInBlocks(x: nat, n: nat)
    requires 0 < n
    ensures Blocks(x / n, n) + x % n == x
  {
    BlocksIsProduct(x / n, n);
  }

  /** The fields of `fat32_fs_t` that locate the tables and the data area. */
  datatype Geometry = Geometry(
    fatStart: nat, sectorsPerFat: nat, numFats: nat, dataStart: nat,
    sectorsPerCluster: nat, totalClusters: nat, rootCluster: nat)
  {
    function ClusterSize(): nat {
      SECTOR * sectorsPerCluster
    }

    /** One past the largest cluster number. */
    function Clusters(): nat {
      totalClusters + 2
    }

    function ClusterLba(c: nat): nat
      requires c >= 2
    {
      dataStart + Blocks(c - 2, sectorsPerCluster)
    }

    function FatLba(copy: nat): nat {
      fatStart + Blocks(copy, sectorsPerFat)
    }

    function DiskSize(): nat {
      SECTOR * (dataStart + Blocks(totalClusters, sectorsPerCluster))
    }

    /** A mountable geometry: the tables fit before the data area and no 32-bit value wraps. */
    ghost predicate Ok() {
      && 1 <= sectorsPerCluster <= 8
      && 1 <= numFats
      && dataStart == fatStart + Blocks(numFats, sectorsPerFat)
      && dataStart + Blocks(totalClusters, sectorsPerCluster) < 0xFFFF_FFFF
      && 4 * Clusters() <= SECTOR * sectorsPerFat
      && Clusters() <= EOC
      && 2 <= rootCluster < Clusters()
    }
  }

  /** `fat32_mount` after the partition lookup: the geometry in the boot sector at `start`, with
      the driver's 32-bit arithmetic; None if the signature is wrong. */
  function Mount(disk: seq<byte>, start: nat): (r: Option<Geometry>)
    requires SECTOR * start + SECTOR <= |disk| && disk[SECTOR * start + 13] != 0
  {
    var boot := Slice(disk, SECTOR * start, SECTOR);
    if boot[510] != 0x55 || boot[511] != 0xAA then None else Some(BootGeometry(boot, start))
  }

  /** The low 32 bits. */
  function Low32(x: int): (r: nat)
    ensures r < 0x1_0000_0000
  {
    x % 0x1_0000_0000
  }

  function Quotient(a: nat, b: nat): (q: nat)
    requires 0 < b
  {
    a / b
  }

  function BootGeometry(boot: seq<byte>, start: nat): (g: Geometry)
    requires |boot| == SECTOR && boot[13] != 0
  {
    var fatStart := Low32(start + U16At(boot, 14));
    var fatArea := Low32(boot[16] * U32At(boot, 36));
    var dataSectors := Low32(U32At(boot, 32) - Low32(U16At(boot, 14) + fatArea));
    Geometry(fatStart, U32At(boot, 36), boot[16], Low32(fatStart + fatArea), boot[13], Quotient(dataSectors, boot[13]), U32At(boot, 44))
  }

  lemma FatLbaOrder(g: Geometry, j: nat, k: nat)
    requires g.Ok() && j < k <= g.numFats
    ensures g.FatLba(j) + g.sectorsPerFat <= g.FatLba(k) <= g.dataStart
  {
    BlocksOrder(j, k, g.sectorsPerFat);
    if k < g.numFats {
      BlocksOrder(k, g.numFats, g.sectorsPerFat);
    }
  }

  lemma ClusterLbaOrder(g: Geometry, c: nat, d: nat)
    requires g.Ok() && 2 <= c < d <= g.Clusters()
    ensures g.dataStart <= g.ClusterLba(c)
    ensures g.ClusterLba(c) + g.sectorsPerCluster <= g.ClusterLba(d)
    ensures SECTOR * g.ClusterLba(c) + g.ClusterSize() <= g.DiskSize()
  {
    BlocksOrder(c - 2, d - 2, g.sectorsPerCluster);
    BlocksOrder(c - 2, g.totalClusters, g.sectorsPerCluster);
  }

  datatype Vol = Vol(fat: seq<nat>, data: seq<seq<byte>>)

  /** The bytes of one copy of the table. */
  ghost function FatBytes(disk: seq<byte>, g: Geometry, copy: nat): seq<byte>
    requires g.Ok() && |disk| >= g.DiskSize() && copy < g.numFats
  {
    FatLbaOrder(g, copy, g.numFats);
    Slice(disk, FatBase(g, copy), SECTOR * g.sectorsPerFat)
  }

  ghost function Entry(table: seq<byte>, c: nat): nat
    requires 4 * c + 4 <= |table|
  {
    Mask28(U32At(table, 4 * c))
  }

  ghost function FatOf(disk: seq<byte>, g: Geometry): (r: seq<nat>)
    requires g.Ok() && |disk| >= g.DiskSize()
    ensures |r| == g.Clusters()
  {
    var table := FatBytes(disk, g, 0);
    seq(g.Clusters(), c requires 0 <= c < g.Clusters() => Entry(table, c))
  }

  ghost function ClusterOf(disk: seq<byte>, g: Geometry, c: nat): (r: seq<byte>)
    requires g.Ok() && |disk| >= g.DiskSize() && c < g.Clusters()
    ensures c >= 2 ==> |r| == g.ClusterSize()
  {
    if c < 2 then [] else
    ClusterLbaOrder(g, c, c + 1);
    Slice(disk, SECTOR * g.ClusterLba(c), g.ClusterSize())
  }

  ghost function VolOf(disk: seq<byte>, g: Geometry): (v: Vol)
    requires g.Ok() && |disk| >= g.DiskSize()
    ensures |v.fat| == |v.data| == g.Clusters()
    ensures forall c :: 2 <= c < |v.data| ==> |v.data[c]| == g.ClusterSize()
  {
    Vol(FatOf(disk, g), seq(g.Clusters(), c requires 0 <= c < g.Clusters() => ClusterOf(disk, g, c)))
  }

  /** All copies of the table hold the same bytes. */
  ghost predicate Mirrored(disk: seq<byte>, g: Geometry)
    requires g.Ok() && |disk| >= g.DiskSize()
  {
    forall k :: 0 <= k < g.numFats ==> FatBytes(disk, g, k) == FatBytes(disk, g, 0)
  }

  /** Tables of `size` bytes at increasing offsets, all ending before `end`. */
  ghost predicate Spaced(bases: seq<nat>, size: nat, end: nat) {
    && (forall i :: 0 <= i < |bases| ==> bases[i] + size <= end)
    && (forall i, j :: 0 <= i < j < |bases| ==> bases[i] + size <= bases[j])
  }

  /** `t` stored at offset `at` of each of the tables. */
  function StoreAll(s: seq<byte>, bases: seq<nat>, at: nat, t: seq<byte>): (r: seq<byte>)
    requires forall i :: 0 <= i < |bases| ==> bases[i] + at + |t| <= |s|
    ensures |r| == |s|
  {
    if bases == [] then s
    else
      var n := |bases| - 1;
      Splice(StoreAll(s, bases[..n], at, t), bases[n] + at, t)
  }

  lemma {:induction false} StoreAllOutside(s: seq<byte>, bases: seq<nat>, size: nat, end: nat, at: nat, t: seq<byte>, from: nat, n: nat)
    requires end <= |s| && at + |t| <= size && Spaced(bases, size, end)
    requires from + n <= |s|
    requires forall i :: 0 <= i < |bases| ==> bases[i] + size <= from || from + n <= bases[i]
    ensures Slice(StoreAll(s, bases, at, t), from, n) == Slice(s, from, n)
    decreases |bases|
  {
    hide Splice, Slice;
    if bases != [] {
      var m := |bases| - 1;
      StoreAllOutside(s, bases[..m], size, end, at, t, from, n);
      SliceOfSplice(StoreAll(s, bases[..m], at, t), bases[m] + at, t, from, n);
    }
  }

  lemma {:induction false} StoreAllInside(s: seq<byte>, bases: seq<nat>, size: nat, end: nat, at: nat, t: seq<byte>, k: nat)
    requires end <= |s| && at + |t| <= size && Spaced(bases, size, end) && k < |bases|
    ensures Slice(StoreAll(s, bases, at, t), bases[k], size) == Splice(Slice(s, bases[k], size), at, t)
    decreases |bases|
  {
    hide Splice, Slice;
    var m := |bases| - 1;
    var before := StoreAll(s, bases[..m], at, t);
    if k < m {
      StoreAllInside(s, bases[..m], size, end, at, t, k);
      SliceOfSplice(before, bases[m] + at, t, bases[k], size);
    } else {
      StoreAllOutside(s, bases[..m], size, end, at, t, bases[m], size);
      SpliceInside(before, s, bases[m], size, at, t);
    }
  }

  lemma SpliceInside(before: seq<byte>, s: seq<byte>, base: nat, size: nat, at: nat, t: seq<byte>)
    requires base + size <= |before| && base + size <= |s| && at + |t| <= size
    requires Slice(before, base, size) == Slice(s, base, size)
    ensures Slice(Splice(before, base + at, t), base, size) == Splice(Slice(s, base, size), at, t)
  {
    SpliceBytes(before, base, size, base + at, t);
  }

  function FatBase(g: Geometry, copy: nat): nat {
    SECTOR * g.FatLba(copy)
  }

  function FatBases(g: Geometry, n: nat): (r: seq<nat>)
    ensures |r| == n && forall i :: 0 <= i < n ==> r[i] == FatBase(g, i)
  {
    seq(n, i requires 0 <= i < n => FatBase(g, i))
  }

  lemma FatBasesSpaced(g: Geometry)
    requires g.Ok()
    ensures Spaced(FatBases(g, g.numFats), SECTOR * g.sectorsPerFat, SECTOR * g.dataStart)
    ensures SECTOR * g.dataStart <= g.DiskSize()
  {
    forall k | 0 <= k < g.numFats
      ensures FatBase(g, k) + SECTOR * g.sectorsPerFat <= SECTOR * g.dataStart
    {
      FatLbaOrder(g, k, g.numFats);
    }
    forall j, k | 0 <= j < k < g.numFats
      ensures FatBase(g, j) + SECTOR * g.sectorsPerFat <= FatBase(g, k)
    {
      FatLbaOrder(g, j, k);
    }
  }

  /** The disk after the word `v` has been stored for cluster `c` in every copy of the table. */
  function WithEntry(disk: seq<byte>, g: Geometry, c: nat, v: nat): (r: seq<byte>)
    requires g.Ok() && |disk| >= g.DiskSize() && c < g.Clusters() && v < 0x1_0000_0000
    ensures |r| == |disk|
  {
    FatBasesSpaced(g);
    StoreAll(disk, FatBases(g, g.numFats), 4 * c, LE32(v))
  }

  /** A splice seen through a slice: either it lies inside, or it is invisible. */
  lemma SpliceBytes(s: seq<byte>, from: nat, n: nat, at: nat, t: seq<byte>)
    requires from + n <= |s| && at + |t| <= |s|
    ensures from <= at && at + |t| <= from + n ==> Slice(Splice(s, at, t), from, n) == Splice(Slice(s, from, n), at - from, t)
    ensures at + |t| <= from || from + n <= at ==> Slice(Splice(s, at, t), from, n) == Slice(s, from, n)
  {
  }

  /** Storing a word in every copy changes exactly one masked entry and keeps the copies equal. */
  lemma EntryWriteRefines(disk: seq<byte>, g: Geometry, c: nat, v: nat)
    requires g.Ok() && |disk| >= g.DiskSize() && Mirrored(disk, g)
    requires c < g.Clusters() && v < 0x1_0000_0000
    ensures var after := WithEntry(disk, g, c, v);
            && Mirrored(after, g)
            && FatBytes(after, g, 0) == Splice(FatBytes(disk, g, 0), 4 * c, LE32(v))
            && VolOf(after, g) == VolOf(disk, g).(fat := VolOf(disk, g).fat[c := Mask28(v)])
  {
    var after := WithEntry(disk, g, c, v);
    var bases, size := FatBases(g, g.numFats), SECTOR * g.sectorsPerFat;
    FatBasesSpaced(g);
    forall k | 0 <= k < g.numFats
      ensures FatBytes(after, g, k) == Splice(FatBytes(disk, g, k), 4 * c, LE32(v))
    {
      StoreAllInside(disk, bases, size, SECTOR * g.dataStart, 4 * c, LE32(v), k);
    }
    var table := FatBytes(disk, g, 0);
    forall d | 0 <= d < g.Clusters()
      ensures FatOf(after, g)[d] == FatOf(disk, g)[c := Mask28(v)][d]
    {
      U32AfterSplice(table, 4 * c, v, 4 * d);
    }
    assert FatOf(after, g) == FatOf(disk, g)[c := Mask28(v)];
    forall d | 0 <= d < g.Clusters()
      ensures ClusterOf(after, g, d) == ClusterOf(disk, g, d)
    {
      if d >= 2 {
        ClusterLbaOrder(g, d, d + 1);
        StoreAllOutside(disk, bases, size, SECTOR * g.dataStart, 4 * c, LE32(v), SECTOR * g.ClusterLba(d), g.ClusterSize());
      }
    }
  }

  /** Writing one data cluster changes that cluster, no other one, and no table. */
  lemma ClusterWriteRefines(disk: seq<byte>, g: Geometry, c: nat, bytes: seq<byte>)
    requires g.Ok() && |disk| >= g.DiskSize() && Mirrored(disk, g)
    requires 2 <= c < g.Clusters() && |bytes| == g.ClusterSize()
    requires SECTOR * g.ClusterLba(c) + |bytes| <= |disk|
    ensures var after := Splice(disk, SECTOR * g.ClusterLba(c), bytes);
            && Mirrored(after, g)
            && FatBytes(after, g, 0) == FatBytes(disk, g, 0)
            && VolOf(after, g) == VolOf(disk, g).(data := VolOf(disk, g).data[c := bytes])
  {
    var after := Splice(disk, SECTOR * g.ClusterLba(c), bytes);
    ClusterLbaOrder(g, c, c + 1);
    forall k | 0 <= k < g.numFats
      ensures FatBytes(after, g, k) == FatBytes(disk, g, k)
    {
      FatLbaOrder(g, k, g.numFats);
    }
    forall d | 0 <= d < g.Clusters()
      ensures ClusterOf(after, g, d) == if d == c then bytes else ClusterOf(disk, g, d)
    {
      if d >= 2 {
        ClusterLbaOrder(g, d, d + 1);
        if d < c {
          ClusterLbaOrder(g, d, c);
        } else if c < d {
          ClusterLbaOrder(g, c, d);
        }
        SliceOfSplice(disk, SECTOR * g.ClusterLba(c), bytes, SECTOR * g.ClusterLba(d), g.ClusterSize());
      }
    }
  }
}
