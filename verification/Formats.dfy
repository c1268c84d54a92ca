/** The formats on disk and on the wire, byte by byte: what stands where, with the constants written out. */
module Formats {
  import opened Bytes
  import opened FatTable
  import opened Layout
  import opened Names
  import opened Directory
  import opened Files
  import opened Operations
  import opened Builder
  import opened Checksum

  // ---- words ----

  /** Words are little-endian, read and written. */
  lemma LittleEndian(a: byte, b: byte, c: byte, d: byte)
    ensures LE16(a + 256 * (b as int)) == [a, b]
    ensures LE32(a + 256 * (b as int) + 65536 * (c as int) + 16777216 * (d as int)) == [a, b, c, d]
    ensures U16At([a, b], 0) == a + 256 * (b as int)
    ensures U32At([a, b, c, d], 0) == a + 256 * (b as int) + 65536 * (c as int) + 16777216 * (d as int)
    ensures U64At([a, b, c, d, 0, 0, 0, 1], 0) == 0x0100_0000_0000_0000 + U32At([a, b, c, d], 0)
  {
    var v := a + 256 * (b as int) + 65536 * (c as int) + 16777216 * (d as int);
    assert v % 256 == a && v / 256 == b + 256 * (c as int) + 65536 * (d as int);
    assert v / 256 / 256 == c + 256 * (d as int);
  }

  /** Words elsewhere in a buffer are read from where they stand. */
  lemma WordsStand(s: seq<byte>, k: nat)
    ensures k + 2 <= |s| ==> U16At(s, k) == U16At(s[k..k + 2], 0)
    ensures k + 4 <= |s| ==> U32At(s, k) == U32At(s[k..k + 4], 0)
    ensures k + 8 <= |s| ==> U64At(s, k) == U64At(s[k..k + 8], 0)
  {
  }

  // ---- directory entries ----

  /** An entry: 11 bytes of name, attributes, the high half of the cluster at 20, its low half at 26, and the size
      at 28; the rest is zero. */
  lemma EntryBytes(name: seq<byte>, attr: byte, first: nat, size: nat)
    requires |name| == 11 && first < 0x1_0000_0000 && size < 0x1_0000_0000
    ensures var s := MakeSlot(name, attr, first, size);
            && s[..11] == name && s[11] == attr
            && s[20] + 256 * (s[21] as int) == first / 65536 && s[26] + 256 * (s[27] as int) == first % 65536
            && s[28] + 256 * (s[29] as int) + 65536 * (s[30] as int) + 16777216 * (s[31] as int) == size
            && (forall i :: 12 <= i < 20 || 22 <= i < 26 ==> s[i] == 0)
  {
    MadeSlot(name, attr, first, size);
    assert first / 65536 < 0x1_0000 && first % 65536 < 0x1_0000;
    var s := MakeSlot(name, attr, first, size);
    assert s[20..22] == LE16(first / 0x1_0000) && s[26..28] == LE16(first % 0x1_0000);
    assert s[20] == s[20..22][0] && s[21] == s[20..22][1] && s[26] == s[26..28][0] && s[27] == s[26..28][1];
  }

  lemma EntryRead(s: seq<byte>)
    requires |s| == 32
    ensures First(s) == 65536 * (s[20] + 256 * (s[21] as int)) + s[26] + 256 * (s[27] as int)
    ensures Size(s) == s[28] + 256 * (s[29] as int) + 65536 * (s[30] as int) + 16777216 * (s[31] as int)
    ensures IsDir(s) <==> s[11] / 16 % 2 == 1
    ensures Skipped(s) <==> s[0] == 0xE5 || s[11] == 0x0F
    ensures Live(s) <==> s[0] != 0 && s[0] != 0xE5
  {
  }

  /** An erased entry: marked, no attributes, no cluster, no size; the rest as it was. */
  lemma ErasedBytes(s: seq<byte>)
    requires |s| == 32
    ensures var r := Erased(s);
            && |r| == 32 && r[0] == 0xE5
            && (forall i :: 0 <= i < 32 && i in {11, 20, 21, 26, 27, 28, 29, 30, 31} ==> r[i] == 0)
            && forall i :: 0 <= i < 32 && i !in {0, 11, 20, 21, 26, 27, 28, 29, 30, 31} ==> r[i] == s[i]
  {
  }

  /** Files have attribute 0x20 and directories 0x10; slots are 32 bytes, in order. */
  lemma Attributes()
    ensures ATTR_ARCHIVE == 0x20 && ATTR_DIRECTORY == 0x10 && ATTR_LFN == 0x0F
  {
  }

  lemma SlotsStand(buf: seq<byte>, i: nat)
    requires 32 * i + 32 <= |buf|
    ensures SlotAt(buf, i) == buf[32 * i..32 * i + 32]
  {
  }

  /** The two entries a new directory starts with. */
  lemma NewDirectory(g: Geometry, c: nat, parent: nat)
    requires 1 <= g.sectorsPerCluster && c < 0x1_0000_0000 && parent < 0x1_0000_0000
    ensures var b := DirBlock(g, c, parent);
            && b[..11] == [0x2E, 0x20, 0x20, 0x20, 0x20, 0x20, 0x20, 0x20, 0x20, 0x20, 0x20]
            && b[32..43] == [0x2E, 0x2E, 0x20, 0x20, 0x20, 0x20, 0x20, 0x20, 0x20, 0x20, 0x20]
            && b[11] == 0x10 && b[43] == 0x10 && First(b[..32]) == c && First(b[32..64]) == parent
            && forall i :: 64 <= i < |b| ==> b[i] == 0
  {
    hide MakeSlot, First;
    MadeSlot(DOT_ENTRY, ATTR_DIRECTORY, c, 0);
    MadeSlot(DOTDOT_ENTRY, ATTR_DIRECTORY, parent, 0);
    var b, x, y := DirBlock(g, c, parent), MakeSlot(DOT_ENTRY, ATTR_DIRECTORY, c, 0), MakeSlot(DOTDOT_ENTRY, ATTR_DIRECTORY, parent, 0);
    assert b[..32] == x && b[32..64] == y;
    assert b[..11] == x[..11] && b[32..43] == y[..11] && b[43] == y[11];
  }

  // ---- tables and clusters ----

  /** Which entries of the table end a chain and which name a cluster. */
  lemma TableMarks(c: nat)
    ensures IsEndOfChain(c) <==> c >= 0x0FFF_FFF8
    ensures IsValidCluster(c) <==> 2 <= c < 0x0FFF_FFF8
    ensures END_MARK == 0x0FFF_FFFF
    ensures Mask28(c) == c % 0x1000_0000
  {
  }

  /** Entry `c` of the table is the 28-bit word at four times `c`; cluster `c` starts `c - 2` clusters into the
      data area, and table copies follow each other. */
  lemma Places(g: Geometry, c: nat, copy: nat)
    ensures c >= 2 ==> g.ClusterLba(c) == g.dataStart + (c - 2) * g.sectorsPerCluster
    ensures g.FatLba(copy) == g.fatStart + copy * g.sectorsPerFat
    ensures g.ClusterSize() == 512 * g.sectorsPerCluster && Slots(g) == 512 * g.sectorsPerCluster / 32
  {
    if c >= 2 {
      BlocksIsProduct(c - 2, g.sectorsPerCluster);
    }
    BlocksIsProduct(copy, g.sectorsPerFat);
  }

  /** The abstract volume, read off the disk: entry `c` of the first table, and cluster `c` of the data area. */
  lemma EntryPlace(disk: seq<byte>, g: Geometry, c: nat)
    requires g.Ok() && |disk| >= g.DiskSize() && c < g.Clusters()
    ensures 512 * g.fatStart + 4 * c + 4 <= |disk|
    ensures VolOf(disk, g).fat[c] == U32At(disk, 512 * g.fatStart + 4 * c) % 0x1000_0000
  {
    hide U32At;
    FatLbaOrder(g, 0, g.numFats);
    ClusterLbaOrder(g, 2, g.Clusters());
    assert g.FatLba(0) == g.fatStart;
    SameWord(disk, 512 * g.fatStart, SECTOR * g.sectorsPerFat, 4 * c);
  }

  /** A word within a slice. */
  lemma SameWord(s: seq<byte>, at: nat, n: nat, k: nat)
    requires at + n <= |s| && k + 4 <= n
    ensures U32At(Slice(s, at, n), k) == U32At(s, at + k)
  {
  }

  lemma ClusterPlace(disk: seq<byte>, g: Geometry, c: nat, lba: nat)
    requires g.Ok() && |disk| >= g.DiskSize() && 2 <= c < g.Clusters() && lba == g.dataStart + (c - 2) * g.sectorsPerCluster
    ensures 512 * lba + 512 * g.sectorsPerCluster <= |disk|
    ensures VolOf(disk, g).data[c] == disk[512 * lba..512 * lba + 512 * g.sectorsPerCluster]
  {
    hide FatOf;
    Places(g, c, 0);
    ClusterLbaOrder(g, c, c + 1);
  }

  // ---- the builder's sectors ----

  /** The boot sector, by its fields' places. */
  lemma BootBytes()
    ensures var b := BootSector();
            && |b| == 512
            && b[0] == 0xEB && b[1] == 0x58 && b[2] == 0x90
            && b[11] == 0x00 && b[12] == 0x02 && b[13] == 8 && b[14] == 32 && b[15] == 0 && b[16] == 2 && b[21] == 0xF8
            && b[24] == 63 && b[25] == 0 && b[26] == 255 && b[27] == 0
            && (forall i :: 17 <= i < 21 || 22 <= i < 24 ==> b[i] == 0)
  {
  }

  lemma BootWords()
    ensures var b := BootSector();
            && b[28] == 0x00 && b[29] == 0x08 && b[32] == 0x00 && b[33] == 0xF8 && b[34] == 0x01 && b[36] == 0x00 && b[37] == 0x04
            && b[44] == 2 && b[48] == 1 && b[50] == 6
            && forall i :: 28 <= i < 52 && i !in {29, 33, 34, 37, 44, 48, 50} ==> b[i] == 0
  {
  }

  lemma BootTexts()
    ensures var b := BootSector();
            b[3] == 0x58 && b[4] == 0x4F && b[5] == 0x53 && b[6] == 0x42 && b[7] == 0x4F && b[8] == 0x4F && b[9] == 0x54 && b[10] == 0x20
  {
  }

  lemma BootRest()
    ensures var b := BootSector();
            && (forall i :: 52 <= i < 64 || 90 <= i < 510 ==> b[i] == 0)
            && b[64..67] == [0x80, 0, 0x29] && b[67..71] == [0x78, 0x56, 0x34, 0x12]
            && b[71..82] == [0x58, 0x4F, 0x53, 0x20, 0x53, 0x54, 0x4F, 0x52, 0x41, 0x47, 0x45]
            && b[82..90] == [0x46, 0x41, 0x54, 0x33, 0x32, 0x20, 0x20, 0x20]
            && b[510] == 0x55 && b[511] == 0xAA
  {
  }

  /** The driver's reading of any boot sector, by those places, when nothing wraps; `area` is what all table
      copies take. */
  lemma BootRead(boot: seq<byte>, start: nat, area: nat)
    requires |boot| == 512 && boot[13] != 0 && area == boot[16] * U32At(boot, 36)
    requires start + U16At(boot, 14) + area < 0x1_0000_0000 && U16At(boot, 14) + area <= U32At(boot, 32)
    ensures var g := BootGeometry(boot, start);
            && g.sectorsPerCluster == boot[13] && g.numFats == boot[16] && g.sectorsPerFat == U32At(boot, 36)
            && g.rootCluster == U32At(boot, 44)
            && g.fatStart == start + U16At(boot, 14) && g.dataStart == start + U16At(boot, 14) + area
            && g.totalClusters == Quotient(U32At(boot, 32) - U16At(boot, 14) - area, boot[13])
  {
    hide U16At, U32At, Low32, Quotient;
    Unwrapped(start + U16At(boot, 14));
    Unwrapped(area);
    Unwrapped(U16At(boot, 14) + area);
    Unwrapped(start + U16At(boot, 14) + area);
    Unwrapped(U32At(boot, 32) - (U16At(boot, 14) + area));
  }

  lemma Unwrapped(x: nat)
    ensures x < 0x1_0000_0000 ==> Low32(x) == x
  {
  }

  /** A sector is mounted exactly if it ends in 0x55, 0xAA. */
  lemma MountLaw(disk: seq<byte>, start: nat)
    requires 512 * start + 512 <= |disk| && disk[512 * start + 13] != 0
    ensures Mount(disk, start).Some? <==> disk[512 * start + 510] == 0x55 && disk[512 * start + 511] == 0xAA
    ensures Mount(disk, start).Some? ==> disk[512 * start..512 * start + 512][13] != 0
    ensures Mount(disk, start).Some? ==> Mount(disk, start).value == BootGeometry(disk[512 * start..512 * start + 512], start)
  {
    hide BootGeometry;
  }

  /** The partition table: type 0x0C, from sector 2048, 129024 sectors. */
  lemma PartitionBytes()
    ensures var m := Mbr();
            && |m| == 512 && m[446..454] == [0, 0, 2, 0, 0x0C, 0, 0, 0] && m[454..458] == [0x00, 0x08, 0x00, 0x00] && m[458..462] == [0x00, 0xF8, 0x01, 0x00]
            && m[510] == 0x55 && m[511] == 0xAA && forall i :: 0 <= i < 446 || 462 <= i < 510 ==> m[i] == 0
  {
  }

  // ---- the checksum ----

  /** The example of RFC 1071, section 3: its words add up to 0xDDF2 in network order; this code reads the same
      bytes as little-endian words. */
  lemma ChecksumExample()
    ensures Sum16([0x00, 0x01, 0xF2, 0x03, 0xF4, 0xF5, 0xF6, 0xF7]) == 0xFFFF - 0xF2DD
    ensures Sum16([0x12]) == 0xFFFF - 0x1200 && Sum16([]) == 0xFFFF
  {
    var data: seq<byte> := [0x00, 0x01, 0xF2, 0x03, 0xF4, 0xF5, 0xF6, 0xF7];
    assert data[2..] == [0xF2, 0x03, 0xF4, 0xF5, 0xF6, 0xF7] && data[2..][2..] == [0xF4, 0xF5, 0xF6, 0xF7];
    assert data[2..][2..][2..] == [0xF6, 0xF7] && data[2..][2..][2..][2..] == [];
    assert WordSum(data) == 0x1_F2DC;
    assert Fold(0x1_F2DC) == Fold(0xF2DD) == 0xF2DD;
  }
}
