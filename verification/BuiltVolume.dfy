/** The built image as the driver sees it: a consistent volume whose files read back exactly. */
module BuiltVolume {
  import opened Bytes
  import opened FatTable
  import opened Layout
  import opened Names
  import opened Directory
  import opened Files
  import opened Operations
  import opened Consistency
  import opened Runs
  import opened WorkDir
  import opened Session
  import opened Builder

  function FullName(f: FileSpec): seq<byte> {
    if f.ext == [] then f.name else f.name + [DOT] + f.ext
  }

  /** An upper-case canonical 8.3 name, split the way the builder keeps it. */
  ghost predicate WellNamed(f: FileSpec) {
    && Canonical(FullName(f)) && DOT !in f.name && DOT !in f.ext && |f.name| <= 8 && |f.ext| <= 3
    && Upper(f.name) == f.name && Upper(f.ext) == f.ext
  }

  /** What the builder is given: files that fit, with distinct canonical names. */
  ghost predicate Buildable(files: seq<FileSpec>) {
    && Placeable(files)
    && (forall i :: 0 <= i < |files| ==> WellNamed(files[i]))
    && (forall i, j :: 0 <= i < j < |files| ==> PadName(files[i]) != PadName(files[j]))
  }

  /** The volume the driver finds on the built image. */
  ghost function Mounted(files: seq<FileSpec>): (v: Vol)
    requires Placeable(files)
  {
    ImageMounts(files);
    VolOf(Image(files), G)
  }

  lemma FullParts(f: FileSpec)
    requires DOT !in f.name && DOT !in f.ext
    ensures Base(FullName(f)) == f.name && Ext(FullName(f)) == f.ext
  {
    hide Find;
    var n := FullName(f);
    if f.ext == [] {
      assert n[..|n|] == n;
      FindUnique(n, DOT, |n|);
    } else {
      assert n[..|f.name|] == f.name && n[|f.name|] == DOT;
      FindUnique(n, DOT, |f.name|);
      assert n[|f.name| + 1..] == f.ext;
    }
  }

  /** The builder's padding is the driver's packing. */
  lemma PadIsPack(f: FileSpec)
    requires WellNamed(f)
    ensures Name83(FullName(f)) == Some(PadName(f)) && CanonicalEntry(PadName(f))
  {
    hide Canonical, Upper, Spaces, FullName, Base, Ext, CanonicalEntry, Accepted;
    var n := FullName(f);
    FullParts(f);
    PlainStrip(n);
    CanonicalPacks(n);
  }

  lemma PlainStrip(n: seq<byte>)
    requires Canonical(n)
    ensures StripSlash(n) == n
  {
  }

  // ---- the ledger of the image ----

  function ChainFor(files: seq<FileSpec>, i: nat): (xs: seq<nat>)
    requires i < |files|
    ensures |xs| == CountOf(files[i]) && forall j :: 0 <= j < |xs| ==> xs[j] == FirstOf(files, i) + j
  {
    seq(CountOf(files[i]), j => FirstOf(files, i) + j)
  }

  /** The file whose clusters include `c`. */
  function FileAt(files: seq<FileSpec>, i: nat, c: nat): (k: nat)
    requires i <= |files| && 3 <= c < FirstOf(files, i)
    ensures k < i && FirstOf(files, k) <= c < FirstOf(files, k) + CountOf(files[k])
    decreases i
  {
    if c >= FirstOf(files, i - 1) then i - 1 else FileAt(files, i - 1, c)
  }

  lemma FileAtUnique(files: seq<FileSpec>, i: nat, c: nat, k: nat)
    requires k < i <= |files| && 3 <= c < FirstOf(files, i) && FirstOf(files, k) <= c < FirstOf(files, k) + CountOf(files[k])
    ensures FileAt(files, i, c) == k
  {
    hide FileAt, FirstOf, CountOf;
    var j := FileAt(files, i, c);
    if j < k {
      FirstOrder(files, j, k);
    } else if k < j {
      FirstOrder(files, k, j);
    }
  }

  function Chains(files: seq<FileSpec>): map<Slot, seq<nat>> {
    map k | k in {ROOT} + (set i | 0 <= i < |files| :: Slot(2, i)) :: if k == ROOT then [2] else ChainFor(files, k.index)
  }

  function Owners(files: seq<FileSpec>): map<nat, Slot> {
    map c: nat | 2 <= c < FirstOf(files, |files|) :: if c == 2 then ROOT else Slot(2, FileAt(files, |files|, c))
  }

  function BuiltLedger(files: seq<FileSpec>): Ledger {
    Ledger(Chains(files), Owners(files), map[2 := 0])
  }

  lemma {:induction false} EntryIn(files: seq<FileSpec>, i: nat, k: nat, c: nat)
    requires k < i <= |files| && FirstOf(files, k) <= c < FirstOf(files, k) + CountOf(files[k])
    ensures BuiltEntry(files, i, c) == if c == FirstOf(files, k) + CountOf(files[k]) - 1 then END_MARK else c + 1
    decreases i
  {
    hide CountOf;
    if k < i - 1 {
      FirstOrder(files, k, i - 1);
      EntryIn(files, i - 1, k, c);
    }
  }

  lemma {:induction false} EntryOut(files: seq<FileSpec>, i: nat, c: nat)
    requires i <= |files| && (c >= FirstOf(files, i) || c < 3)
    ensures BuiltEntry(files, i, c) == if c >= 3 then 0 else if c == 0 then 0x0FFF_FFF8 else END_MARK
    decreases i
  {
    hide CountOf;
    if i > 0 {
      FirstOrder(files, i - 1, i);
      EntryOut(files, i - 1, c);
    }
  }

  /** The table is the one `BuiltEntry` describes. */
  ghost predicate BuiltFat(files: seq<FileSpec>, fat: seq<nat>) {
    && |fat| == G.Clusters() && FirstOf(files, |files|) <= |fat|
    && forall c {:trigger fat[c]} :: 0 <= c < |fat| ==> fat[c] == BuiltEntry(files, |files|, c)
  }

  lemma FileChain(files: seq<FileSpec>, fat: seq<nat>, i: nat)
    requires BuiltFat(files, fat) && i < |files|
    ensures IsChain(fat, ChainFor(files, i))
  {
    hide ChainFor, CountOf, FirstOf, BuiltEntry;
    FirstOrder(files, i, |files|);
    var xs := ChainFor(files, i);
    forall j | 0 <= j < |xs|
      ensures fat[xs[j]] == if j == |xs| - 1 then END_MARK else xs[j] + 1
    {
      EntryIn(files, |files|, i, xs[j]);
    }
  }

  lemma BuiltInRange(files: seq<FileSpec>, fat: seq<nat>)
    requires BuiltFat(files, fat)
    ensures InRange(fat)
  {
    hide CountOf, FirstOf, BuiltEntry, FileAt;
    forall c | 2 <= c < |fat| && IsValidCluster(fat[c])
      ensures fat[c] < |fat|
    {
      if c < 3 || c >= FirstOf(files, |files|) {
        EntryOut(files, |files|, c);
      } else {
        var k := FileAt(files, |files|, c);
        EntryIn(files, |files|, k, c);
        FirstOrder(files, k, |files|);
      }
    }
  }

  lemma BuiltOwners(files: seq<FileSpec>)
    ensures OwnersOk(Chains(files), Owners(files))
  {
    hide ChainFor, CountOf, FirstOf, FileAt;
    var n := |files|;
    forall k, c
      ensures Holds(Chains(files), k, c) <==> Owns(Owners(files), k, c)
    {
      if Holds(Chains(files), k, c) && k != ROOT {
        InChainFor(files, k.index, c);
        FirstOrder(files, k.index, n);
        FileAtUnique(files, n, c, k.index);
      }
      if Owns(Owners(files), k, c) && c != 2 {
        InChainFor(files, FileAt(files, n, c), c);
      }
      FirstOrder(files, 0, n);
      FirstStart(files);
    }
  }

  lemma InChainFor(files: seq<FileSpec>, i: nat, c: nat)
    requires i < |files|
    ensures c in ChainFor(files, i) <==> FirstOf(files, i) <= c < FirstOf(files, i) + CountOf(files[i])
  {
    hide CountOf, FirstOf, ChainFor;
    var xs := ChainFor(files, i);
    if FirstOf(files, i) <= c < FirstOf(files, i) + CountOf(files[i]) {
      assert xs[c - FirstOf(files, i)] == c;
    }
  }

  lemma BuiltOwned(files: seq<FileSpec>, fat: seq<nat>)
    requires BuiltFat(files, fat)
    ensures Owned(fat, Chains(files), Owners(files))
  {
    hide ChainFor, CountOf, FirstOf, FileAt, BuiltEntry, OwnersOk, InRange, IsChain;
    BuiltInRange(files, fat);
    BuiltOwners(files);
    RootChain(files, fat);
    forall k | k in Chains(files)
      ensures IsChain(fat, Chains(files)[k])
    {
      if k != ROOT {
        FileChain(files, fat, k.index);
      }
    }
    forall c | 2 <= c < |fat| && fat[c] != 0
      ensures c in Owners(files)
    {
      if c >= FirstOf(files, |files|) {
        EntryOut(files, |files|, c);
      }
    }
  }

  lemma RootChain(files: seq<FileSpec>, fat: seq<nat>)
    requires BuiltFat(files, fat)
    ensures IsChain(fat, [2])
  {
    hide CountOf, FirstOf, BuiltEntry;
    EntryOut(files, |files|, 2);
  }

  // ---- the root directory of the image ----

  lemma FileSlot(name: seq<byte>, first: nat, size: nat)
    requires CanonicalEntry(name) && |name| == 11 && first < 0x1_0000_0000 && size < 0x1_0000_0000
    ensures var s := MakeSlot(name, ATTR_ARCHIVE, first, size);
            Live(s) && TidySlot(s) && !IsDir(s) && NameOf(s) == name && First(s) == first && Size(s) == size
  {
    hide CanonicalEntry, MakeSlot, First, Size, NameOf;
    CanonicalEntryFirst(name);
    MadeSlot(name, ATTR_ARCHIVE, first, size);
  }

  lemma BuiltSlot(files: seq<FileSpec>, root: seq<byte>, j: nat)
    requires Buildable(files) && j < 128 && root == RootDir(files, |files|)
    ensures |root| == CLUSTER
    ensures j >= |files| ==> SlotAt(root, j) == Zeros(SLOT)
    ensures j < |files| ==>
              var s := SlotAt(root, j);
              && Live(s) && TidySlot(s) && !IsDir(s) && NameOf(s) == PadName(files[j]) && CanonicalEntry(NameOf(s))
              && First(s) == FirstOf(files, j) && Size(s) == |files[j].data|
  {
    hide RootDir, MakeSlot, PadName, FirstOf, CountOf, CanonicalEntry, First, Size, NameOf, WellNamed, SlotAt, Live, IsDir, TidySlot;
    RootSlot(files, |files|, j);
    if j < |files| {
      FirstOrder(files, j, |files|);
      PadIsPack(files[j]);
      FileSlot(PadName(files[j]), FirstOf(files, j), |files[j].data|);
    }
  }

  lemma BuiltTidy(files: seq<FileSpec>, root: seq<byte>)
    requires Buildable(files) && root == RootDir(files, |files|)
    ensures Tidy(root, 128)
  {
    hide RootDir, PadName, FirstOf, CountOf, CanonicalEntry, First, NameOf, WellNamed, SlotAt, TidySlot;
    forall j | 0 <= j < 128
      ensures TidySlot(SlotAt(root, j)) && (SlotAt(root, j)[0] == 0 <==> j >= |files|) && (Live(SlotAt(root, j)) <==> j < |files|)
      ensures j < |files| ==> NameOf(SlotAt(root, j)) == PadName(files[j])
    {
      BuiltSlot(files, root, j);
      if j >= |files| {
        ZeroSlotTidy();
      }
    }
  }

  lemma ZeroSlotTidy()
    ensures TidySlot(Zeros(SLOT))
  {
  }

  lemma BuiltFits(files: seq<FileSpec>, v: Vol)
    requires Buildable(files) && v == Mounted(files)
    ensures BuiltFat(files, v.fat) && Fits(v, G) && v.data[2] == RootDir(files, |files|)
  {
    hide Image, RootDir, VolOf, FirstOf, CountOf, BuiltEntry, WellNamed, PadName;
    GeometryOk();
    forall c | 0 <= c < G.Clusters()
      ensures v.fat[c] == BuiltEntry(files, |files|, c)
    {
      ImageFat(files, c);
    }
    BuiltInRange(files, v.fat);
    ImageRoot(files);
  }

  /** The built image is a consistent volume. */
  lemma BuiltConsistent(files: seq<FileSpec>, v: Vol)
    requires Buildable(files) && v == Mounted(files)
    ensures Fits(v, G) && Consistent(v, G, BuiltLedger(files))
  {
    hide Image, RootDir, VolOf, FirstOf, CountOf, BuiltEntry, WellNamed, PadName, Owned, Tidy, ChainFor, FileAt, EntryOk, BuiltFat, DirsOk, KeysOk;
    GeometryOk();
    BuiltFits(files, v);
    BuiltOwned(files, v.fat);
    BuiltTidy(files, v.data[2]);
    BuiltRootOk(files, v);
    forall k | InTree(G, map[2 := 0], k)
      ensures 2 <= k.dir < |v.data| && EntryOk(EntryOf(v, G, k), G, BuiltLedger(files), k)
    {
      BuiltEntryOk(files, v, k);
    }
  }

  lemma BuiltRootOk(files: seq<FileSpec>, v: Vol)
    requires Fits(v, G) && Slots(G) == 128 && |files| <= 128 && Tidy(v.data[2], 128)
    ensures DirsOk(v, G, BuiltLedger(files)) && KeysOk(G, BuiltLedger(files))
  {
    hide FirstOf, CountOf, Tidy, ChainFor, FileAt, Chains, Owners, NamedBy;
    LedgerRoot(files);
    assert DirOk(v, G, BuiltLedger(files), 2);
    BuiltKeys(files);
  }

  lemma LedgerRoot(files: seq<FileSpec>)
    ensures 2 in Owners(files) && Owners(files)[2] == ROOT && ROOT in Chains(files) && Chains(files)[ROOT] == [2]
  {
    hide FirstOf, CountOf, ChainFor, FileAt;
    assert FirstOf(files, |files|) >= 3;
  }

  lemma BuiltKeys(files: seq<FileSpec>)
    requires Slots(G) == 128
    ensures |files| <= 128 ==> KeysOk(G, BuiltLedger(files))
  {
    hide FirstOf, CountOf, ChainFor, FileAt, Owners;
  }

  lemma BuiltEntryOk(files: seq<FileSpec>, v: Vol, k: Slot)
    requires Buildable(files) && Fits(v, G) && v.data[2] == RootDir(files, |files|) && Slots(G) == 128
    requires k.dir == 2 && k.index < 128
    ensures EntryOk(EntryOf(v, G, k), G, BuiltLedger(files), k)
  {
    hide RootDir, FirstOf, CountOf, WellNamed, PadName, Tidy, Placeable, ChainFor, FileAt, CanonicalEntry, First, NameOf, IsDir, TidySlot, Owners;
    BuiltSlot(files, v.data[2], k.index);
    if k.index < |files| {
      assert k in Chains(files);
      assert ChainFor(files, k.index)[0] == FirstOf(files, k.index);
    }
  }

  /** So a session can start on it, in the root directory. */
  lemma BuiltSound(files: seq<FileSpec>, v: Vol)
    requires Buildable(files) && v == Mounted(files)
    ensures Sound(State(v, Cwd(2, [SLASH])), G, BuiltLedger(files))
  {
    hide Image, VolOf, Consistent, Buildable;
    BuiltConsistent(files, v);
    var comps: seq<seq<byte>> := [];
    assert Resolve(v, G, 2, comps) == Some(2) && PathOf(comps) == [SLASH] && AllCanonical(comps);
  }

  /** From any built image, every legal run ends with a consistent volume and a coherent directory. */
  lemma BuiltRuns(files: seq<FileSpec>, v: Vol, ops: seq<Op>) returns (M: Ledger)
    requires Buildable(files) && v == Mounted(files)
    requires Run(State(v, Cwd(2, [SLASH])), G, ops)
    ensures Sound(After(State(v, Cwd(2, [SLASH])), G, ops), G, M)
  {
    hide Image, VolOf, Sound, Buildable, Run, After;
    BuiltSound(files, v);
    M := RunKeeps(State(v, Cwd(2, [SLASH])), G, BuiltLedger(files), ops);
  }

  // ---- reading the files back ----

  /** The bytes of a built file's chain start with the file. */
  lemma BuiltContent(files: seq<FileSpec>, v: Vol, i: nat)
    requires Buildable(files) && v == Mounted(files) && Fits(v, G)
    requires i < |files| && files[i].data != [] && IsChain(v.fat, ChainFor(files, i))
    ensures |files[i].data| <= Blocks(CountOf(files[i]), CLUSTER)
    ensures files[i].data <= Content(v.data, ChainFor(files, i))
  {
    hide Image, VolOf, FirstOf, WellNamed, PadName, Content, Blocks, IsChain, ClustersFor;
    var xs, data := ChainFor(files, i), files[i].data;
    GeometryOk();
    ClustersCover(|data|, CLUSTER);
    assert VolOk(v, CLUSTER);
    ChainSized(v, CLUSTER, xs);
    ContentAt(v.data, xs, CLUSTER, 0);
    forall p | 0 <= p < |data|
      ensures Content(v.data, xs)[p] == data[p]
    {
      BuiltByte(files, v, i, p);
    }
  }

  lemma BuiltByte(files: seq<FileSpec>, v: Vol, i: nat, p: nat)
    requires Buildable(files) && v == Mounted(files)
    requires i < |files| && p < |files[i].data| && |files[i].data| <= Blocks(CountOf(files[i]), CLUSTER)
    requires Sized(v.data, ChainFor(files, i), CLUSTER)
    ensures p < |Content(v.data, ChainFor(files, i))| && Content(v.data, ChainFor(files, i))[p] == files[i].data[p]
  {
    hide Image, VolOf, FirstOf, WellNamed, PadName, Content, Blocks, CountOf;
    var xs := ChainFor(files, i);
    var x := BlockOf(p, |xs|, CLUSTER);
    ImageData(files, i, x);
    ContentAt(v.data, xs, CLUSTER, x);
    BlocksIsProduct(x, CLUSTER);
    assert Slice(Content(v.data, xs), Blocks(x, CLUSTER), CLUSTER)[p - Blocks(x, CLUSTER)] == Chunk(files[i].data, x)[p - CLUSTER * x];
  }

  /** Opening a built file by name gives a handle from which its exact bytes are read, however the
      reads are chunked; empty and multi-cluster files included. */
  lemma BuiltFileReads(files: seq<FileSpec>, v: Vol, i: nat, counts: seq<nat>)
    requires Buildable(files) && v == Mounted(files)
    requires i < |files|
    ensures Fits(v, G) && Open(v, G, 2, FullName(files[i])).Some?
    ensures var h := Open(v, G, 2, FullName(files[i])).value;
            && h == Handle(FirstOf(files, i), FirstOf(files, i), 0, |files[i].data|) && Reading(v, CLUSTER, h, files[i].data)
            && ReadMany(v, CLUSTER, h, counts).0 == Slice(files[i].data, 0, Clip(files[i].data, 0, Sum(counts)))
  {
    hide Image, VolOf, FirstOf, CountOf, PadName, RootDir, Consistent, LookUp, Name83, Reading, ReadMany, Chains, Owners, Live, First, Size, IsDir, NameOf, CanonicalEntry, TidySlot;
    GeometryOk();
    BuiltConsistent(files, v);
    BuiltFits(files, v);
    BuiltSlot(files, v.data[2], i);
    PadIsPack(files[i]);
    PlainStrip(FullName(files[i]));
    OpensAs(v, G, BuiltLedger(files), Slot(2, i), 2, FullName(files[i]));
    var h := Handle(FirstOf(files, i), FirstOf(files, i), 0, |files[i].data|);
    BuiltReading(files, v, i, h, counts);
  }

  lemma BuiltReading(files: seq<FileSpec>, v: Vol, i: nat, h: Handle, counts: seq<nat>)
    requires Buildable(files) && v == Mounted(files)
    requires i < |files| && h == Handle(FirstOf(files, i), FirstOf(files, i), 0, |files[i].data|)
    ensures Reading(v, CLUSTER, h, files[i].data)
    ensures ReadMany(v, CLUSTER, h, counts).0 == Slice(files[i].data, 0, Clip(files[i].data, 0, Sum(counts)))
  {
    hide Image, VolOf, FirstOf, CountOf, WellNamed, PadName, Content, RootDir, BuiltEntry, ReadMany, Read, Sum;
    GeometryOk();
    BuiltFits(files, v);
    FirstOrder(files, i, |files|);
    FileChain(files, v.fat, i);
    assert Blocks(0, CLUSTER) == 0;
    var xs := ChainFor(files, i);
    assert Along(v, CLUSTER, h, xs, 0);
    if files[i].data != [] {
      BuiltContent(files, v, i);
    }
    CoveredReads(v, CLUSTER, h, xs, files[i].data, counts);
  }
}
