/** What a write leaves behind: how much of the buffer is read back. */
module RoundTrip {
  import opened Bytes
  import opened FatTable
  import opened Layout
  import opened Names
  import opened Directory
  import opened Files
  import opened Operations
  import opened Consistency
  import opened Runs
  import opened Space
  import opened WorkDir

  // ---- write, then read ----

  /** Half the clusters a buffer needs hold it exactly when it needs only one. */
  lemma HalfCovers(count: nat, cs: nat)
    requires 0 < cs && 0 < count
    ensures var m := (ClustersFor(count, cs) + 1) / 2;
            count <= Blocks(m, cs) <==> count <= cs
  {
    var k := ClustersFor(count, cs);
    var m := (k + 1) / 2;
    ClustersCover(count, cs);
    if k == 1 {
      assert Blocks(1, cs) == Blocks(0, cs) + cs;
    } else {
      assert m <= k - 1;
      if m < k - 1 {
        BlocksOrder(m, k - 1, cs);
      }
    }
  }

  /** How much of a buffer the clusters that the allocator takes for it can hold. */
  function Kept(count: nat, cs: nat): (n: nat)
    requires 0 < cs
    ensures n <= count
  {
    var m := (ClustersFor(count, cs) + 1) / 2;
    if Blocks(m, cs) < count then Blocks(m, cs) else count
  }

  /** What reading on delivers of a written buffer: past the clusters that were taken for it, the last of them
      comes again. */
  function Echoed(bytes: seq<byte>, cs: nat): (r: seq<byte>)
    requires 0 < cs
    ensures |r| == |bytes|
    ensures r == bytes <==> forall p :: Kept(|bytes|, cs) <= p < |bytes| ==> bytes[p] == EchoAt(bytes, cs, p)
  {
    seq(|bytes|, p requires 0 <= p < |bytes| => EchoAt(bytes, cs, p))
  }

  function EchoAt(bytes: seq<byte>, cs: nat, p: nat): byte
    requires 0 < cs && p < |bytes|
  {
    var kept := Kept(|bytes|, cs);
    if p < kept || kept < cs then bytes[p] else bytes[kept - cs + Offset(p, cs)]
  }

  /** A buffer of at most a cluster is kept in full. */
  lemma KeptInFull(count: nat, cs: nat)
    requires 0 < cs
    ensures count <= cs ==> Kept(count, cs) == count
    ensures count > cs ==> cs <= Kept(count, cs) < count
  {
    if count > 0 {
      HalfCovers(count, cs);
      BlocksOrder(0, (ClustersFor(count, cs) + 1) / 2, cs);
    }
  }

  /** The volume after a successful write with data: what a handle on the new chain reads back in one call, in
      any calls, and when that is the same. */
  lemma StoredReadsBack(v: Vol, g: Geometry, d: nat, p: nat, name: seq<byte>, bytes: seq<byte>, h: Handle, w: Vol)
    requires Fits(v, g) && 2 <= d < |v.data| && p < Slots(g) && |name| == 11 && 0 < |bytes| < 0x1_0000_0000
    requires StoreFile(v, g, d, p, name, bytes) == Done(w) && WithoutChain(v, First(SlotAt(v.data[d], p))).fat[d] != 0
    requires h == Handle(First(SlotAt(w.data[d], p)), First(SlotAt(w.data[d], p)), 0, |bytes|)
    ensures Fits(w, g) && (IsValidCluster(h.current) ==> h.current < |w.data|)
    ensures Read(w, g.ClusterSize(), h, |bytes|).0 == bytes[..Kept(|bytes|, g.ClusterSize())]
    ensures Reading(w, g.ClusterSize(), h, Echoed(bytes, g.ClusterSize()))
    ensures (forall counts :: ReadMany(w, g.ClusterSize(), h, counts).0 == Read(w, g.ClusterSize(), h, Sum(counts)).0)
            <==> |bytes| <= g.ClusterSize()
  {
    hide StoreFile, Frees, WithoutChain, PutSlot, MakeSlot, WriteLoop, SlotAt, First, Link, Read, ReadMany, Reading, Echoed, Reach, IsChain;
    var cs := g.ClusterSize();
    var freed, xs, linked, stored := StoreFileSteps(v, g, d, p, name, bytes);
    MadeSlot(name, ATTR_ARCHIVE, xs[0], |bytes|);
    SlotAfterPut(v.data[d], p, MakeSlot(name, ATTR_ARCHIVE, xs[0], |bytes|), p);
    assert d !in xs;
    WrittenContent(linked, cs, xs, bytes);
    ContentSame(stored, w, xs, cs);
    WrittenReads(w, cs, h, xs, bytes);
  }

  /** Reading a chain that starts with as much of the buffer as it holds. */
  lemma WrittenReads(w: Vol, cs: nat, h: Handle, xs: seq<nat>, bytes: seq<byte>)
    requires VolOk(w, cs) && IsChain(w.fat, xs) && 0 < |bytes| && |xs| == (ClustersFor(|bytes|, cs) + 1) / 2
    requires h == Handle(xs[0], xs[0], 0, |bytes|)
    requires Within(xs, 0, |w.data|) && |Content(w.data, xs)| == Blocks(|xs|, cs)
    requires forall p :: 0 <= p < |bytes| && p < |Content(w.data, xs)| ==> Content(w.data, xs)[p] == bytes[p]
    ensures IsValidCluster(h.current) && h.current < |w.data|
    ensures Read(w, cs, h, |bytes|).0 == bytes[..Kept(|bytes|, cs)]
    ensures Reading(w, cs, h, Echoed(bytes, cs))
    ensures (forall counts :: ReadMany(w, cs, h, counts).0 == Read(w, cs, h, Sum(counts)).0) <==> |bytes| <= cs
  {
    hide Read, ReadMany, InRange, Unrolled, Echoed, EchoAt, Content, IsChain, Reach, ClustersFor;
    assert Blocks(0, cs) == 0;
    BlocksOrder(0, |xs|, cs);
    assert Along(w, cs, h, xs, 0);
    AlongSized(w, cs, h, xs, 0);
    EchoIsUnrolled(w, cs, xs, bytes);
    assert Yields(w, cs, h, xs, 0, Echoed(bytes, cs));
    var k := ReadAlong(w, cs, h, xs, 0, |bytes|);
    EchoStarts(bytes, cs);
    ReadsAreChunkIndependent(w, cs, h, xs, 0);
    HalfCovers(|bytes|, cs);
  }

  lemma EchoStarts(bytes: seq<byte>, cs: nat)
    requires 0 < cs
    ensures Slice(Echoed(bytes, cs), 0, Kept(|bytes|, cs)) == bytes[..Kept(|bytes|, cs)]
  {
    hide Kept;
  }

  lemma EchoIsUnrolled(w: Vol, cs: nat, xs: seq<nat>, bytes: seq<byte>)
    requires Sized(w.data, xs, cs) && 0 < cs && 0 < |bytes| && |xs| == (ClustersFor(|bytes|, cs) + 1) / 2
    requires |Content(w.data, xs)| == Blocks(|xs|, cs)
    requires forall p :: 0 <= p < |bytes| && p < |Content(w.data, xs)| ==> Content(w.data, xs)[p] == bytes[p]
    ensures xs != [] && Echoed(bytes, cs) == Unrolled(w.data, xs, cs, |bytes|)
  {
    hide Content, ClustersFor, Offset;
    BlocksOrder(0, |xs|, cs);
    var last := |xs| - 1;
    ContentAt(w.data, xs, cs, last);
    forall p | 0 <= p < |bytes|
      ensures EchoAt(bytes, cs, p) == ByteAt(w.data, xs, cs, p)
    {
      assert Slice(Content(w.data, xs), Blocks(last, cs), cs)[Offset(p, cs)] == Content(w.data, xs)[Blocks(last, cs) + Offset(p, cs)];
    }
  }

  lemma {:induction false} ContentSame(a: Vol, b: Vol, xs: seq<nat>, cs: nat)
    requires |a.data| == |b.data| && Within(xs, 0, |a.data|)
    requires forall c :: c in xs ==> b.data[c] == a.data[c]
    ensures Content(b.data, xs) == Content(a.data, xs)
    decreases |xs|
  {
    if xs != [] {
      assert xs[0] in xs;
      ContentSame(a, b, xs[1..], cs);
    }
  }

  /** A path without a directory part: `fat32_open` drops one leading slash, the name packing another. */
  predicate OneName(path: seq<byte>) {
    SLASH !in StripSlash(StripSlash(path))
  }

  /** Navigating such a path looks its name up in the directory it starts in. */
  lemma NavigateOneName(v: Vol, g: Geometry, cwd: nat, path: seq<byte>)
    requires Fits(v, g) && OneName(path) && 2 <= cwd && StripSlash(StripSlash(path)) != []
    ensures var d, name := StartDir(g, cwd, path), Buffered(StripSlash(StripSlash(path)));
            Navigate(v, g, cwd, path)
            == match LookUp(v, g, d, Text(name))
               case None => Missing(d, name)
               case Some(s) => Found(d, name, s)
  {
    hide LookUp, Walk;
    var n, d := StripSlash(StripSlash(path)), StartDir(g, cwd, path);
    var i := |path| - |n|;
    if i == 2 {
      WalkStep(v, g, d, path, 1, []);
    }
    assert Slice(path, i, |n|) == n;
    WalkName(v, g, d, path, i, [], n);
    assert [] + n == n;
    WalkStep(v, g, d, path, |path|, Buffered(n));
  }

  /** `fat32_open` looks at such paths only. */
  lemma OpenNeedsOneName(v: Vol, g: Geometry, cwd: nat, path: seq<byte>)
    requires Fits(v, g) && !OneName(path)
    ensures Open(v, g, cwd, path) == None
  {
    hide LookUp, Find, Base, Ext;
  }

  /** And it opens what the path leads to, as opening that name in that directory does. */
  lemma OpenOneName(v: Vol, g: Geometry, w: Vol, cwd: nat, path: seq<byte>)
    requires Fits(v, g) && Fits(w, g) && OneName(path) && 2 <= cwd && 2 <= g.rootCluster
    requires !Navigate(v, g, cwd, path).NotFound? && Canonical(Navigate(v, g, cwd, path).name)
    ensures var nav := Navigate(v, g, cwd, path);
            Open(w, g, cwd, path) == Open(w, g, nav.parent, nav.name)
  {
    hide LookUp, Canonical, Navigate, Pack, Find, Base, Ext;
    var n := StripSlash(StripSlash(path));
    if n == [] {
      NavigateNothing(v, g, cwd, path);
      assert false;
    }
    NavigateOneName(v, g, cwd, path);
    CanonicalIsPlain(Buffered(n));
    assert n[0] in n && StripSlash(n) == n;
  }

  /** A path of slashes leads to no canonical name. */
  lemma NavigateNothing(v: Vol, g: Geometry, cwd: nat, path: seq<byte>)
    requires Fits(v, g) && StripSlash(StripSlash(path)) == [] && !Navigate(v, g, cwd, path).NotFound?
    ensures !Canonical(Navigate(v, g, cwd, path).name)
  {
    hide LookUp, Accepted;
    NavigateLast(v, g, cwd, path);
    assert path == [] || path == [SLASH] || path == [SLASH, SLASH];
    assert LastFrom(path, |path|, []) == [];
    assert |path| == 2 ==> LastFrom(path, 1, []) == [];
  }

  /** The directory of a write is still in use once the old chain is freed. */
  lemma ParentStaysUsed(v: Vol, g: Geometry, L: Ledger, k: Slot, name: seq<byte>)
    requires Fits(v, g) && Target(v, g, L, k, name)
    ensures WithoutChain(v, First(EntryOf(v, g, k))).fat[k.dir] != 0
  {
    hide Owned, EntriesOk, DirsOk, KeysOk, WithoutChain, First, CanonicalEntry, Picked, IsDir, Live, EntryOf;
    ReleaseSlot(v, g, L, k);
    ReleasedFrame(v, g, L, k);
    DirOwned(v, g, L, k.dir);
    OwnedIsUsed(WithoutChain(v, First(EntryOf(v, g, k))).fat, Released(L, k).chains, Released(L, k).owner, k.dir);
  }

  /** The slot after a successful write, by its fields. */
  lemma WrittenSlotIs(v: Vol, g: Geometry, k: Slot, name: seq<byte>, bytes: seq<byte>, w: Vol)
    requires Fits(v, g) && 2 <= k.dir < |v.data| && k.index < Slots(g) && |name| == 11 && |bytes| < 0x1_0000_0000
    requires StoreFile(v, g, k.dir, k.index, name, bytes) == Done(w)
    ensures Fits(w, g)
    ensures var s := EntryOf(w, g, k);
            NameOf(s) == name && s[11] == ATTR_ARCHIVE && Size(s) == |bytes| && (bytes == [] ==> First(s) == 0)
  {
    hide StoreFile, First, Size, MakeSlot, PutSlot, WithoutChain, WriteLoop, Frees, Link;
    if bytes == [] {
      StoreFileEmpty(v, g, k.dir, k.index, name);
      SlotPut(v, k, name, 0, 0);
    } else {
      var freed, xs, linked, stored := StoreFileSteps(v, g, k.dir, k.index, name, bytes);
      SlotPut(v, k, name, xs[0], |bytes|);
    }
  }

  lemma WrittenLedger(v: Vol, g: Geometry, L: Ledger, k: Slot, name: seq<byte>, bytes: seq<byte>, w: Vol)
    returns (M: Ledger)
    requires Fits(v, g) && Target(v, g, L, k, name) && |name| == 11 && |bytes| < 0x1_0000_0000
    requires StoreFile(v, g, k.dir, k.index, name, bytes) == Done(w)
    ensures Consistent(w, g, M) && k.dir in M.depth
  {
    hide Consistent, StoreFile, CanonicalEntry, Picked, Live, First, IsDir, DirEntriesKept, OthersKept;
    if bytes == [] {
      StoreEmptyKeeps(v, g, L, k, name);
      M := Released(L, k);
    } else {
      M := StoreDataKeeps(v, g, L, k, name, bytes);
    }
  }

  /** The entry a successful write leaves in its slot. */
  lemma WrittenEntry(v: Vol, g: Geometry, L: Ledger, k: Slot, name: seq<byte>, bytes: seq<byte>, w: Vol)
    returns (M: Ledger)
    requires Fits(v, g) && Target(v, g, L, k, name) && |name| == 11 && |bytes| < 0x1_0000_0000
    requires StoreFile(v, g, k.dir, k.index, name, bytes) == Done(w)
    ensures Fits(w, g) && Consistent(w, g, M) && k.dir in M.depth
    ensures var s := EntryOf(w, g, k);
            && Live(s) && NameOf(s) == name && !IsDir(s) && Size(s) == |bytes| && (bytes == [] ==> First(s) == 0)
  {
    hide Consistent, StoreFile, CanonicalEntry, Picked, Live, First, Size;
    WrittenSlotIs(v, g, k, name, bytes, w);
    M := WrittenLedger(v, g, L, k, name, bytes, w);
    CanonicalEntryFirst(name);
    LiveName(EntryOf(w, g, k));
  }

  lemma LiveName(s: seq<byte>)
    requires |s| == SLOT
    ensures Live(s) <==> NameOf(s)[0] !in {0, DELETED}
  {
  }

  lemma SlotPut(v: Vol, k: Slot, name: seq<byte>, first: nat, size: nat)
    requires k.dir < |v.data| && SLOT * k.index + SLOT <= |v.data[k.dir]| && |name| == 11 && first < 0x1_0000_0000 && size < 0x1_0000_0000
    ensures var s := SlotAt(PutSlot(v.data[k.dir], k.index, MakeSlot(name, ATTR_ARCHIVE, first, size)), k.index);
            NameOf(s) == name && s[11] == ATTR_ARCHIVE && First(s) == first && Size(s) == size
  {
    hide MakeSlot, PutSlot, SlotAt, First, Size, NameOf;
    MadeSlot(name, ATTR_ARCHIVE, first, size);
    SlotAfterPut(v.data[k.dir], k.index, MakeSlot(name, ATTR_ARCHIVE, first, size), k.index);
  }

  /** Write a file by any path, open it in its directory and read it. One call delivers the buffer as far as
      half the clusters it needs can hold it, so all of it exactly when it fits in one cluster. Reading on
      delivers as many bytes as were written, past those clusters the last one again. Chunks make no
      difference exactly when the buffer fits in one cluster. */
  lemma WriteThenRead(v: Vol, g: Geometry, L: Ledger, cwd: nat, path: seq<byte>, bytes: seq<byte>, w: Vol)
    requires Fits(v, g) && Consistent(v, g, L) && cwd in L.depth && FilePath(v, g, cwd, path)
    requires |bytes| < 0x1_0000_0000 && WriteFile(v, g, cwd, path, bytes) == Done(w)
    ensures Fits(w, g) && !Navigate(v, g, cwd, path).NotFound?
    ensures var (nav, cs) := (Navigate(v, g, cwd, path), g.ClusterSize());
            && Open(w, g, nav.parent, nav.name).Some?
            && var h := Open(w, g, nav.parent, nav.name).value;
               && h.position == 0 && h.size == |bytes| && (IsValidCluster(h.current) ==> h.current < |w.data|)
               && Read(w, cs, h, |bytes|).0 == bytes[..Kept(|bytes|, cs)]
               && (Read(w, cs, h, |bytes|).0 == bytes <==> |bytes| <= cs)
               && Reading(w, cs, h, Echoed(bytes, cs))
               && ((forall counts :: ReadMany(w, cs, h, counts).0 == Read(w, cs, h, Sum(counts)).0) <==> |bytes| <= cs)
  {
    hide Consistent, LookUp, Name83, CanonicalEntry, ScanWrite, Target, Navigate, StoreFile, Accepted, Live, First, Size, SlotAt, Read, ReadMany, Reading, Echoed, WithoutChain, NameOf, IsDir, Canonical, Kept;
    NavigateIs(v, g, L, cwd, path);
    var d, name := Navigate(v, g, cwd, path).parent, Navigate(v, g, cwd, path).name;
    CanonicalStrip(name);
    WriteTarget(v, g, L, d, name);
    var packed := Name83(name).value;
    var k := Slot(d, ScanWrite(v.data[d], Slots(g), 0, packed, None).value);
    var M := WrittenEntry(v, g, L, k, packed, bytes, w);
    OpensAs(w, g, M, k, d, name);
    var s := EntryOf(w, g, k);
    KeptInFull(|bytes|, g.ClusterSize());
    if bytes != [] {
      ParentStaysUsed(v, g, L, k, packed);
      StoredReadsBack(v, g, d, k.index, packed, bytes, Handle(First(s), First(s), 0, |bytes|), w);
    } else {
      NothingRead(w, g, Handle(0, 0, 0, 0));
    }
  }

  lemma NothingRead(w: Vol, g: Geometry, h: Handle)
    requires Fits(w, g) && h == Handle(0, 0, 0, 0)
    ensures Read(w, g.ClusterSize(), h, 0).0 == [] && Reading(w, g.ClusterSize(), h, Echoed([], g.ClusterSize()))
    ensures forall counts :: ReadMany(w, g.ClusterSize(), h, counts).0 == Read(w, g.ClusterSize(), h, Sum(counts)).0
  {
    hide ReadLoop, Sum;
    assert Echoed([], g.ClusterSize()) == [];
    forall counts
      ensures ReadMany(w, g.ClusterSize(), h, counts).0 == Read(w, g.ClusterSize(), h, Sum(counts)).0
    {
    }
  }

  /** So a reader that reads on until nothing comes gets the buffer back in full exactly when past the clusters
      that were taken it repeats the last one. */
  lemma WriteThenReadAll(v: Vol, g: Geometry, L: Ledger, cwd: nat, path: seq<byte>, bytes: seq<byte>, w: Vol, chunk: nat)
    requires Fits(v, g) && Consistent(v, g, L) && cwd in L.depth && FilePath(v, g, cwd, path) && 0 < chunk
    requires |bytes| < 0x1_0000_0000 && WriteFile(v, g, cwd, path, bytes) == Done(w)
    ensures Fits(w, g) && !Navigate(v, g, cwd, path).NotFound?
    ensures var (nav, cs) := (Navigate(v, g, cwd, path), g.ClusterSize());
            && Open(w, g, nav.parent, nav.name).Some?
            && var h := Open(w, g, nav.parent, nav.name).value;
               && h.position <= h.size && (IsValidCluster(h.current) ==> h.current < |w.data|)
               && ReadAll(w, cs, h, chunk) == Echoed(bytes, cs)
               && (ReadAll(w, cs, h, chunk) == bytes
                   <==> forall p :: Kept(|bytes|, cs) <= p < |bytes| ==> bytes[p] == EchoAt(bytes, cs, p))
  {
    hide Consistent, Navigate, Open, Read, Reading, ReadAll, Echoed, Kept, EchoAt, WriteFile, FilePath;
    WriteThenRead(v, g, L, cwd, path, bytes, w);
    var nav := Navigate(v, g, cwd, path);
    var h := Open(w, g, nav.parent, nav.name).value;
    ReadAllDelivers(w, g.ClusterSize(), h, Echoed(bytes, g.ClusterSize()), chunk);
  }

  lemma CanonicalStrip(name: seq<byte>)
    requires Canonical(name)
    ensures StripSlash(name) == name && name != [] && name[0] != SLASH
  {
  }

  /** The path that was written opens the file exactly when it has no directory part, and then it opens that
      entry: the driver writes by path, but opens by name only. */
  lemma WriteThenOpen(v: Vol, g: Geometry, L: Ledger, cwd: nat, path: seq<byte>, bytes: seq<byte>, w: Vol)
    requires Fits(v, g) && Consistent(v, g, L) && cwd in L.depth && FilePath(v, g, cwd, path)
    requires |bytes| < 0x1_0000_0000 && WriteFile(v, g, cwd, path, bytes) == Done(w)
    ensures Fits(w, g) && !Navigate(v, g, cwd, path).NotFound?
    ensures Open(w, g, cwd, path).Some? <==> OneName(path)
    ensures OneName(path) ==> Open(w, g, cwd, path) == Open(w, g, Navigate(v, g, cwd, path).parent, Navigate(v, g, cwd, path).name)
  {
    hide Consistent, LookUp, Navigate, StoreFile, Read, Canonical, Open, WriteFile, OneName;
    WriteThenRead(v, g, L, cwd, path, bytes, w);
    DirInUse(v, g, L, cwd);
    RootIsTop(v, g, L);
    DirInUse(v, g, L, g.rootCluster);
    if OneName(path) {
      OpenOneName(v, g, w, cwd, path);
    } else {
      OpenNeedsOneName(w, g, cwd, path);
    }
  }
}
