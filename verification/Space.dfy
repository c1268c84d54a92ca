/** When a write keeps the volume consistent: a condition on the volume before the call. */
module Space {
  import opened Bytes
  import opened FatTable
  import opened Layout
  import opened Names
  import opened Directory
  import opened Files
  import opened Operations
  import opened Consistency
  import opened Runs

  // ---- counting free clusters ----

  ghost function FreeSet(fat: seq<nat>, from: nat): set<nat> {
    set c: nat | from <= c < |fat| && fat[c] == 0
  }

  lemma {:induction false} FreesCount(fat: seq<nat>, from: nat)
    requires from <= |fat|
    ensures |Frees(fat, from)| == |FreeSet(fat, from)|
    decreases |fat| - from
  {
    if from < |fat| {
      FreesCount(fat, from + 1);
      if fat[from] == 0 {
        assert FreeSet(fat, from) == FreeSet(fat, from + 1) + {from};
      } else {
        assert FreeSet(fat, from) == FreeSet(fat, from + 1);
      }
    } else {
      assert FreeSet(fat, from) == {};
    }
  }

  ghost function Elements(xs: seq<nat>): set<nat> {
    set c | c in xs
  }

  lemma {:induction false} DistinctCount(xs: seq<nat>)
    requires forall i, j :: 0 <= i < j < |xs| ==> xs[i] != xs[j]
    ensures |Elements(xs)| == |xs|
    decreases |xs|
  {
    if xs == [] {
      assert Elements(xs) == {};
    } else {
      DistinctCount(xs[1..]);
      assert xs[0] !in xs[1..];
      assert Elements(xs) == Elements(xs[1..]) + {xs[0]};
    }
  }

  /** Freeing a chain adds its clusters to the free ones. */
  lemma FreedCount(fat: seq<nat>, xs: seq<nat>)
    requires InRange(fat) && 2 <= |fat| && IsChain(fat, xs)
    ensures |Frees(FreeChain(fat, xs[0]), 2)| == |Frees(fat, 2)| + |xs|
  {
    hide InRange, Frees, FreeChain;
    var after, clusters := FreeChain(fat, xs[0]), Elements(xs);
    FreesCount(fat, 2);
    FreesCount(after, 2);
    DistinctCount(xs);
    forall c: nat | c < |fat|
      ensures after[c] == if c in xs then 0 else fat[c]
    {
      FreeChainOfChain(fat, xs, c);
    }
    forall c | c in xs
      ensures 2 <= c < |fat| && fat[c] != 0
    {
      ChainUsed(fat, xs, c);
    }
    assert FreeSet(fat, 2) !! clusters;
    assert FreeSet(after, 2) == FreeSet(fat, 2) + clusters;
  }

  // ---- a write that runs out of space ----

  ghost predicate HasLedger(v: Vol, g: Geometry) {
    exists L :: Consistent(v, g, L)
  }

  /** A cluster linked to itself is in no chain. */
  lemma SelfLinkUnowned(fat: seq<nat>, chains: map<Slot, seq<nat>>, owner: map<nat, Slot>, z: nat)
    requires 2 <= z < |fat| && fat[z] == z
    ensures !Owned(fat, chains, owner)
  {
    if Owned(fat, chains, owner) {
      OwnedIsUsed(fat, chains, owner, z);
      NoSelfLinkInChain(fat, chains[owner[z]], z);
      assert false;
    }
  }

  lemma NoSelfLinkInChain(fat: seq<nat>, xs: seq<nat>, z: nat)
    requires IsChain(fat, xs) && |fat| <= EOC && z in xs
    ensures fat[z] != z
  {
    var i :| 0 <= i < |xs| && xs[i] == z;
    if i < |xs| - 1 {
      assert fat[xs[i]] == xs[i + 1];
    }
  }

  /** The table a failed allocation leaves has a self-link, unless there was nothing to link. */
  lemma LeakedSelfLink(fat: seq<nat>, fs: seq<nat>)
    requires 2 <= |fat| && fs == Frees(fat, 2) && fs != []
    ensures Within(fs, 2, |fat|) && Leaked(fat, fs)[fs[|fs| - 1]] == fs[|fs| - 1]
  {
    FreesAre(fat, 2);
    LinkEntry(fat, fs, fs[|fs| - 1], |fs| - 1);
  }

  lemma StoreFailedIs(v: Vol, g: Geometry, d: nat, p: nat, name: seq<byte>, bytes: seq<byte>)
    requires Fits(v, g) && 2 <= d < |v.data| && p < Slots(g) && |name| == 11 && |bytes| < 0x1_0000_0000
    requires StoreFile(v, g, d, p, name, bytes).Failed?
    ensures var freed := WithoutChain(v, First(SlotAt(v.data[d], p)));
            && Within(Frees(freed.fat, 2), 2, |freed.fat|)
            && StoreFile(v, g, d, p, name, bytes).v == freed.(fat := Leaked(freed.fat, Frees(freed.fat, 2)))
  {
    hide WithoutChain, Frees, Leaked, Allocated, WriteLoop, PutSlot, MakeSlot, SlotAt, First;
    FreesAre(WithoutChain(v, First(SlotAt(v.data[d], p))).fat, 2);
  }

  lemma NoLedger(v: Vol, g: Geometry, z: nat)
    requires 2 <= z < |v.fat| && v.fat[z] == z
    ensures !HasLedger(v, g)
  {
    hide DirsOk, EntriesOk, KeysOk, Owned, Fits;
    forall L
      ensures !Consistent(v, g, L)
    {
      SelfLinkUnowned(v.fat, L.chains, L.owner, z);
    }
  }

  lemma ChainHead(v: Vol, g: Geometry, L: Ledger, k: Slot)
    requires Fits(v, g) && Consistent(v, g, L) && k in L.chains
    ensures L.chains[k] != [] && 2 <= L.chains[k][0] < |v.fat|
  {
    hide DirsOk, EntriesOk, KeysOk, OwnersOk, Covered, InRange;
    assert IsChain(v.fat, L.chains[k]);
  }

  // ---- the condition ----

  /** How many clusters a write to slot `k` can draw on: those free once the slot's old chain is. */
  ghost function Room(v: Vol, g: Geometry, k: Slot): nat
    requires Fits(v, g) && 2 <= k.dir < |v.data| && k.index < Slots(g)
  {
    |Frees(WithoutChain(v, First(EntryOf(v, g, k))).fat, 2)|
  }

  /** How many clusters the allocator takes for a buffer. */
  function Need(g: Geometry, bytes: seq<byte>): nat
    requires g.Ok()
  {
    (ClustersFor(|bytes|, g.ClusterSize()) + 1) / 2
  }

  /** There is room for the buffer, or there is nothing at all that a failing write could damage. */
  ghost predicate SlotFits(v: Vol, g: Geometry, k: Slot, bytes: seq<byte>)
    requires Fits(v, g) && 2 <= k.dir < |v.data| && k.index < Slots(g)
  {
    bytes == [] || Need(g, bytes) <= Room(v, g, k) || Room(v, g, k) == 0
  }

  ghost predicate WriteFits(v: Vol, g: Geometry, cwd: nat, path: seq<byte>, bytes: seq<byte>)
    requires Fits(v, g)
  {
    var k := WrittenSlot(v, g, cwd, path);
    k.Some? ==> SlotFits(v, g, k.value, bytes)
  }

  lemma HeadOfSlot(v: Vol, g: Geometry, L: Ledger, k: Slot)
    requires Fits(v, g) && Consistent(v, g, L) && InTree(g, L.depth, k) && 2 <= k.dir < |v.data| && k in L.chains && !IsDot(g, k)
    ensures L.chains[k] != [] && L.chains[k][0] == First(EntryOf(v, g, k))
  {
    hide Owned, DirsOk, KeysOk, CanonicalEntry, NameOf, First, IsDir;
    assert EntryOk(EntryOf(v, g, k), g, L, k);
  }

  lemma DeadOrEmpty(v: Vol, g: Geometry, L: Ledger, k: Slot)
    requires Fits(v, g) && Consistent(v, g, L) && InTree(g, L.depth, k) && 2 <= k.dir < |v.data| && k !in L.chains && !IsDot(g, k)
    ensures First(EntryOf(v, g, k)) == 0
  {
    hide Owned, KeysOk, CanonicalEntry, NameOf, IsDir;
    var s := EntryOf(v, g, k);
    assert EntryOk(s, g, L, k) && DirOk(v, g, L, k.dir);
    assert TidySlot(s);
  }

  lemma OwnsChain(v: Vol, g: Geometry, L: Ledger, k: Slot)
    requires Fits(v, g) && Consistent(v, g, L) && k in L.chains
    ensures InRange(v.fat) && IsChain(v.fat, L.chains[k]) && 2 <= L.chains[k][0] < |v.fat| && IsValidCluster(L.chains[k][0])
  {
    hide DirsOk, EntriesOk, KeysOk, OwnersOk, Covered;
  }

  /** In a consistent volume the room is the free clusters and the slot's own chain. */
  lemma RoomIs(v: Vol, g: Geometry, L: Ledger, k: Slot)
    requires Fits(v, g) && Consistent(v, g, L) && InTree(g, L.depth, k) && !IsDot(g, k) && 2 <= k.dir < |v.data|
    ensures Room(v, g, k) == |Frees(v.fat, 2)| + (if k in L.chains then |L.chains[k]| else 0)
    ensures Room(v, g, k) == 0 <==> Frees(v.fat, 2) == [] && First(EntryOf(v, g, k)) == 0
  {
    hide Consistent, CanonicalEntry, Frees, First, EntryOf, FreeChain, IsChain, InRange, NamedBy, IsDir, NameOf;
    if k in L.chains {
      HeadOfSlot(v, g, L, k);
      OwnsChain(v, g, L, k);
      FreedCount(v.fat, L.chains[k]);
    } else {
      DeadOrEmpty(v, g, L, k);
    }
  }

  /** A write to a slot succeeds exactly when there is room for it... */
  lemma StoreSucceeds(v: Vol, g: Geometry, k: Slot, name: seq<byte>, bytes: seq<byte>)
    requires Fits(v, g) && 2 <= k.dir < |v.data| && k.index < Slots(g) && |name| == 11 && |bytes| < 0x1_0000_0000
    ensures StoreFile(v, g, k.dir, k.index, name, bytes).Done? <==> bytes == [] || Need(g, bytes) <= Room(v, g, k)
  {
    hide WithoutChain, Frees, Leaked, Allocated, WriteLoop, PutSlot, MakeSlot, SlotAt, First;
  }

  /** ... and leaves a consistent volume exactly when there is room, or nothing at all to take. */
  lemma StoreLedger(v: Vol, g: Geometry, L: Ledger, k: Slot, name: seq<byte>, bytes: seq<byte>)
    requires Fits(v, g) && Target(v, g, L, k, name) && |name| == 11 && |bytes| < 0x1_0000_0000
    ensures HasLedger(StoreFile(v, g, k.dir, k.index, name, bytes).v, g) <==> SlotFits(v, g, k, bytes)
    ensures SlotFits(v, g, k, bytes) && StoreFile(v, g, k.dir, k.index, name, bytes).Failed? ==>
              StoreFile(v, g, k.dir, k.index, name, bytes).v == v
  {
    hide Consistent, StoreFile, CanonicalEntry, Picked, Live, IsDir, Frees, Leaked, First, WithoutChain;
    StoreSucceeds(v, g, k, name, bytes);
    var o := StoreFile(v, g, k.dir, k.index, name, bytes);
    if o.Failed? {
      StoreFailed(v, g, L, k, name, bytes);
    } else if bytes == [] {
      StoreEmptyKeeps(v, g, L, k, name);
    } else {
      var M := StoreDataKeeps(v, g, L, k, name, bytes);
    }
  }

  lemma StoreFailed(v: Vol, g: Geometry, L: Ledger, k: Slot, name: seq<byte>, bytes: seq<byte>)
    requires Fits(v, g) && Target(v, g, L, k, name) && |name| == 11 && |bytes| < 0x1_0000_0000
    requires StoreFile(v, g, k.dir, k.index, name, bytes).Failed?
    ensures HasLedger(StoreFile(v, g, k.dir, k.index, name, bytes).v, g) <==> Room(v, g, k) == 0
    ensures Room(v, g, k) == 0 ==> StoreFile(v, g, k.dir, k.index, name, bytes).v == v
  {
    hide Consistent, StoreFile, CanonicalEntry, Picked, Live, IsDir, Frees, Leaked, First;
    var freed := WithoutChain(v, First(EntryOf(v, g, k)));
    var fs := Frees(freed.fat, 2);
    StoreFailedIs(v, g, k.dir, k.index, name, bytes);
    if fs != [] {
      LeakedSelfLink(freed.fat, fs);
      NoLedger(StoreFile(v, g, k.dir, k.index, name, bytes).v, g, fs[|fs| - 1]);
    } else {
      RoomIs(v, g, L, k);
      FindFirst(freed.fat, fs);
      assert Consistent(v, g, L);
    }
  }

  /** A write by path: when it succeeds, when it leaves a consistent volume, and that it otherwise changes
      nothing; in terms of the volume before it. */
  lemma WriteLedger(v: Vol, g: Geometry, L: Ledger, cwd: nat, path: seq<byte>, bytes: seq<byte>)
    requires Fits(v, g) && Consistent(v, g, L) && cwd in L.depth && |bytes| < 0x1_0000_0000 && FilePath(v, g, cwd, path)
    ensures var (o, k) := (WriteFile(v, g, cwd, path, bytes), WrittenSlot(v, g, cwd, path));
            && (o.Done? <==> k.Some? && (bytes == [] || Need(g, bytes) <= Room(v, g, k.value)))
            && (HasLedger(o.v, g) <==> WriteFits(v, g, cwd, path, bytes))
            && (o.Failed? && WriteFits(v, g, cwd, path, bytes) ==> o.v == v)
  {
    hide Consistent, LookUp, Name83, CanonicalEntry, ScanWrite, Target, Navigate, StoreFile, Accepted, SlotFits, Room;
    NavigateIs(v, g, L, cwd, path);
    assert HasLedger(v, g);
    var nav := Navigate(v, g, cwd, path);
    if WrittenSlot(v, g, cwd, path).Some? {
      var k := WrittenSlot(v, g, cwd, path).value;
      WriteTarget(v, g, L, nav.parent, nav.name);
      StoreSucceeds(v, g, k, Name83(nav.name).value, bytes);
      StoreLedger(v, g, L, k, Name83(nav.name).value, bytes);
    }
  }

  /** So a write keeps the volume consistent exactly when the free clusters and the file's own old chain
      are enough for it, or there is neither a free cluster nor an old chain. */
  lemma OutOfSpace(v: Vol, g: Geometry, L: Ledger, cwd: nat, path: seq<byte>, bytes: seq<byte>)
    requires Fits(v, g) && Consistent(v, g, L) && cwd in L.depth && |bytes| < 0x1_0000_0000 && FilePath(v, g, cwd, path)
    requires WrittenSlot(v, g, cwd, path).Some?
    ensures var k := WrittenSlot(v, g, cwd, path).value;
            HasLedger(WriteFile(v, g, cwd, path, bytes).v, g)
            <==> || bytes == []
                 || |Frees(v.fat, 2)| + (if k in L.chains then |L.chains[k]| else 0)
                    >= (ClustersFor(|bytes|, g.ClusterSize()) + 1) / 2
                 || (|Frees(v.fat, 2)| == 0 && k !in L.chains)
  {
    hide Consistent, LookUp, Name83, CanonicalEntry, ScanWrite, Navigate, StoreFile, Accepted, Room, Frees, WriteFile;
    WriteLedger(v, g, L, cwd, path, bytes);
    NavigateIs(v, g, L, cwd, path);
    var nav := Navigate(v, g, cwd, path);
    WriteTarget(v, g, L, nav.parent, nav.name);
    var k := WrittenSlot(v, g, cwd, path).value;
    RoomIs(v, g, L, k);
    if k in L.chains {
      ChainHead(v, g, L, k);
    }
  }

  lemma DirInUse(v: Vol, g: Geometry, L: Ledger, d: nat)
    requires Fits(v, g) && Consistent(v, g, L) && d in L.depth
    ensures 2 <= d < |v.fat| && v.fat[d] != 0
  {
    hide Owned, EntriesOk, DirsOk, KeysOk;
    DirOwned(v, g, L, d);
    OwnedIsUsed(v.fat, L.chains, L.owner, d);
  }

  /** A mkdir of a missing name succeeds exactly when a cluster is free, the name is accepted and the parent
      has a free slot. */
  lemma MkdirSucceeds(v: Vol, g: Geometry, d: nat, name: seq<byte>)
    requires Fits(v, g) && 2 <= d < |v.data| && v.fat[d] != 0
    ensures MakeDirIn(v, g, d, name).Done? <==> CanMake(v, g, d, name)
  {
    hide Frees, ScanFree, PutSlot, MakeSlot, DirBlock, Name83, Allocated, FreeChain;
    FreesAre(v.fat, 2);
    if Frees(v.fat, 2) != [] {
      assert Frees(v.fat, 2)[0] in Frees(v.fat, 2);
    }
  }

  ghost predicate CanMake(v: Vol, g: Geometry, d: nat, name: seq<byte>)
    requires Fits(v, g) && 2 <= d < |v.data|
  {
    Frees(v.fat, 2) != [] && Name83(name).Some? && ScanFree(v.data[d], Slots(g), 0).Some?
  }
}
