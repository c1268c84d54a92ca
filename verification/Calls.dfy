/** When the driver's calls succeed, in terms of directory slots and table entries alone, and what they leave. */
module Calls {
  import opened Bytes
  import opened FatTable
  import opened Layout
  import opened Names
  import opened Spelling
  import opened Directory
  import opened Files
  import opened Operations
  import opened Consistency
  import opened Runs
  import opened Space
  import opened WorkDir

  /** Slot `i` of directory `d` is live and carries these 11 bytes. */
  ghost predicate Carries(v: Vol, g: Geometry, d: nat, i: int, packed: seq<byte>) {
    && Fits(v, g) && 2 <= d < |v.data| && 0 <= i < Slots(g)
    && SlotAt(v.data[d], i)[0] != 0 && SlotAt(v.data[d], i)[0] != 0xE5 && SlotAt(v.data[d], i)[..11] == packed
  }

  /** Slot `i` of directory `d` was never used or is deleted. */
  ghost predicate IsFree(v: Vol, g: Geometry, d: nat, i: int) {
    && Fits(v, g) && 2 <= d < |v.data| && 0 <= i < Slots(g)
    && (SlotAt(v.data[d], i)[0] == 0 || SlotAt(v.data[d], i)[0] == 0xE5)
  }

  ghost predicate FreeCluster(v: Vol, c: int) {
    2 <= c < |v.fat| && v.fat[c] == 0
  }

  lemma FreesExist(v: Vol)
    requires 2 <= |v.fat|
    ensures Frees(v.fat, 2) != [] <==> exists c :: FreeCluster(v, c)
  {
    hide Frees;
    FreesAre(v.fat, 2);
    if Frees(v.fat, 2) != [] {
      assert Frees(v.fat, 2)[0] in Frees(v.fat, 2);
      assert FreeCluster(v, Frees(v.fat, 2)[0]);
    }
    if c :| FreeCluster(v, c) {
      assert c in Frees(v.fat, 2);
    }
  }

  lemma FreeSlotExists(v: Vol, g: Geometry, d: nat)
    requires Fits(v, g) && 2 <= d < |v.data|
    ensures ScanFree(v.data[d], Slots(g), 0).Some? <==> exists i :: IsFree(v, g, d, i)
  {
    hide ScanFree, SlotAt;
    ScanFreePicks(v.data[d], Slots(g), 0);
    if ScanFree(v.data[d], Slots(g), 0).Some? {
      assert IsFree(v, g, d, ScanFree(v.data[d], Slots(g), 0).value);
    }
  }

  // ---- walks that are not disturbed ----

  /** The dot entries of a directory, as a lookup finds them. */
  lemma DotIs(v: Vol, g: Geometry, L: Ledger, d: nat, name: seq<byte>)
    requires Fits(v, g) && Consistent(v, g, L) && d in L.depth && (name == [DOT] || name == [DOT, DOT])
    ensures 2 <= d < |v.data|
    ensures LookUp(v, g, d, Text(name))
            == if d == g.rootCluster then None else Some(EntryOf(v, g, Slot(d, if name == [DOT] then 0 else 1)))
  {
    hide Consistent, Scan, First, IsDir, CanonicalEntry, Matches, NamedBy, TidySlot, Tidy, Live, NameOf, EntryOk;
    TidyDir(v, g, L, d);
    if d == g.rootCluster {
      DotLookUps(v, g, L, d, name);
    } else {
      var k := Slot(d, if name == [DOT] then 0 else 1);
      EntryIs(v, g, L, k);
      DotNamed(v, g, L, k);
      DotMatches(name);
      forall i | 0 <= i < Slots(g) && i != k.index && Live(SlotAt(v.data[d], i))
        ensures !Hit(Text(name), SlotAt(v.data[d], i))
      {
        OtherThanDot(v, g, L, Slot(d, i), name, k.index);
      }
      ScanHits(v.data[d], Slots(g), 0, Text(name), k.index);
    }
  }

  lemma OtherThanDot(v: Vol, g: Geometry, L: Ledger, k: Slot, name: seq<byte>, j: nat)
    requires Fits(v, g) && Consistent(v, g, L) && InTree(g, L.depth, k) && k.dir != g.rootCluster && 2 <= k.dir < |v.data|
    requires (name == [DOT] && j == 0) || (name == [DOT, DOT] && j == 1)
    requires k.index != j && Live(EntryOf(v, g, k))
    ensures !Hit(Text(name), EntryOf(v, g, k))
  {
    hide Consistent, First, IsDir, CanonicalEntry, Matches, NamedBy, TidySlot, NameOf;
    EntryIs(v, g, L, k);
    DotMatches(name);
    if IsDot(g, k) {
      DotNamed(v, g, L, k);
    } else {
      CanonicalEntryFirst(NameOf(EntryOf(v, g, k)));
    }
  }

  /** A directory found by any text is found again while directory entries are kept. */
  lemma StillFound(v: Vol, g: Geometry, L: Ledger, w: Vol, M: Ledger, d: nat, name: seq<byte>)
    requires Fits(v, g) && Fits(w, g) && Consistent(v, g, L) && Consistent(w, g, M) && DirEntriesKept(v, g, L.depth, w)
    requires forall e :: e in L.depth ==> e in M.depth
    requires d in L.depth && LookUp(v, g, d, Text(name)).Some? && IsDir(LookUp(v, g, d, Text(name)).value)
    ensures LookUp(w, g, d, Text(name)) == LookUp(v, g, d, Text(name))
  {
    hide Consistent, LookUp, Canonical, IsDir, EntryOf, Live;
    FoundName(v, g, L, d, name);
    if Canonical(name) {
      LookUpKept(v, g, L, w, M, d, name);
    } else {
      DotIs(v, g, L, d, name);
      DotIs(w, g, M, d, name);
      var k := Slot(d, if name == [DOT] then 0 else 1);
      DotNamed(v, g, L, k);
    }
  }

  lemma {:induction false} WalkKept(v: Vol, g: Geometry, L: Ledger, w: Vol, M: Ledger, d: nat, path: seq<byte>, i: nat, comp: seq<byte>)
    requires Fits(v, g) && Fits(w, g) && Consistent(v, g, L) && Consistent(w, g, M) && DirEntriesKept(v, g, L.depth, w)
    requires (forall e :: e in L.depth ==> e in M.depth) && d in L.depth && i <= |path| && !Walk(v, g, d, path, i, comp).NotFound?
    ensures var r := Walk(v, g, d, path, i, comp);
            Walk(w, g, d, path, i, comp)
            == if r.name == [] || LookUp(w, g, r.parent, Text(r.name)).None? then Missing(r.parent, r.name)
               else Found(r.parent, r.name, LookUp(w, g, r.parent, Text(r.name)).value)
    decreases |path| - i
  {
    hide Consistent, LookUp, Walk, First, IsDir, DirEntriesKept, DescentsStay;
    WalkStep(v, g, d, path, i, comp);
    WalkStep(w, g, d, path, i, comp);
    if i < |path| {
      if path[i] != SLASH {
        WalkKept(v, g, L, w, M, d, path, i + 1, if |comp| < 255 then comp + [path[i]] else comp);
      } else if comp == [] {
        WalkKept(v, g, L, w, M, d, path, i + 1, []);
      } else {
        DirsAreClosed(v, g, L);
        DescentIn(v, g, L.depth.Keys, d, Text(comp));
        StillFound(v, g, L, w, M, d, comp);
        WalkKept(v, g, L, w, M, First(LookUp(v, g, d, Text(comp)).value), path, i + 1, []);
      }
    }
  }

  /** A walk that ends somewhere ends there again, with what its last name is then. */
  lemma NavigateKept(v: Vol, g: Geometry, L: Ledger, w: Vol, M: Ledger, cwd: nat, path: seq<byte>)
    requires Fits(v, g) && Fits(w, g) && Consistent(v, g, L) && Consistent(w, g, M) && DirEntriesKept(v, g, L.depth, w)
    requires (forall e :: e in L.depth ==> e in M.depth) && cwd in L.depth && !Navigate(v, g, cwd, path).NotFound?
    ensures var r := Navigate(v, g, cwd, path);
            Navigate(w, g, cwd, path)
            == if r.name == [] || LookUp(w, g, r.parent, Text(r.name)).None? then Missing(r.parent, r.name)
               else Found(r.parent, r.name, LookUp(w, g, r.parent, Text(r.name)).value)
  {
    hide Consistent, LookUp, Walk, DirEntriesKept;
    RootIsTop(v, g, L);
    if path != [] && path[0] == SLASH {
      WalkKept(v, g, L, w, M, g.rootCluster, path, 1, []);
    } else {
      WalkKept(v, g, L, w, M, cwd, path, 0, []);
    }
  }

  // ---- mkdir ----

  /** A mkdir succeeds exactly if its path leads to a missing name, a cluster is free, and the parent has a free
      slot... */
  lemma MkdirLaw(v: Vol, g: Geometry, L: Ledger, cwd: nat, path: seq<byte>)
    requires Fits(v, g) && Consistent(v, g, L) && cwd in L.depth
    requires !Navigate(v, g, cwd, path).NotFound? && Canonical(Navigate(v, g, cwd, path).name)
    ensures var nav := Navigate(v, g, cwd, path);
            MakeDir(v, g, cwd, path).Done?
            <==> nav.Missing? && (exists c :: FreeCluster(v, c)) && exists i :: IsFree(v, g, nav.parent, i)
  {
    hide Consistent, LookUp, Navigate, Canonical, MakeDirIn, Name83, ScanFree, Frees, FreeCluster, IsFree, Accepted;
    var nav := Navigate(v, g, cwd, path);
    NavigateIs(v, g, L, cwd, path);
    CanonicalPacks(nav.name);
    DirInUse(v, g, L, nav.parent);
    MkdirSucceeds(v, g, nav.parent, nav.name);
    FreesExist(v);
    FreeSlotExists(v, g, nav.parent);
  }

  /** ... and then the same path leads to a new directory in the lowest cluster that was free. */
  lemma MkdirMakes(v: Vol, g: Geometry, L: Ledger, cwd: nat, path: seq<byte>) returns (M: Ledger, c: nat)
    requires Fits(v, g) && Consistent(v, g, L) && cwd in L.depth
    requires !Navigate(v, g, cwd, path).NotFound? && Canonical(Navigate(v, g, cwd, path).name)
    requires MakeDir(v, g, cwd, path).Done?
    ensures var (w, nav) := (MakeDir(v, g, cwd, path).v, Navigate(v, g, cwd, path));
            && Consistent(w, g, M) && c in M.depth && c !in L.depth
            && FreeCluster(v, c) && (forall e :: 2 <= e < c ==> v.fat[e] != 0) && w.fat[c] >= EOC
            && var after := Navigate(w, g, cwd, path);
               && after.Found? && after.parent == nav.parent && after.name == nav.name
               && IsDir(after.slot) && First(after.slot) == c
  {
    hide Consistent, LookUp, Navigate, Canonical, MakeDirIn, Name83, ScanFree, Frees, DirEntriesKept, First, IsDir, Accepted;
    var nav := Navigate(v, g, cwd, path);
    NavigateIs(v, g, L, cwd, path);
    CanonicalNotEmpty(nav.name);
    M := MkdirFinds(v, g, L, nav.parent, nav.name);
    c := Frees(v.fat, 2)[0];
    LowestFree(v.fat);
    FreshIsNew(v, g, L, c);
    NavigateKept(v, g, L, MakeDir(v, g, cwd, path).v, M, cwd, path);
    DirInUse(v, g, L, nav.parent);
    NewDirEnds(v, g, nav.parent, nav.name);
  }

  lemma LowestFree(fat: seq<nat>)
    requires 2 <= |fat| && Frees(fat, 2) != []
    ensures 2 <= Frees(fat, 2)[0] < |fat| && fat[Frees(fat, 2)[0]] == 0
    ensures forall e :: 2 <= e < Frees(fat, 2)[0] ==> fat[e] != 0
  {
    hide Frees;
    FreesAre(fat, 2);
    FirstOfFrees(fat, 2);
    var fs := Frees(fat, 2);
    assert forall i :: 0 <= i < |fs| ==> fs[0] <= fs[i];
    forall e | 2 <= e < fs[0]
      ensures fat[e] != 0
    {
      assert e !in fs;
    }
  }

  lemma NewDirEnds(v: Vol, g: Geometry, d: nat, name: seq<byte>)
    requires Fits(v, g) && 2 <= d < |v.data| && v.fat[d] != 0 && MakeDirIn(v, g, d, name).Done?
    ensures Frees(v.fat, 2) != [] && Frees(v.fat, 2)[0] < |v.fat| && MakeDirIn(v, g, d, name).v.fat[Frees(v.fat, 2)[0]] == END_MARK
  {
    hide Frees, ScanFree, PutSlot, MakeSlot, DirBlock, Name83, Link;
    MkdirHasRoom(v, g, d, name);
    LowestFree(v.fat);
    var c := Frees(v.fat, 2)[0];
    MakeDirIs(v, g, d, name, c);
    LinkEntry(v.fat, [c], END_MARK, 0);
  }

  // ---- lookups by packed name ----

  /** In a consistent directory a packed lookup finds the live slot that carries the name, if there is one. */
  lemma PackedFinds(v: Vol, g: Geometry, L: Ledger, d: nat, packed: seq<byte>)
    requires Fits(v, g) && Consistent(v, g, L) && d in L.depth && |packed| == 11
    ensures 2 <= d < |v.data|
    ensures var r := Scan(v.data[d], Slots(g), 0, Packed(packed));
            && (r.Some? <==> exists i :: Carries(v, g, d, i, packed))
            && (r.Some? ==> Carries(v, g, d, r.value, packed))
            && forall i :: Carries(v, g, d, i, packed) ==> r == Some(i)
  {
    hide Consistent, Scan, SlotAt, TidySlot;
    TidyDir(v, g, L, d);
    var r := Scan(v.data[d], Slots(g), 0, Packed(packed));
    if r.Some? {
      assert Carries(v, g, d, r.value, packed);
    }
    forall i | Carries(v, g, d, i, packed)
      ensures r == Some(i)
    {
      OneCarries(v.data[d], Slots(g), i, packed);
    }
  }

  lemma OneCarries(buf: seq<byte>, n: nat, i: nat, packed: seq<byte>)
    requires Tidy(buf, n) && i < n && Live(SlotAt(buf, i)) && NameOf(SlotAt(buf, i)) == packed
    ensures Scan(buf, n, 0, Packed(packed)) == Some(i)
  {
    hide SlotAt, TidySlot, NameOf, Live, Scan;
    ScanHits(buf, n, 0, Packed(packed), i);
  }

  // ---- open ----

  /** An open succeeds exactly if its path is an accepted name that some live slot of the directory it is looked
      up in carries, and that slot is no directory; the handle starts at that slot's cluster and size. */
  lemma OpenLaw(v: Vol, g: Geometry, L: Ledger, cwd: nat, path: seq<byte>)
    requires Fits(v, g) && Consistent(v, g, L) && cwd in L.depth
    ensures var (d, name) := (if path != [] && path[0] == SLASH then g.rootCluster else cwd, Name83(StripSlash(path)));
            && (Open(v, g, cwd, path).Some?
                <==> name.Some? && exists i :: Carries(v, g, d, i, name.value) && !IsDir(EntryOf(v, g, Slot(d, i))))
            && forall i :: name.Some? && Carries(v, g, d, i, name.value) && !IsDir(EntryOf(v, g, Slot(d, i))) ==>
                 Open(v, g, cwd, path) == Some(Handle(First(EntryOf(v, g, Slot(d, i))), First(EntryOf(v, g, Slot(d, i))), 0,
                                                      Size(EntryOf(v, g, Slot(d, i)))))
  {
    hide Consistent, Scan, SlotAt, Name83, First, Size, IsDir, Carries;
    RootIsTop(v, g, L);
    var d, name := if path != [] && path[0] == SLASH then g.rootCluster else cwd, Name83(StripSlash(path));
    DirInUse(v, g, L, d);
    DirInUse(v, g, L, cwd);
    if name.Some? {
      PackedFinds(v, g, L, d, name.value);
      CarriesSlots(v, g, d, name.value);
      var r := Scan(v.data[d], Slots(g), 0, Packed(name.value));
      if r.Some? {
        assert EntryOf(v, g, Slot(d, r.value)) == SlotAt(v.data[d], r.value);
        if Open(v, g, cwd, path).Some? {
          assert Carries(v, g, d, r.value, name.value) && !IsDir(EntryOf(v, g, Slot(d, r.value)));
        }
      }
    }
  }

  lemma CarriesSlots(v: Vol, g: Geometry, d: nat, packed: seq<byte>)
    ensures forall i :: Carries(v, g, d, i, packed) ==> 0 <= i < Slots(g) && 2 <= d < |v.data| && Fits(v, g)
  {
  }

  // ---- delete ----

  /** A delete succeeds exactly if its path is an accepted name that some live slot of the root carries. */
  lemma DeleteLaw(v: Vol, g: Geometry, L: Ledger, path: seq<byte>)
    requires Fits(v, g) && Consistent(v, g, L)
    ensures DeleteFile(v, g, path).Done?
            <==> Name83(StripSlash(path)).Some? && exists i :: Carries(v, g, g.rootCluster, i, Name83(StripSlash(path)).value)
    ensures DeleteFile(v, g, path).Failed? ==> DeleteFile(v, g, path).v == v
  {
    hide Consistent, Scan, SlotAt, Name83, Carries, WithoutChain, Erased, PutSlot, First;
    RootIsTop(v, g, L);
    var name := Name83(StripSlash(path));
    if name.Some? {
      PackedFinds(v, g, L, g.rootCluster, name.value);
    }
  }

  /** It then marks that slot deleted and frees its chain: the free clusters are those that were, and the chain's. */
  lemma DeleteFrees(v: Vol, g: Geometry, L: Ledger, path: seq<byte>, i: nat)
    requires Fits(v, g) && Consistent(v, g, L) && Name83(StripSlash(path)).Some?
    requires Carries(v, g, g.rootCluster, i, Name83(StripSlash(path)).value)
    ensures DeleteFile(v, g, path).Done?
    ensures var (w, k) := (DeleteFile(v, g, path).v, Slot(g.rootCluster, i));
            && Fits(w, g) && SlotAt(w.data[g.rootCluster], i)[0] == 0xE5
            && forall c :: 2 <= c < |v.fat| ==>
                 w.fat[c] == if k in L.chains && c in L.chains[k] then 0 else v.fat[c]
    ensures forall d :: 2 <= d < |v.data| && d != g.rootCluster ==> DeleteFile(v, g, path).v.data[d] == v.data[d]
  {
    hide Consistent, Scan, Name83, WithoutChain, Erased, PutSlot, First, CanonicalEntry, SlotAt;
    RootIsTop(v, g, L);
    var packed, k := Name83(StripSlash(path)).value, Slot(g.rootCluster, i);
    PackedFinds(v, g, L, g.rootCluster, packed);
    SlotAfterPut(v.data[g.rootCluster], i, Erased(SlotAt(v.data[g.rootCluster], i)), i);
    forall c | 2 <= c < |v.fat|
      ensures WithoutChain(v, First(EntryOf(v, g, k))).fat[c] == if k in L.chains && c in L.chains[k] then 0 else v.fat[c]
    {
      ChainFreed(v, g, L, k, c);
    }
  }

  /** Freeing what a slot names clears its chain and nothing else. */
  lemma ChainFreed(v: Vol, g: Geometry, L: Ledger, k: Slot, c: nat)
    requires Fits(v, g) && Consistent(v, g, L) && InTree(g, L.depth, k) && !IsDot(g, k) && 2 <= k.dir < |v.data| && 2 <= c < |v.fat|
    ensures WithoutChain(v, First(EntryOf(v, g, k))).fat[c] == if k in L.chains && c in L.chains[k] then 0 else v.fat[c]
  {
    hide Consistent, First, EntryOf, FreeChain, IsChain, InRange;
    if k in L.chains {
      HeadOfSlot(v, g, L, k);
      OwnsChain(v, g, L, k);
      FreeChainOfChain(v.fat, L.chains[k], c);
    } else {
      DeadOrEmpty(v, g, L, k);
    }
  }

  // ---- write ----

  /** A write succeeds exactly if its path leads to a directory with a live slot of that name or a free slot, and
      it has no data or the clusters that are free or its own are at least half of those it needs. */
  lemma WriteLaw(v: Vol, g: Geometry, L: Ledger, cwd: nat, path: seq<byte>, bytes: seq<byte>)
    requires Fits(v, g) && Consistent(v, g, L) && cwd in L.depth && |bytes| < 0x1_0000_0000 && FilePath(v, g, cwd, path)
    ensures var nav := Navigate(v, g, cwd, path);
            !nav.NotFound? ==>
              && Name83(nav.name).Some? && 2 <= nav.parent < |v.data|
              && (WrittenSlot(v, g, cwd, path).Some?
                  <==> exists i :: Carries(v, g, nav.parent, i, Name83(nav.name).value) || IsFree(v, g, nav.parent, i))
              && (forall i :: Carries(v, g, nav.parent, i, Name83(nav.name).value) ==>
                    WrittenSlot(v, g, cwd, path) == Some(Slot(nav.parent, i)))
    ensures var (o, k) := (WriteFile(v, g, cwd, path, bytes), WrittenSlot(v, g, cwd, path));
            o.Done? <==> k.Some? && (bytes == []
                                     || (ClustersFor(|bytes|, g.ClusterSize()) + 1) / 2
                                        <= |Frees(v.fat, 2)| + (if k.value in L.chains then |L.chains[k.value]| else 0))
  {
    hide Consistent, LookUp, Name83, CanonicalEntry, ScanWrite, Navigate, WriteFile, Accepted, Room, Frees, Carries, IsFree, ClustersFor, Picked, Live, IsDir;
    WriteLedger(v, g, L, cwd, path, bytes);
    NavigateIs(v, g, L, cwd, path);
    var nav := Navigate(v, g, cwd, path);
    if !nav.NotFound? {
      WriteTarget(v, g, L, nav.parent, nav.name);
      CanonicalPacks(nav.name);
      PickedSlot(v, g, L, nav.parent, Name83(nav.name).value);
      if WrittenSlot(v, g, cwd, path).Some? {
        RoomIs(v, g, L, WrittenSlot(v, g, cwd, path).value);
      }
    }
  }

  lemma PickedSlot(v: Vol, g: Geometry, L: Ledger, d: nat, packed: seq<byte>)
    requires Fits(v, g) && Consistent(v, g, L) && d in L.depth && CanonicalEntry(packed) && |packed| == 11
    ensures 2 <= d < |v.data|
    ensures var r := ScanWrite(v.data[d], Slots(g), 0, packed, None);
            && (r.Some? <==> exists i :: Carries(v, g, d, i, packed) || IsFree(v, g, d, i))
            && forall i :: Carries(v, g, d, i, packed) ==> r == Some(i)
  {
    hide Consistent, ScanWrite, SlotAt, CanonicalEntry, TidySlot;
    TidyDir(v, g, L, d);
    CanonicalEntryFirst(packed);
    ScanWritePicks(v.data[d], Slots(g), 0, packed, None);
    var r := ScanWrite(v.data[d], Slots(g), 0, packed, None);
    if r.Some? {
      assert Carries(v, g, d, r.value, packed) || IsFree(v, g, d, r.value);
    }
    forall i | Carries(v, g, d, i, packed)
      ensures r == Some(i)
    {
      PickedCarries(v.data[d], Slots(g), packed, i, r);
    }
  }

  lemma PickedCarries(buf: seq<byte>, n: nat, packed: seq<byte>, i: nat, r: Option<nat>)
    requires Tidy(buf, n) && Picked(buf, n, packed, r) && i < n && Live(SlotAt(buf, i)) && NameOf(SlotAt(buf, i)) == packed
    ensures r == Some(i)
  {
    hide SlotAt, TidySlot, NameOf, Live;
  }

  // ---- chdir ----

  /** A chdir succeeds exactly if its path leads to a directory, and that is where it goes. */
  lemma ChdirLaw(v: Vol, g: Geometry, cwd: Cwd, path: seq<byte>)
    requires Fits(v, g) && 0 < |cwd.path|
    ensures var (nav, r) := (Navigate(v, g, cwd.cluster, path), ChangeDir(v, g, cwd, path));
            && (r.Some? <==> nav.Found? && nav.slot[11] / 16 % 2 == 1)
            && (r.Some? ==> r.value.cluster == First(nav.slot))
  {
    hide LookUp, Walk, First, ParentPath, ChildPath;
    if path == [] {
      assert Navigate(v, g, cwd.cluster, path) == Walk(v, g, cwd.cluster, path, 0, []);
      WalkStep(v, g, cwd.cluster, path, 0, []);
    }
  }

  // ---- case ----

  lemma HitIgnoresCase(s: seq<byte>, a: seq<byte>, b: seq<byte>)
    requires |s| == SLOT && SameLetters(a, b)
    ensures Hit(Text(a), s) <==> Hit(Text(b), s)
  {
    hide SameLetters, Matches;
    CaseBlind(a, b);
  }

  lemma {:induction false} ScanCaseBlind(buf: seq<byte>, n: nat, i: nat, a: seq<byte>, b: seq<byte>)
    requires SLOT * n <= |buf| && i <= n && SameLetters(a, b)
    ensures Scan(buf, n, i, Text(a)) == Scan(buf, n, i, Text(b))
    decreases n - i
  {
    hide SlotAt, Hit, SameLetters, Skipped;
    if i < n {
      HitIgnoresCase(SlotAt(buf, i), a, b);
      ScanCaseBlind(buf, n, i + 1, a, b);
    }
  }

  /** Names that differ in case only are looked up alike... */
  lemma LookUpIgnoresCase(v: Vol, g: Geometry, d: nat, a: seq<byte>, b: seq<byte>)
    requires Fits(v, g) && SameLetters(a, b)
    ensures LookUp(v, g, d, Text(a)) == LookUp(v, g, d, Text(b))
  {
    hide Scan, SameLetters, SlotAt;
    if 2 <= d < |v.data| {
      ScanCaseBlind(v.data[d], Slots(g), 0, a, b);
    }
  }

  lemma StripKeepsCase(a: seq<byte>, b: seq<byte>)
    requires SameLetters(a, b) && a != [] && a[0] != 0x2F
    ensures StripSlash(a) == a && StripSlash(b) == b && b != [] && b[0] != 0x2F
    ensures StripSlash([0x2F] + a) == a && StripSlash([0x2F] + b) == b
    ensures Name83(a) == Name83(b)
  {
    hide Name83, Matches;
    CaseBlind(a, b);
  }

  /** ... and opened, written and deleted alike. */
  lemma CallsIgnoreCase(v: Vol, g: Geometry, d: nat, a: seq<byte>, b: seq<byte>, bytes: seq<byte>)
    requires Fits(v, g) && SameLetters(a, b) && a != [] && a[0] != 0x2F && |bytes| < 0x1_0000_0000
    ensures Open(v, g, d, a) == Open(v, g, d, b) && Open(v, g, d, [0x2F] + a) == Open(v, g, d, [0x2F] + b)
    ensures WriteIn(v, g, d, a, bytes) == WriteIn(v, g, d, b, bytes)
    ensures DeleteFile(v, g, a) == DeleteFile(v, g, b)
  {
    hide Scan, LookUp, Name83, StoreFile, ScanWrite, SameLetters, StripSlash, First, Size, IsDir, SlotAt, WithoutChain, Erased;
    StripKeepsCase(a, b);
  }
}
