/** Whole runs of the driver's operations on a consistent volume. */
module Runs {
  import opened Bytes
  import opened FatTable
  import opened Layout
  import opened Names
  import opened Directory
  import opened Files
  import opened Operations
  import opened Consistency

  /** The last component of the path is a canonical name and does not name a directory. */
  ghost predicate FilePath(v: Vol, g: Geometry, cwd: nat, path: seq<byte>)
    requires Fits(v, g)
  {
    match Navigate(v, g, cwd, path)
    case NotFound => true
    case Missing(_, name) => Canonical(name)
    case Found(_, name, slot) => Canonical(name) && !IsDir(slot)
  }

  /** Where a walk in a consistent volume ends up. */
  lemma NavigateIs(v: Vol, g: Geometry, L: Ledger, cwd: nat, path: seq<byte>)
    requires Consistent(v, g, L) && cwd in L.depth
    ensures var nav := Navigate(v, g, cwd, path);
            && (!nav.NotFound? ==> nav.parent in L.depth && 2 <= nav.parent < |v.data|)
            && (nav.Found? ==> nav.name != [] && LookUp(v, g, nav.parent, Text(nav.name)) == Some(nav.slot))
            && (nav.Found? && IsDir(nav.slot) ==> First(nav.slot) in L.depth)
            && (nav.Missing? && nav.name != [] ==> LookUp(v, g, nav.parent, Text(nav.name)) == None)
  {
    DirsAreClosed(v, g, L);
    hide Consistent, LookUp, Walk, DescentsStay, First, IsDir;
    var absolute := path != [] && path[0] == SLASH;
    WalkStays(v, g, L.depth.Keys, if absolute then g.rootCluster else cwd, path, if absolute then 1 else 0, []);
    WalkEnds(v, g, if absolute then g.rootCluster else cwd, path, if absolute then 1 else 0, []);
  }

  /** The slot a write picks in a consistent directory is a proper target. */
  lemma PickIsTarget(v: Vol, g: Geometry, L: Ledger, d: nat, name: seq<byte>, p: nat)
    requires Consistent(v, g, L) && d in L.depth && 2 <= d < |v.data| && Canonical(name) && p < Slots(g)
    requires Name83(name).Some? && Picked(v.data[d], Slots(g), Name83(name).value, Some(p))
    requires LookUp(v, g, d, Text(name)).Some? ==> !IsDir(LookUp(v, g, d, Text(name)).value)
    ensures Target(v, g, L, Slot(d, p), Name83(name).value)
  {
    var k := Slot(d, p);
    CanonicalPacks(name);
    CanonicalEntryFirst(Name83(name).value);
    hide Consistent, LookUp, Name83, Matches, CanonicalEntry, EntryOk;
    if IsDot(g, k) {
      DotName(v, g, L, k);
      assert false;
    }
    if Live(EntryOf(v, g, k)) {
      LookUpIs(v, g, L, d, name, p);
    }
  }

  lemma DotName(v: Vol, g: Geometry, L: Ledger, k: Slot)
    requires Consistent(v, g, L) && InTree(g, L.depth, k) && IsDot(g, k)
    ensures 2 <= k.dir < |v.data| && Live(EntryOf(v, g, k)) && NameOf(EntryOf(v, g, k))[0] == DOT
  {
    hide Consistent, CanonicalEntry, NamedBy, TidySlot, First;
    EntryIs(v, g, L, k);
  }

  lemma WriteTarget(v: Vol, g: Geometry, L: Ledger, d: nat, name: seq<byte>)
    requires Consistent(v, g, L) && d in L.depth && 2 <= d < |v.data| && Canonical(name)
    requires LookUp(v, g, d, Text(name)).Some? ==> !IsDir(LookUp(v, g, d, Text(name)).value)
    ensures Name83(name).Some?
    ensures var p := ScanWrite(v.data[d], Slots(g), 0, Name83(name).value, None);
            p.Some? ==> Target(v, g, L, Slot(d, p.value), Name83(name).value)
  {
    CanonicalPacks(name);
    CanonicalEntryFirst(Name83(name).value);
    hide Consistent, LookUp, Name83, CanonicalEntry, ScanWrite, Tidy, Target;
    TidyDir(v, g, L, d);
    ScanWritePicks(v.data[d], Slots(g), 0, Name83(name).value, None);
    var p := ScanWrite(v.data[d], Slots(g), 0, Name83(name).value, None);
    if p.Some? {
      PickIsTarget(v, g, L, d, name, p.value);
    }
  }

  /** A path that names the entry of slot `k` opens it. */
  lemma OpensAs(v: Vol, g: Geometry, L: Ledger, k: Slot, cwd: nat, path: seq<byte>)
    requires Fits(v, g) && Consistent(v, g, L) && InTree(g, L.depth, k) && 2 <= k.dir < |v.data|
    requires Live(EntryOf(v, g, k)) && !IsDir(EntryOf(v, g, k))
    requires Denotes(v, g, k, cwd, path)
    ensures var s := EntryOf(v, g, k);
            Open(v, g, cwd, path) == Some(Handle(First(s), First(s), 0, Size(s)))
  {
    hide Consistent, Name83, LookUp, Canonical, NameOf, First, Size, IsDir, Live, EntryOf;
    LookUpIs(v, g, L, k.dir, StripSlash(path), k.index);
  }

  /** `fat32_open` looks for the entry of slot `k` when it is given this path. */
  predicate Denotes(v: Vol, g: Geometry, k: Slot, cwd: nat, path: seq<byte>)
    requires Fits(v, g) && 2 <= k.dir < |v.data| && k.index < Slots(g)
  {
    Canonical(StripSlash(path)) && StartDir(g, cwd, path) == k.dir && Name83(StripSlash(path)) == Some(NameOf(EntryOf(v, g, k)))
  }

  /** The slot a write by path fills. */
  function WrittenSlot(v: Vol, g: Geometry, cwd: nat, path: seq<byte>): (k: Option<Slot>)
    requires Fits(v, g)
  {
    var nav := Navigate(v, g, cwd, path);
    if nav.NotFound? || !(2 <= nav.parent < |v.data|) || Name83(nav.name).None? then None
    else
      match ScanWrite(v.data[nav.parent], Slots(g), 0, Name83(nav.name).value, None)
      case None => None
      case Some(p) => Some(Slot(nav.parent, p))
  }

  /** The slot a delete erases. */
  function ErasedSlot(v: Vol, g: Geometry, path: seq<byte>): (k: Option<Slot>)
    requires Fits(v, g)
  {
    match Name83(StripSlash(path))
    case None => None
    case Some(name) =>
      match Scan(v.data[g.rootCluster], Slots(g), 0, Packed(name))
      case None => None
      case Some(p) => Some(Slot(g.rootCluster, p))
  }

  /** A successful write keeps the volume consistent and the set of directories. */
  lemma WritePreserves(v: Vol, g: Geometry, L: Ledger, cwd: nat, path: seq<byte>, bytes: seq<byte>) returns (M: Ledger)
    requires Fits(v, g) && Consistent(v, g, L) && cwd in L.depth && |bytes| < 0x1_0000_0000
    requires FilePath(v, g, cwd, path) && WriteFile(v, g, cwd, path, bytes).Done?
    ensures Consistent(WriteFile(v, g, cwd, path, bytes).v, g, M) && M.depth == L.depth
    ensures WrittenSlot(v, g, cwd, path).Some? && forall j :: j != WrittenSlot(v, g, cwd, path).value ==> SameChainOf(L, M, j)
    ensures DirEntriesKept(v, g, L.depth, WriteFile(v, g, cwd, path, bytes).v)
    ensures OthersKept(v, g, L.depth, WriteFile(v, g, cwd, path, bytes).v, WrittenSlot(v, g, cwd, path).value)
  {
    hide DirEntriesKept, OthersKept, Consistent, LookUp, Name83, CanonicalEntry, ScanWrite, Target, Navigate, StoreFile, Accepted;
    NavigateIs(v, g, L, cwd, path);
    var nav := Navigate(v, g, cwd, path);
    WriteTarget(v, g, L, nav.parent, nav.name);
    var packed := Name83(nav.name).value;
    var p := ScanWrite(v.data[nav.parent], Slots(g), 0, packed, None).value;
    if bytes == [] {
      StoreEmptyKeeps(v, g, L, Slot(nav.parent, p), packed);
      M := Released(L, Slot(nav.parent, p));
    } else {
      M := StoreDataKeeps(v, g, L, Slot(nav.parent, p), packed, bytes);
    }
  }

  /** A successful delete of a file keeps the volume consistent and the set of directories. */
  lemma DeletePreserves(v: Vol, g: Geometry, L: Ledger, path: seq<byte>) returns (M: Ledger)
    requires Fits(v, g) && Consistent(v, g, L) && DeleteFile(v, g, path).Done?
    requires var s := LookUp(v, g, g.rootCluster, Packed(Name83(StripSlash(path)).value));
             s.Some? ==> !IsDir(s.value)
    ensures Consistent(DeleteFile(v, g, path).v, g, M) && M.depth == L.depth
    ensures ErasedSlot(v, g, path).Some? && forall j :: j != ErasedSlot(v, g, path).value ==> SameChainOf(L, M, j)
    ensures DirEntriesKept(v, g, L.depth, DeleteFile(v, g, path).v)
    ensures OthersKept(v, g, L.depth, DeleteFile(v, g, path).v, ErasedSlot(v, g, path).value)
  {
    hide DirEntriesKept, OthersKept, Consistent, Name83, Scan, WithoutChain, Erased, PutSlot, First, IsDir, DirsClosed;
    var p := Scan(v.data[g.rootCluster], Slots(g), 0, Packed(Name83(StripSlash(path)).value)).value;
    var k := Slot(g.rootCluster, p);
    DirsAreClosed(v, g, L);
    M := Released(L, k);
    DeleteKeeps(v, g, L, k, EntryOf(v, g, k), DeleteFile(v, g, path).v);
  }

  /** After a delete the path opens nothing exactly when it is looked up in the root, or opened nothing before:
      the driver deletes from the root, wherever the path starts. */
  lemma DeletedIsGone(v: Vol, g: Geometry, L: Ledger, path: seq<byte>, w: Vol, cwd: nat)
    requires Fits(v, g) && Consistent(v, g, L) && DeleteFile(v, g, path) == Done(w)
    ensures Fits(w, g)
    ensures Open(w, g, cwd, path) == None <==> StartDir(g, cwd, path) == g.rootCluster || Open(v, g, cwd, path) == None
    ensures StartDir(g, cwd, path) != g.rootCluster ==> Open(w, g, cwd, path) == Open(v, g, cwd, path)
  {
    hide Consistent, Name83, Scan, WithoutChain, Erased, PutSlot, First, Size, IsDir, DirsClosed, NameOf;
    var p := Scan(v.data[g.rootCluster], Slots(g), 0, Packed(Name83(StripSlash(path)).value)).value;
    DirsAreClosed(v, g, L);
    TidyDir(v, g, L, g.rootCluster);
    ErasedMisses(v.data[g.rootCluster], Slots(g), p);
  }

  lemma NoSuchName(v: Vol, g: Geometry, L: Ledger, d: nat, name: seq<byte>, i: nat)
    requires Fits(v, g) && Consistent(v, g, L) && d in L.depth && 2 <= d < |v.data| && Canonical(name) && Name83(name).Some?
    requires LookUp(v, g, d, Text(name)).None? && i < Slots(g) && Live(SlotAt(v.data[d], i))
    ensures NameOf(SlotAt(v.data[d], i)) != Name83(name).value
  {
    hide Consistent, LookUp, Name83, Accepted, Live, Canonical;
    if NameOf(SlotAt(v.data[d], i)) == Name83(name).value {
      LookUpIs(v, g, L, d, name, i);
      assert false;
    }
  }

  /** What a directory lookup misses, a new directory entry may be called. */
  lemma MissIsTarget(v: Vol, g: Geometry, L: Ledger, d: nat, name: seq<byte>, p: nat)
    requires Fits(v, g) && Consistent(v, g, L) && d in L.depth && 2 <= d < |v.data| && Canonical(name)
    requires LookUp(v, g, d, Text(name)).None? && ScanFree(v.data[d], Slots(g), 0) == Some(p)
    ensures Name83(name).Some? && Target(v, g, L, Slot(d, p), Name83(name).value) && !Live(EntryOf(v, g, Slot(d, p)))
  {
    hide Consistent, LookUp, Name83, CanonicalEntry, ScanFree, EntryOk, Accepted, Canonical, Target;
    CanonicalPacks(name);
    ScanFreePicks(v.data[d], Slots(g), 0);
    forall i | 0 <= i < Slots(g) && Live(SlotAt(v.data[d], i))
      ensures NameOf(SlotAt(v.data[d], i)) != Name83(name).value
    {
      NoSuchName(v, g, L, d, name, i);
    }
    PickIsTarget(v, g, L, d, name, p);
  }

  /** A successful mkdir adds one directory and keeps the volume consistent. */
  lemma MkdirPreserves(v: Vol, g: Geometry, L: Ledger, d: nat, name: seq<byte>) returns (M: Ledger)
    requires Fits(v, g) && Consistent(v, g, L) && d in L.depth && 2 <= d < |v.data| && Canonical(name)
    requires LookUp(v, g, d, Text(name)).None? && MakeDirIn(v, g, d, name).Done?
    ensures Consistent(MakeDirIn(v, g, d, name).v, g, M)
    ensures DirEntriesKept(v, g, L.depth, MakeDirIn(v, g, d, name).v)
    ensures ScanFree(v.data[d], Slots(g), 0).Some? && OthersKept(v, g, L.depth, MakeDirIn(v, g, d, name).v, Slot(d, ScanFree(v.data[d], Slots(g), 0).value))
    ensures !Live(EntryOf(v, g, Slot(d, ScanFree(v.data[d], Slots(g), 0).value)))
    ensures forall e :: e in L.depth ==> e in M.depth && M.depth[e] == L.depth[e]
    ensures forall j :: j in L.chains ==> SameChainOf(L, M, j)
    ensures Frees(v.fat, 2) != [] && M.depth.Keys == L.depth.Keys + {Frees(v.fat, 2)[0]} && Frees(v.fat, 2)[0] !in L.depth
  {
    hide DirEntriesKept, OthersKept, Consistent, LookUp, Name83, Target, ScanFree, EntryOk, Accepted, MakeDirIn, Frees, MadeDir, MakeSlot, Live, Canonical;
    MkdirHasRoom(v, g, d, name);
    FirstOfFrees(v.fat, 2);
    var c := Frees(v.fat, 2)[0];
    FreshIsNew(v, g, L, c);
    MakeDirIs(v, g, d, name, c);
    var p := ScanFree(v.data[d], Slots(g), 0).value;
    MissIsTarget(v, g, L, d, name, p);
    FreeSlotOwnsNothing(v, g, L, Slot(d, p));
    M := Grown(L, Slot(d, p), c);
    MkdirKeeps(v, g, L, Slot(d, p), Name83(name).value, c, MakeSlot(Name83(name).value, ATTR_DIRECTORY, c, 0), MakeDirIn(v, g, d, name).v, M);
  }

  /** A directory just made is found by its name, and it is the first cluster that was free. */
  lemma MkdirFinds(v: Vol, g: Geometry, L: Ledger, d: nat, name: seq<byte>) returns (M: Ledger)
    requires Fits(v, g) && Consistent(v, g, L) && d in L.depth && 2 <= d < |v.data| && Canonical(name)
    requires LookUp(v, g, d, Text(name)).None? && MakeDirIn(v, g, d, name).Done?
    ensures var w := MakeDirIn(v, g, d, name).v;
            && Consistent(w, g, M) && DirEntriesKept(v, g, L.depth, w)
            && (forall e :: e in L.depth ==> e in M.depth)
            && Frees(v.fat, 2) != [] && Frees(v.fat, 2)[0] in M.depth
            && var s := LookUp(w, g, d, Text(name));
               s.Some? && IsDir(s.value) && First(s.value) == Frees(v.fat, 2)[0]
  {
    hide DirEntriesKept, Consistent, LookUp, Name83, ScanFree, Accepted, MakeDirIn, Frees, MakeSlot, PutSlot, Live, Canonical, First, IsDir, NameOf, SlotAt;
    M := MkdirPreserves(v, g, L, d, name);
    FirstOfFrees(v.fat, 2);
    var c := Frees(v.fat, 2)[0];
    FreshIsNew(v, g, L, c);
    MakeDirIs(v, g, d, name, c);
    CanonicalPacks(name);
    CanonicalEntryFirst(Name83(name).value);
    var p := ScanFree(v.data[d], Slots(g), 0).value;
    var s := MakeSlot(Name83(name).value, ATTR_DIRECTORY, c, 0);
    MadeSlot(Name83(name).value, ATTR_DIRECTORY, c, 0);
    DirSlotLive(Name83(name).value, c);
    SlotAfterPut(v.data[d], p, s, p);
    LookUpIs(MakeDirIn(v, g, d, name).v, g, M, d, name, p);
  }

  lemma DirSlotLive(name: seq<byte>, c: nat)
    requires CanonicalEntry(name) && |name| == 11 && c < 0x1_0000_0000
    ensures var s := MakeSlot(name, ATTR_DIRECTORY, c, 0);
            Live(s) && IsDir(s) && NameOf(s) == name && First(s) == c
  {
    hide MakeSlot, CanonicalEntry, First, NameOf;
    CanonicalEntryFirst(name);
    MadeSlot(name, ATTR_DIRECTORY, c, 0);
  }

  lemma MkdirHasRoom(v: Vol, g: Geometry, d: nat, name: seq<byte>)
    requires Fits(v, g) && 2 <= d < |v.data| && MakeDirIn(v, g, d, name).Done?
    ensures Frees(v.fat, 2) != []
  {
    hide Frees, ScanFree, PutSlot, MakeSlot, DirBlock, Name83, Allocated;
  }

  lemma MakeDirIs(v: Vol, g: Geometry, d: nat, name: seq<byte>, c: nat)
    requires Fits(v, g) && 2 <= d < |v.data| && MakeDirIn(v, g, d, name).Done?
    requires Frees(v.fat, 2) != [] && c == Frees(v.fat, 2)[0] && c != d && 2 <= c < |v.fat|
    ensures Name83(name).Some? && ScanFree(v.data[d], Slots(g), 0).Some?
    ensures MakeDirIn(v, g, d, name).v
            == MadeDir(v, g, Slot(d, ScanFree(v.data[d], Slots(g), 0).value), c, MakeSlot(Name83(name).value, ATTR_DIRECTORY, c, 0))
  {
    hide Frees, ScanFree, PutSlot, MakeSlot, DirBlock, Name83, Link;
    assert Frees(v.fat, 2)[..1] == [c];
  }

  /** A failed mkdir leaves the table as it was and touches no used cluster. */
  lemma FailedMkdirRestores(v: Vol, g: Geometry, d: nat, name: seq<byte>)
    requires Fits(v, g) && 2 <= d < |v.data| && MakeDirIn(v, g, d, name).Failed?
    ensures MakeDirIn(v, g, d, name).v.fat == v.fat
    ensures forall c :: 2 <= c < |v.fat| && v.fat[c] != 0 ==> MakeDirIn(v, g, d, name).v.data[c] == v.data[c]
  {
    FreesAre(v.fat, 2);
    if Frees(v.fat, 2) != [] {
      AllocatorLaw(v.fat, Frees(v.fat, 2), 1);
      hide Frees, ScanFree, PutSlot, MakeSlot, DirBlock, Name83, Allocated, FreeChain;
      assert Frees(v.fat, 2)[0] in Frees(v.fat, 2)[..1];
    }
  }
}
