/** An operation on one file leaves every other file alone: its table entries, its bytes, and whatever a
    handle on it was going to read. */
module OtherFiles {
  import opened Bytes
  import opened FatTable
  import opened Layout
  import opened Names
  import opened Directory
  import opened Files
  import opened Operations
  import opened Consistency
  import opened Runs
  import opened Space
  import opened WorkDir
  import opened Session

  /** Slot `j` owns the chain of a file. */
  ghost predicate OwnsFile(L: Ledger, j: Slot) {
    j in L.chains && forall c :: c in L.chains[j] ==> c !in L.depth
  }

  /** Table entries and bytes of the clusters of `xs` are the same in `v` and `w`. */
  ghost predicate Spares(v: Vol, w: Vol, xs: seq<nat>) {
    && |w.fat| == |v.fat| && |w.data| == |v.data| == |v.fat| && Within(xs, 2, |v.fat|)
    && forall c :: c in xs ==> w.fat[c] == v.fat[c] && w.data[c] == v.data[c]
  }

  lemma SparesIf(v: Vol, w: Vol, xs: seq<nat>)
    requires |w.fat| == |v.fat| && |w.data| == |v.data| == |v.fat|
    requires forall c :: c in xs ==> 2 <= c < |v.fat| && w.fat[c] == v.fat[c] && w.data[c] == v.data[c]
    ensures Spares(v, w, xs)
  {
    assert forall i :: 0 <= i < |xs| ==> xs[i] in xs;
  }

  lemma ClusterOfChain(v: Vol, g: Geometry, L: Ledger, j: Slot, c: nat)
    requires Fits(v, g) && Consistent(v, g, L) && j in L.chains && c in L.chains[j]
    ensures 2 <= c < |v.fat| && v.fat[c] != 0
  {
    hide DirsOk, EntriesOk, KeysOk, OwnersOk, Covered, IsChain, InRange;
    assert IsChain(v.fat, L.chains[j]);
    ChainUsed(v.fat, L.chains[j], c);
  }

  /** Freeing what slot `k` names does not touch a cluster of another slot. */
  lemma ReleaseSpares(v: Vol, g: Geometry, L: Ledger, k: Slot, j: Slot, c: nat)
    requires Fits(v, g) && Consistent(v, g, L) && InTree(g, L.depth, k) && 2 <= k.dir < |v.data| && !IsDot(g, k)
    requires j in L.chains && j != k && c in L.chains[j] && c < |v.fat|
    ensures WithoutChain(v, First(EntryOf(v, g, k))).fat[c] == v.fat[c]
  {
    hide DirsOk, KeysOk, IsChain, Covered, Tidy, CanonicalEntry, NameOf, First, FreeChain, InRange, IsDir;
    var s := EntryOf(v, g, k);
    assert EntryOk(s, g, L, k);
    if k in L.chains {
      HeadOfSlot(v, g, L, k);
      Apart(L.chains, L.owner, j, k);
      Release(v.fat, L.chains, L.owner, k);
    } else {
      DeadOrEmpty(v, g, L, k);
    }
  }

  /** A successful write spares every other file. */
  lemma WriteSpares(v: Vol, g: Geometry, L: Ledger, k: Slot, name: seq<byte>, bytes: seq<byte>, j: Slot)
    requires Fits(v, g) && Target(v, g, L, k, name) && |name| == 11 && |bytes| < 0x1_0000_0000
    requires StoreFile(v, g, k.dir, k.index, name, bytes).Done? && OwnsFile(L, j) && j != k
    ensures Spares(v, StoreFile(v, g, k.dir, k.index, name, bytes).v, L.chains[j])
  {
    hide Consistent, StoreFile, CanonicalEntry, Picked, WithoutChain, First, WriteLoop, Link, MakeSlot, PutSlot, Live, IsDir, Frees;
    var w := StoreFile(v, g, k.dir, k.index, name, bytes).v;
    if bytes == [] {
      StoreFileEmpty(v, g, k.dir, k.index, name);
    }
    forall c | c in L.chains[j]
      ensures 2 <= c < |v.fat| && w.fat[c] == v.fat[c] && w.data[c] == v.data[c]
    {
      ClusterOfChain(v, g, L, j, c);
      ReleaseSpares(v, g, L, k, j, c);
      if bytes != [] {
        var freed, xs, linked, stored := StoreFileSteps(v, g, k.dir, k.index, name, bytes);
        LinkOther(freed.fat, xs, END_MARK, c);
        WriteLoopOther(linked, g.ClusterSize(), xs, bytes, c);
      }
    }
    SparesIf(v, w, L.chains[j]);
  }

  /** So does a successful delete. */
  lemma DeleteSpares(v: Vol, g: Geometry, L: Ledger, path: seq<byte>, j: Slot, p: nat)
    requires Fits(v, g) && Consistent(v, g, L) && DeleteFile(v, g, path).Done? && OwnsFile(L, j)
    requires Scan(v.data[g.rootCluster], Slots(g), 0, Packed(Name83(StripSlash(path)).value)) == Some(p) && j != Slot(g.rootCluster, p)
    ensures Spares(v, DeleteFile(v, g, path).v, L.chains[j])
  {
    hide Consistent, Name83, Scan, WithoutChain, Erased, PutSlot, First;
    var k, w := Slot(g.rootCluster, p), DeleteFile(v, g, path).v;
    DirsAreClosed(v, g, L);
    forall c | c in L.chains[j]
      ensures 2 <= c < |v.fat| && w.fat[c] == v.fat[c] && w.data[c] == v.data[c]
    {
      ClusterOfChain(v, g, L, j, c);
      ReleaseSpares(v, g, L, k, j, c);
    }
    SparesIf(v, w, L.chains[j]);
  }

  /** And a successful mkdir. */
  lemma MkdirSpares(v: Vol, g: Geometry, L: Ledger, d: nat, name: seq<byte>, j: Slot)
    requires Fits(v, g) && Consistent(v, g, L) && d in L.depth && 2 <= d < |v.data|
    requires MakeDirIn(v, g, d, name).Done? && OwnsFile(L, j)
    ensures Spares(v, MakeDirIn(v, g, d, name).v, L.chains[j])
  {
    hide Consistent, Name83, ScanFree, MakeDirIn, Frees, MakeSlot, DirBlock, PutSlot, Link;
    MkdirHasRoom(v, g, d, name);
    FirstOfFrees(v.fat, 2);
    var c0, w := Frees(v.fat, 2)[0], MakeDirIn(v, g, d, name).v;
    FreshIsNew(v, g, L, c0);
    MakeDirIs(v, g, d, name, c0);
    forall c | c in L.chains[j]
      ensures 2 <= c < |v.fat| && w.fat[c] == v.fat[c] && w.data[c] == v.data[c]
    {
      ClusterOfChain(v, g, L, j, c);
      LinkOther(v.fat, [c0], END_MARK, c);
    }
    SparesIf(v, w, L.chains[j]);
  }

  lemma {:induction false} SparedContent(v: Vol, w: Vol, xs: seq<nat>)
    requires Spares(v, w, xs)
    ensures Within(xs, 0, |v.data|) && Content(w.data, xs) == Content(v.data, xs)
    decreases |xs|
  {
    if xs != [] {
      assert xs[0] in xs;
      SparedContent(v, w, xs[1..]);
    }
  }

  /** A read loop on a spared chain: the same bytes, and the same handle, which stays on the chain. */
  lemma {:induction false} SparedLoop(v: Vol, w: Vol, cs: nat, h: Handle, xs: seq<nat>, want: nat)
    requires VolOk(v, cs) && VolOk(w, cs) && IsChain(v.fat, xs) && Spares(v, w, xs) && h.current in xs
    ensures IsValidCluster(h.current) && h.current < |v.data|
    ensures ReadLoop(w, cs, h, want) == ReadLoop(v, cs, h, want) && ReadLoop(v, cs, h, want).1.current in xs
    decreases want
  {
    hide InRange, Offset, ReadLoop, ReadStep, Slice;
    InChain(v.fat, xs, h.current);
    if want == 0 {
      ReadLoopStops(v, cs, h, want);
      ReadLoopStops(w, cs, h, want);
    } else {
      ReadLoopStep(v, cs, h, want);
      ReadLoopStep(w, cs, h, want);
      SparedStep(v, w, cs, h, xs, want);
      var (bytes, next, last) := ReadStep(v, cs, h, want);
      if !last {
        SparedLoop(v, w, cs, next, xs, want - |bytes|);
      }
    }
  }

  lemma SparedStep(v: Vol, w: Vol, cs: nat, h: Handle, xs: seq<nat>, want: nat)
    requires VolOk(v, cs) && VolOk(w, cs) && IsChain(v.fat, xs) && Spares(v, w, xs) && h.current in xs && 0 < want
    ensures IsValidCluster(h.current) && h.current < |v.data|
    ensures ReadStep(w, cs, h, want) == ReadStep(v, cs, h, want) && ReadStep(v, cs, h, want).1.current in xs
  {
    hide InRange, Offset, Slice;
    InChain(v.fat, xs, h.current);
  }

  /** A cluster of a chain is the last one, or linked to one of the chain. */
  lemma InChain(fat: seq<nat>, xs: seq<nat>, c: nat)
    requires IsChain(fat, xs) && |fat| <= EOC && c in xs
    ensures IsValidCluster(c) && c < |fat| && (IsEndOfChain(fat[c]) || fat[c] in xs)
  {
    var i :| 0 <= i < |xs| && xs[i] == c;
    if i < |xs| - 1 {
      assert fat[xs[i]] == xs[i + 1];
    }
  }

  /** Whatever reads are made from a handle on a spared chain, they deliver the same bytes and leave the same
      handle, from wherever it was and whatever size its entry claims. */
  lemma {:induction false} SparedReads(v: Vol, w: Vol, cs: nat, h: Handle, xs: seq<nat>, counts: seq<nat>)
    requires VolOk(v, cs) && VolOk(w, cs) && IsChain(v.fat, xs) && Spares(v, w, xs) && h.current in xs && h.position <= h.size
    ensures IsValidCluster(h.current) && h.current < |v.data|
    ensures ReadMany(w, cs, h, counts) == ReadMany(v, cs, h, counts)
    decreases |counts|
  {
    hide InRange, ReadLoop, IsChain, Spares;
    InChain(v.fat, xs, h.current);
    if counts != [] {
      SparedLoop(v, w, cs, h, xs, Least(counts[0], h.size - h.position));
      SparedReads(v, w, cs, Read(v, cs, h, counts[0]).1, xs, counts[1..]);
    }
  }

  /** And what reading on delivers is the same. */
  lemma SparedContents(v: Vol, w: Vol, cs: nat, h: Handle, xs: seq<nat>, content: seq<byte>)
    requires Reading(v, cs, h, content) && VolOk(w, cs) && IsChain(v.fat, xs) && h.first == xs[0] && Spares(v, w, xs)
    ensures Reading(w, cs, h, content)
  {
    hide InRange, Unrolled;
    if content != [] {
      var ys, k :| Yields(v, cs, h, ys, k, content);
      ChainUnique(v.fat, xs, ys);
      SameChain(v.fat, w.fat, xs);
      SparedUnrolled(v, w, xs, cs, |content|);
      assert Yields(w, cs, h, xs, k, content);
    }
  }

  lemma SparedUnrolled(v: Vol, w: Vol, xs: seq<nat>, cs: nat, n: nat)
    requires Spares(v, w, xs) && Sized(v.data, xs, cs) && xs != [] && 0 < cs
    ensures Sized(w.data, xs, cs) && Unrolled(w.data, xs, cs, n) == Unrolled(v.data, xs, cs, n)
  {
    hide Content, Offset;
    SparedContent(v, w, xs);
    assert forall i :: 0 <= i < |xs| ==> xs[i] in xs;
  }

  lemma ChainOf(v: Vol, g: Geometry, L: Ledger, j: Slot)
    requires Consistent(v, g, L) && j in L.chains
    ensures IsChain(v.fat, L.chains[j])
  {
  }

  // ---- whole runs ----

  lemma WriteStepSpares(v: Vol, g: Geometry, L: Ledger, cwd: nat, path: seq<byte>, bytes: seq<byte>, j: Slot)
    requires Fits(v, g) && |bytes| < 0x1_0000_0000 && WriteFile(v, g, cwd, path, bytes).Done? && FilePath(v, g, cwd, path)
    requires j in L.chains && OwnsFile(L, j) && Consistent(v, g, L) && cwd in L.depth && WrittenSlot(v, g, cwd, path) != Some(j)
    ensures Spares(v, WriteFile(v, g, cwd, path, bytes).v, L.chains[j])
  {
    hide Consistent, LookUp, Name83, CanonicalEntry, ScanWrite, Target, Navigate, StoreFile, Accepted, Spares;
    NavigateIs(v, g, L, cwd, path);
    var nav := Navigate(v, g, cwd, path);
    WriteTarget(v, g, L, nav.parent, nav.name);
    WriteSpares(v, g, L, WrittenSlot(v, g, cwd, path).value, Name83(nav.name).value, bytes, j);
  }

  lemma SparesSelf(v: Vol, g: Geometry, L: Ledger, j: Slot)
    requires Fits(v, g) && Consistent(v, g, L) && j in L.chains
    ensures Spares(v, v, L.chains[j])
  {
    hide Consistent;
    forall c | c in L.chains[j]
      ensures 2 <= c < |v.fat|
    {
      ClusterOfChain(v, g, L, j, c);
    }
    SparesIf(v, v, L.chains[j]);
  }

  lemma DeleteStepSpares(v: Vol, g: Geometry, L: Ledger, path: seq<byte>, j: Slot)
    requires Fits(v, g) && Consistent(v, g, L) && j in L.chains && OwnsFile(L, j) && ErasedSlot(v, g, path) != Some(j)
    ensures Spares(v, DeleteFile(v, g, path).v, L.chains[j])
  {
    hide Consistent, Name83, Scan, Spares, WithoutChain, Erased, PutSlot, First;
    if DeleteFile(v, g, path).Done? {
      DeleteSpares(v, g, L, path, j, ErasedSlot(v, g, path).value.index);
    } else {
      SparesSelf(v, g, L, j);
    }
  }

  lemma MkdirStepSpares(v: Vol, g: Geometry, L: Ledger, cwd: nat, path: seq<byte>, j: Slot)
    requires Fits(v, g) && !Navigate(v, g, cwd, path).NotFound?
    requires j in L.chains && OwnsFile(L, j) && Consistent(v, g, L) && cwd in L.depth
    ensures Spares(v, MakeDir(v, g, cwd, path).v, L.chains[j])
  {
    hide Consistent, Navigate, MakeDirIn, LookUp, Spares;
    NavigateIs(v, g, L, cwd, path);
    var nav := Navigate(v, g, cwd, path);
    SparesSelf(v, g, L, j);
    if nav.Missing? {
      if MakeDirIn(v, g, nav.parent, nav.name).Done? {
        MkdirSpares(v, g, L, nav.parent, nav.name, j);
      } else {
        FailedMkdirSpares(v, g, L, nav.parent, nav.name, j);
      }
    }
  }

  lemma FailedMkdirSpares(v: Vol, g: Geometry, L: Ledger, d: nat, name: seq<byte>, j: Slot)
    requires Fits(v, g) && Consistent(v, g, L) && 2 <= d < |v.data| && MakeDirIn(v, g, d, name).Failed? && j in L.chains
    ensures Spares(v, MakeDirIn(v, g, d, name).v, L.chains[j])
  {
    hide Consistent, MakeDirIn;
    FailedMkdirRestores(v, g, d, name);
    forall c | c in L.chains[j]
      ensures 2 <= c < |v.fat| && v.fat[c] != 0
    {
      ClusterOfChain(v, g, L, j, c);
    }
    SparesIf(v, MakeDirIn(v, g, d, name).v, L.chains[j]);
  }

  /** Every legal call that does not rewrite slot `j` spares the file `j` owns. */
  lemma StepSpares(s: State, g: Geometry, L: Ledger, op: Op, j: Slot)
    requires Fits(s.v, g) && j in L.chains && OwnsFile(L, j) && !Touches(s, g, op, j)
    requires Sound(s, g, L) && Legal(s, g, op)
    ensures Spares(s.v, Step(s, g, op).v, L.chains[j])
  {
    hide Consistent, Coherent, WriteFile, DeleteFile, MakeDir, ChangeDir, OwnsFile, Spares, FilePath, NotDir, KeepsTrack, PathRoom, Navigate, WrittenSlot, ErasedSlot, WriteFits, Room, CanMake;
    SparesSelf(s.v, g, L, j);
    match op {
      case Write(path, bytes) =>
        WriteLedger(s.v, g, L, s.cwd.cluster, path, bytes);
        if WriteFile(s.v, g, s.cwd.cluster, path, bytes).Done? {
          WriteStepSpares(s.v, g, L, s.cwd.cluster, path, bytes, j);
        }
      case Delete(path) => DeleteStepSpares(s.v, g, L, path, j);
      case Mkdir(path) => MkdirStepSpares(s.v, g, L, s.cwd.cluster, path, j);
      case Chdir(_) =>
    }
  }

  /** No call of the run rewrites slot `j`. */
  ghost predicate NeverTouches(s: State, g: Geometry, ops: seq<Op>, j: Slot)
    requires Run(s, g, ops)
    decreases |ops|
  {
    ops == [] || (!Touches(s, g, ops[0], j) && NeverTouches(Step(s, g, ops[0]), g, ops[1..], j))
  }

  /** Slot `j` still owns the same file after the step. */
  lemma FileKept(s: State, g: Geometry, L: Ledger, M: Ledger, op: Op, j: Slot)
    requires Fits(s.v, g) && Consistent(s.v, g, L) && Ready(s, g) && Legal(s, g, op) && Follows(s, g, op, L, M)
    requires OwnsFile(L, j) && !Touches(s, g, op, j)
    ensures OwnsFile(M, j) && M.chains[j] == L.chains[j]
  {
    hide Consistent, Touches, EntriesKept, Legal, Step, Ready;
    assert SameChainOf(L, M, j);
    forall c | c in M.chains[j]
      ensures c !in M.depth
    {
      ClusterOfChain(s.v, g, L, j, c);
    }
  }

  lemma SparesOn(u: Vol, v: Vol, w: Vol, xs: seq<nat>)
    requires Spares(u, v, xs) && Spares(v, w, xs)
    ensures Spares(u, w, xs)
  {
  }

  /** Over every legal run that leaves its slot alone, a file keeps its chain, its table entries and its bytes. */
  lemma {:induction false} RunSpares(s: State, g: Geometry, L: Ledger, ops: seq<Op>, j: Slot)
    requires Fits(s.v, g) && Sound(s, g, L) && Run(s, g, ops) && NeverTouches(s, g, ops, j)
    requires OwnsFile(L, j) && j in L.chains
    ensures Fits(After(s, g, ops).v, g) && Spares(s.v, After(s, g, ops).v, L.chains[j])
    decreases |ops|
  {
    hide Sound, Legal, Step, Touches, OwnsFile, Follows, Fits, Spares;
    SoundMeans(s, g, L);
    if ops == [] {
      SparesSelf(s.v, g, L, j);
    } else {
      var M := StepKeeps(s, g, L, ops[0]);
      SoundMeans(Step(s, g, ops[0]), g, M);
      StepSpares(s, g, L, ops[0], j);
      FileKept(s, g, L, M, ops[0], j);
      FileSlotOf(M, j);
      RunSpares(Step(s, g, ops[0]), g, M, ops[1..], j);
      SparesOn(s.v, Step(s, g, ops[0]).v, After(s, g, ops).v, L.chains[j]);
    }
  }

  /** So whatever reads are made from a handle on it deliver the same bytes and leave the same handle. */
  lemma ReadersKept(s: State, g: Geometry, L: Ledger, ops: seq<Op>, j: Slot, h: Handle, counts: seq<nat>)
    requires Fits(s.v, g) && Sound(s, g, L) && Run(s, g, ops) && NeverTouches(s, g, ops, j)
    requires OwnsFile(L, j) && j in L.chains && h.current in L.chains[j] && h.position <= h.size
    ensures IsValidCluster(h.current) && h.current < |s.v.data| && Fits(After(s, g, ops).v, g) && |After(s, g, ops).v.data| == |s.v.data|
    ensures ReadMany(After(s, g, ops).v, g.ClusterSize(), h, counts) == ReadMany(s.v, g.ClusterSize(), h, counts)
  {
    hide Consistent, Coherent, Run, After, NeverTouches, OwnsFile, Spares, VolOk, ReadMany, IsChain;
    RunSpares(s, g, L, ops, j);
    ChainOf(s.v, g, L, j);
    SameSize(s.v, After(s, g, ops).v, g);
    SparedReads(s.v, After(s, g, ops).v, g.ClusterSize(), h, L.chains[j], counts);
  }

  // ---- opening a file again after the run ----

  /** A live entry that is not rewritten keeps its bytes over the run. */
  lemma {:induction false} EntryStays(s: State, g: Geometry, L: Ledger, ops: seq<Op>, j: Slot) returns (M: Ledger)
    requires Fits(s.v, g) && Sound(s, g, L) && Run(s, g, ops) && NeverTouches(s, g, ops, j)
    requires InTree(g, L.depth, j) && 2 <= j.dir < |s.v.data| && Live(EntryOf(s.v, g, j))
    ensures var w := After(s, g, ops).v;
            && Sound(After(s, g, ops), g, M) && Fits(w, g) && InTree(g, M.depth, j) && j.dir < |w.data|
            && EntryOf(w, g, j) == EntryOf(s.v, g, j)
    decreases |ops|
  {
    hide Sound, Legal, Step, Touches, Live, EntryOf, Ready, Fits;
    M := L;
    if ops != [] {
      var K := StepKeeps(s, g, L, ops[0]);
      SoundMeans(Step(s, g, ops[0]), g, K);
      SameSize(s.v, Step(s, g, ops[0]).v, g);
      M := EntryStays(Step(s, g, ops[0]), g, K, ops[1..], j);
    }
  }

  lemma SameSize(v: Vol, w: Vol, g: Geometry)
    requires Fits(v, g) && Fits(w, g)
    ensures |w.data| == |v.data|
  {
  }

  /** A live file entry that names a cluster owns its chain. */
  lemma EntryOwnsFile(v: Vol, g: Geometry, L: Ledger, j: Slot)
    requires Fits(v, g) && Consistent(v, g, L) && InTree(g, L.depth, j) && 2 <= j.dir < |v.data|
    requires Live(EntryOf(v, g, j)) && !IsDir(EntryOf(v, g, j)) && First(EntryOf(v, g, j)) != 0
    ensures OwnsFile(L, j) && j in L.chains && L.chains[j] != [] && L.chains[j][0] == First(EntryOf(v, g, j))
  {
    hide Owned, DirsOk, KeysOk, CanonicalEntry, NameOf, First, Live, IsDir, EntryOf;
    assert EntryOk(EntryOf(v, g, j), g, L, j);
    forall c | c in L.chains[j]
      ensures c !in L.depth
    {
      if c in L.depth {
        DirsNotIn(v, g, L, j, c);
        InOwnChain(v, g, L, j, c);
        assert false;
      }
    }
  }

  lemma InOwnChain(v: Vol, g: Geometry, L: Ledger, j: Slot, c: nat)
    requires Consistent(v, g, L) && j in L.chains && c in L.chains[j]
    ensures c in L.owner && L.owner[c] == j
  {
    hide DirsOk, EntriesOk, KeysOk, ChainsOk, Covered, InRange;
    assert Holds(L.chains, j, c);
  }

  /** Over every legal run that leaves its slot alone, a file stays: the path that opened it before the run
      opens it after, with the same handle, and whatever reads are made from that deliver the same bytes. */
  lemma FileSurvives(s: State, g: Geometry, L: Ledger, ops: seq<Op>, j: Slot, cwd: nat, path: seq<byte>, counts: seq<nat>)
    requires Fits(s.v, g) && Sound(s, g, L) && Run(s, g, ops) && NeverTouches(s, g, ops, j)
    requires InTree(g, L.depth, j) && 2 <= j.dir < |s.v.data| && Denotes(s.v, g, j, cwd, path)
    requires Live(EntryOf(s.v, g, j)) && !IsDir(EntryOf(s.v, g, j))
    ensures Open(s.v, g, cwd, path).Some?
    ensures Fits(After(s, g, ops).v, g) && Open(After(s, g, ops).v, g, cwd, path) == Open(s.v, g, cwd, path)
    ensures var (w, h) := (After(s, g, ops).v, Open(s.v, g, cwd, path).value);
            && h.position <= h.size && (IsValidCluster(h.current) ==> h.current < |s.v.data| == |w.data|)
            && ReadMany(w, g.ClusterSize(), h, counts) == ReadMany(s.v, g.ClusterSize(), h, counts)
  {
    hide Consistent, Coherent, Run, After, NeverTouches, Open, OwnsFile, Live, IsDir, First, Size, NameOf, Canonical, Name83, EntryOf, ReadMany, VolOk;
    var M := EntryStays(s, g, L, ops, j);
    OpensAs(s.v, g, L, j, cwd, path);
    OpensAs(After(s, g, ops).v, g, M, j, cwd, path);
    SameSize(s.v, After(s, g, ops).v, g);
    var h := Open(s.v, g, cwd, path).value;
    if First(EntryOf(s.v, g, j)) != 0 {
      EntryOwnsFile(s.v, g, L, j);
      ReadersKept(s, g, L, ops, j, h, counts);
    } else {
      NoClusterReads(s.v, g.ClusterSize(), h, counts);
      NoClusterReads(After(s, g, ops).v, g.ClusterSize(), h, counts);
    }
  }

  /** A handle without a cluster reads nothing. */
  lemma {:induction false} NoClusterReads(v: Vol, cs: nat, h: Handle, counts: seq<nat>)
    requires VolOk(v, cs) && h.current == 0 && h.position <= h.size
    ensures ReadMany(v, cs, h, counts) == ([], h)
    decreases |counts|
  {
    if counts != [] {
      NoClusterReads(v, cs, h, counts[1..]);
    }
  }

  /** What reading on from that handle delivers is the same as well. */
  lemma FileContents(s: State, g: Geometry, L: Ledger, ops: seq<Op>, j: Slot, h: Handle, content: seq<byte>)
    requires Fits(s.v, g) && Sound(s, g, L) && Run(s, g, ops) && NeverTouches(s, g, ops, j)
    requires InTree(g, L.depth, j) && 2 <= j.dir < |s.v.data| && Live(EntryOf(s.v, g, j)) && !IsDir(EntryOf(s.v, g, j))
    requires h.first == First(EntryOf(s.v, g, j)) != 0 && Reading(s.v, g.ClusterSize(), h, content)
    ensures Fits(After(s, g, ops).v, g) && Reading(After(s, g, ops).v, g.ClusterSize(), h, content)
  {
    hide Consistent, Coherent, Run, After, NeverTouches, Reading, OwnsFile, Live, IsDir, First, EntryOf, Spares, VolOk;
    EntryOwnsFile(s.v, g, L, j);
    RunSpares(s, g, L, ops, j);
    ChainOf(s.v, g, L, j);
    SparedContents(s.v, After(s, g, ops).v, g.ClusterSize(), h, L.chains[j], content);
  }

  /** In a consistent volume any file entry with a cluster can be read on, whatever size it claims. */
  lemma FilesRead(v: Vol, g: Geometry, L: Ledger, j: Slot, cwd: nat, path: seq<byte>)
    requires Fits(v, g) && Consistent(v, g, L) && InTree(g, L.depth, j) && 2 <= j.dir < |v.data| && Denotes(v, g, j, cwd, path)
    requires Live(EntryOf(v, g, j)) && !IsDir(EntryOf(v, g, j)) && First(EntryOf(v, g, j)) != 0
    ensures j in L.chains && L.chains[j] != [] && Sized(v.data, L.chains[j], g.ClusterSize()) && Open(v, g, cwd, path).Some?
    ensures var h := Open(v, g, cwd, path).value;
            && h.position == 0
            && Reading(v, g.ClusterSize(), h, Unrolled(v.data, L.chains[j], g.ClusterSize(), h.size))
  {
    hide Consistent, Open, OwnsFile, Live, IsDir, First, Size, NameOf, Canonical, Name83, EntryOf, InRange, Unrolled;
    OpensAs(v, g, L, j, cwd, path);
    EntryOwnsFile(v, g, L, j);
    ChainOf(v, g, L, j);
    var h, xs, cs := Open(v, g, cwd, path).value, L.chains[j], g.ClusterSize();
    assert Blocks(0, cs) == 0;
    assert Along(v, cs, h, xs, 0);
    AlongSized(v, cs, h, xs, 0);
    assert Yields(v, cs, h, xs, 0, Unrolled(v.data, xs, cs, h.size));
  }

  lemma SoundMeans(s: State, g: Geometry, L: Ledger)
    requires Sound(s, g, L)
    ensures Fits(s.v, g) && Consistent(s.v, g, L)
  {
  }

  lemma FileSlotOf(L: Ledger, j: Slot)
    requires OwnsFile(L, j)
    ensures j in L.chains
  {
  }
}
