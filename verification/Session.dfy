/** Every run of writes, deletes, mkdirs and chdirs from a consistent volume. */
module Session {
  import opened Bytes
  import opened FatTable
  import opened Layout
  import opened Names
  import opened Directory
  import opened Operations
  import opened Consistency
  import opened Runs
  import opened Space
  import opened WorkDir

  datatype State = State(v: Vol, cwd: Cwd)

  datatype Op =
    | Write(path: seq<byte>, bytes: seq<byte>)
    | Delete(path: seq<byte>)
    | Mkdir(path: seq<byte>)
    | Chdir(path: seq<byte>)

  ghost predicate Ready(s: State, g: Geometry) {
    Fits(s.v, g) && 0 < |s.cwd.path| < 255
  }

  /** Paths as C strings, with a last component where one is needed. */
  predicate Callable(op: Op) {
    0 !in op.path && ((op.Write? || op.Mkdir?) ==> op.path != [] && op.path[|op.path| - 1] != SLASH)
  }

  /** The calls a session makes: C strings, canonical names, no write or delete of a directory, no write
      without room for it, no chdir that loses track or outgrows the path buffer. All of it can be told
      before the call; a call may fail for any other reason. */
  ghost predicate Legal(s: State, g: Geometry, op: Op)
    requires Ready(s, g)
  {
    Callable(op) &&
    match op
    case Write(path, bytes) =>
      |bytes| < 0x1_0000_0000 && FilePath(s.v, g, s.cwd.cluster, path) && WriteFits(s.v, g, s.cwd.cluster, path, bytes)
    case Delete(path) => NotDir(s.v, g, path)
    case Mkdir(path) =>
      var nav := Navigate(s.v, g, s.cwd.cluster, path);
      && !nav.NotFound?
      && (nav.Missing? && 2 <= nav.parent < |s.v.data| && CanMake(s.v, g, nav.parent, nav.name) ==> Canonical(nav.name))
    case Chdir(path) =>
      KeepsTrack(s.v, g, s.cwd.cluster, path) && PathRoom(s.cwd.path, path)
  }

  ghost predicate NotDir(v: Vol, g: Geometry, path: seq<byte>)
    requires Fits(v, g)
  {
    Name83(StripSlash(path)).Some? ==>
      var s := LookUp(v, g, g.rootCluster, Packed(Name83(StripSlash(path)).value));
      s.Some? ==> !IsDir(s.value)
  }

  ghost function Step(s: State, g: Geometry, op: Op): State
    requires Ready(s, g) && Legal(s, g, op)
  {
    match op
    case Write(path, bytes) => s.(v := WriteFile(s.v, g, s.cwd.cluster, path, bytes).v)
    case Delete(path) => s.(v := DeleteFile(s.v, g, path).v)
    case Mkdir(path) => s.(v := MakeDir(s.v, g, s.cwd.cluster, path).v)
    case Chdir(path) =>
      match ChangeDir(s.v, g, s.cwd, path)
      case None => s
      case Some(next) => s.(cwd := next)
  }

  ghost predicate Run(s: State, g: Geometry, ops: seq<Op>)
    decreases |ops|
  {
    ops == [] || (Ready(s, g) && Legal(s, g, ops[0]) && Run(Step(s, g, ops[0]), g, ops[1..]))
  }

  ghost function After(s: State, g: Geometry, ops: seq<Op>): State
    requires Run(s, g, ops)
    decreases |ops|
  {
    if ops == [] then s else After(Step(s, g, ops[0]), g, ops[1..])
  }

  /** The session invariant: a consistent volume and a coherent working directory in it. */
  ghost predicate Sound(s: State, g: Geometry, L: Ledger) {
    Ready(s, g) && Consistent(s.v, g, L) && s.cwd.cluster in L.depth && Coherent(s.v, g, s.cwd)
  }

  /** The operation rewrites slot `j`. */
  ghost predicate Touches(s: State, g: Geometry, op: Op, j: Slot)
    requires Fits(s.v, g)
  {
    match op
    case Write(path, _) => WrittenSlot(s.v, g, s.cwd.cluster, path) == Some(j)
    case Delete(path) => ErasedSlot(s.v, g, path) == Some(j)
    case _ => false
  }

  /** Live entries that the operation does not rewrite keep their bytes. */
  ghost predicate EntriesKept(s: State, g: Geometry, op: Op, depth: map<nat, nat>, w: Vol)
    requires Fits(s.v, g)
  {
    && Fits(w, g)
    && forall j :: InTree(g, depth, j) && 2 <= j.dir < |s.v.data| && Live(EntryOf(s.v, g, j)) && !Touches(s, g, op, j) ==>
         EntryOf(w, g, j) == EntryOf(s.v, g, j)
  }

  /** Slots the operation does not touch own in `M` what they owned in `L`, their entries are the same, no
      directory is gone, and the only new one is a cluster that was free. */
  ghost predicate Follows(s: State, g: Geometry, op: Op, L: Ledger, M: Ledger)
    requires Ready(s, g) && Legal(s, g, op)
  {
    && (forall j :: j in L.chains && !Touches(s, g, op, j) ==> SameChainOf(L, M, j))
    && EntriesKept(s, g, op, L.depth, Step(s, g, op).v)
    && (forall d :: d in L.depth ==> d in M.depth)
    && (forall d :: d in M.depth && d !in L.depth ==> d < |s.v.fat| && s.v.fat[d] == 0)
  }

  lemma WriteStep(s: State, g: Geometry, L: Ledger, path: seq<byte>, bytes: seq<byte>) returns (M: Ledger)
    requires Sound(s, g, L) && Legal(s, g, Write(path, bytes))
    ensures Sound(Step(s, g, Write(path, bytes)), g, M) && Follows(s, g, Write(path, bytes), L, M)
  {
    hide Consistent, Coherent, WriteFile, FilePath, DirEntriesKept, WrittenSlot, WriteFits, Room, EntryOf, Live;
    M := L;
    WriteLedger(s.v, g, L, s.cwd.cluster, path, bytes);
    if WriteFile(s.v, g, s.cwd.cluster, path, bytes).Done? {
      M := WritePreserves(s.v, g, L, s.cwd.cluster, path, bytes);
      CoherenceKept(s.v, g, L, WriteFile(s.v, g, s.cwd.cluster, path, bytes).v, M, s.cwd);
    }
  }

  lemma DeleteStep(s: State, g: Geometry, L: Ledger, path: seq<byte>) returns (M: Ledger)
    requires Sound(s, g, L) && Legal(s, g, Delete(path))
    ensures Sound(Step(s, g, Delete(path)), g, M) && Follows(s, g, Delete(path), L, M)
  {
    hide Consistent, Coherent, DirEntriesKept, Name83, LookUp, Scan, WithoutChain, Erased, PutSlot, ErasedSlot, EntryOf, Live;
    M := L;
    if DeleteFile(s.v, g, path).Done? {
      M := DeletePreserves(s.v, g, L, path);
      CoherenceKept(s.v, g, L, DeleteFile(s.v, g, path).v, M, s.cwd);
    }
  }

  /** Changing clusters that no chain uses changes nothing that matters. */
  lemma FreeDataKept(v: Vol, g: Geometry, L: Ledger, w: Vol)
    requires Fits(v, g) && Fits(w, g) && Consistent(v, g, L) && w.fat == v.fat
    requires forall c :: 2 <= c < |v.fat| && v.fat[c] != 0 ==> w.data[c] == v.data[c]
    ensures Consistent(w, g, L) && DirEntriesKept(v, g, L.depth, w) && OthersKept(v, g, L.depth, w, Slot(0, 2))
  {
    hide Owned, KeysOk, EntryOk, CanonicalEntry, Tidy, NamedBy, Live;
    forall d | d in L.depth
      ensures 2 <= d < |v.data| && w.data[d] == v.data[d] && d in L.owner && Tidy(w.data[d], Slots(g))
    {
      assert DirOk(v, g, L, d);
      OwnedIsUsed(v.fat, L.chains, L.owner, d);
    }
    var nowhere := Slot(0, 2);
    assert Frame(v, g, L, w, L, nowhere);
    FrameKeepsOthers(v, g, L, w, L, nowhere);
    forall d | d in L.depth
      ensures DirOk(w, g, L, d)
    {
      assert DirOk(v, g, L, d);
      NowhereOwner(v, g, L, d);
      DirKept(v, g, L, w, L, nowhere, d);
    }
    forall j | InTree(g, L.depth, j)
      ensures 2 <= j.dir < |w.data| && EntryOk(EntryOf(w, g, j), g, L, j)
    {
      EntryKept(v, g, L, w, L, nowhere, j);
    }
  }

  lemma NowhereOwner(v: Vol, g: Geometry, L: Ledger, d: nat)
    requires Consistent(v, g, L) && d in L.depth
    ensures d in L.owner && L.owner[d] != Slot(0, 2)
  {
    hide Owned, EntriesOk, KeysOk, Tidy;
    assert DirOk(v, g, L, d);
  }

  lemma MkdirStep(s: State, g: Geometry, L: Ledger, path: seq<byte>) returns (M: Ledger)
    requires Sound(s, g, L) && Legal(s, g, Mkdir(path))
    ensures Sound(Step(s, g, Mkdir(path)), g, M) && Follows(s, g, Mkdir(path), L, M)
  {
    hide Consistent, Coherent, DirEntriesKept, Navigate, MakeDirIn, LookUp, Canonical, CanMake, EntryOf, Live, ScanFree;
    M := L;
    NavigateIs(s.v, g, L, s.cwd.cluster, path);
    var nav := Navigate(s.v, g, s.cwd.cluster, path);
    if nav.Missing? {
      var o := MakeDirIn(s.v, g, nav.parent, nav.name);
      if o.Done? {
        DirInUse(s.v, g, L, nav.parent);
        MkdirSucceeds(s.v, g, nav.parent, nav.name);
        CanonicalNotEmpty(nav.name);
        M := MkdirPreserves(s.v, g, L, nav.parent, nav.name);
        FirstOfFrees(s.v.fat, 2);
      } else {
        FailedMkdirRestores(s.v, g, nav.parent, nav.name);
        FreeDataKept(s.v, g, L, o.v);
      }
      CoherenceKept(s.v, g, L, o.v, M, s.cwd);
    }
  }

  lemma ChdirStep(s: State, g: Geometry, L: Ledger, path: seq<byte>)
    requires Sound(s, g, L) && Legal(s, g, Chdir(path))
    ensures Sound(Step(s, g, Chdir(path)), g, L) && Follows(s, g, Chdir(path), L, L)
  {
    hide Consistent, Coherent, Navigate, KeepsTrack, PathRoom, First, IsDir, ParentPath, ChildPath;
    if ChangeDir(s.v, g, s.cwd, path).Some? {
      NavigateIs(s.v, g, L, s.cwd.cluster, path);
      PathRoomIs(s.v, g, s.cwd, path);
      ChdirExact(s.v, g, L, s.cwd, path);
    }
  }

  /** Every legal step keeps the session sound. */
  lemma StepKeeps(s: State, g: Geometry, L: Ledger, op: Op) returns (M: Ledger)
    requires Sound(s, g, L) && Legal(s, g, op)
    ensures Sound(Step(s, g, op), g, M) && Follows(s, g, op, L, M)
  {
    hide Sound, Legal, Step, Ready, Follows;
    match op {
      case Write(path, bytes) => M := WriteStep(s, g, L, path, bytes);
      case Delete(path) => M := DeleteStep(s, g, L, path);
      case Mkdir(path) => M := MkdirStep(s, g, L, path);
      case Chdir(path) =>
        ChdirStep(s, g, L, path);
        M := L;
    }
  }

  /** Volume consistency and working-directory coherence hold after every run. */
  lemma {:induction false} RunKeeps(s: State, g: Geometry, L: Ledger, ops: seq<Op>) returns (M: Ledger)
    requires Sound(s, g, L) && Run(s, g, ops)
    ensures Sound(After(s, g, ops), g, M)
    decreases |ops|
  {
    hide Sound, Legal, Step;
    M := L;
    if ops != [] {
      M := StepKeeps(s, g, L, ops[0]);
      M := RunKeeps(Step(s, g, ops[0]), g, M, ops[1..]);
    }
  }
}
