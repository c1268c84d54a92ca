/** From the image builder to the mounted driver: the driver's methods carry out any legal session on a
    built image, and programs on it load. */
module Boot {
  import opened Bytes
  import opened FatTable
  import opened Layout
  import opened Names
  import opened Directory
  import opened Files
  import opened Operations
  import opened Driver
  import opened Consistency
  import opened Runs
  import opened WorkDir
  import opened Session
  import opened Builder
  import opened BuiltVolume
  import opened OtherFiles
  import Elf

  // ---- what consistency gives the driver ----

  /** In a consistent volume every slot of every directory starts a chain that can be freed. */
  lemma SlotsFreeable(v: Vol, g: Geometry, L: Ledger, d: nat)
    requires Fits(v, g) && Consistent(v, g, L) && d in L.depth
    ensures WritableIn(v, g, d)
  {
    hide Owned, KeysOk, CanonicalEntry, NamedBy, Tidy, First, IsDir, NameOf;
    assert DirOk(v, g, L, d);
    forall p | 0 <= p < Slots(g)
      ensures Freeable(v, First(SlotAt(v.data[d], p)))
    {
      SlotFreeable(v, g, L, Slot(d, p));
    }
  }

  lemma SlotFreeable(v: Vol, g: Geometry, L: Ledger, k: Slot)
    requires Fits(v, g) && Consistent(v, g, L) && InTree(g, L.depth, k) && 2 <= k.dir < |v.data|
    ensures Freeable(v, First(EntryOf(v, g, k)))
  {
    hide KeysOk, CanonicalEntry, First, IsDir, NameOf, IsChain;
    var s := EntryOf(v, g, k);
    assert DirOk(v, g, L, k.dir) && EntryOk(s, g, L, k);
    if !Live(s) {
      TidyDead(v.data[k.dir], Slots(g), k.index);
    } else if IsDot(g, k) {
      DotFreeable(v, g, L, k);
    } else if First(s) != 0 {
      HeadInRange(v.fat, L.chains, L.owner, k);
    }
  }

  /** A free slot of a tidy directory holds cluster 0. */
  lemma TidyDead(buf: seq<byte>, n: nat, i: nat)
    requires Tidy(buf, n) && i < n && !Live(SlotAt(buf, i))
    ensures First(SlotAt(buf, i)) == 0
  {
    assert TidySlot(SlotAt(buf, i));
  }

  lemma HeadInRange(fat: seq<nat>, chains: map<Slot, seq<nat>>, owner: map<nat, Slot>, k: Slot)
    requires Owned(fat, chains, owner) && k in chains && chains[k] != []
    ensures chains[k][0] < |fat|
  {
  }

  lemma DotFreeable(v: Vol, g: Geometry, L: Ledger, k: Slot)
    requires Fits(v, g) && Consistent(v, g, L) && InTree(g, L.depth, k) && 2 <= k.dir < |v.data| && IsDot(g, k)
    requires Live(EntryOf(v, g, k))
    ensures Freeable(v, First(EntryOf(v, g, k)))
  {
    hide Owned, KeysOk, CanonicalEntry, First, NameOf, Tidy, Live;
    var s := EntryOf(v, g, k);
    assert EntryOk(s, g, L, k) && IsDir(s);
    assert DirOk(v, g, L, k.dir);
    Descend(v, g, L, k);
    assert DirOk(v, g, L, First(s));
  }

  // ---- running a session on the driver ----

  ghost function StateOf(fs: Fat32): (s: State)
    requires fs.Valid()
    reads fs, fs.cache
  {
    State(fs.V(), Cwd(fs.cwd, fs.path))
  }

  /** What the driver's call returns: success, as a condition on the state before it. */
  ghost predicate Succeeds(s: State, g: Geometry, op: Op)
    requires Ready(s, g) && Legal(s, g, op)
  {
    match op
    case Write(path, bytes) => WriteFile(s.v, g, s.cwd.cluster, path, bytes).Done?
    case Delete(path) => DeleteFile(s.v, g, path).Done?
    case Mkdir(path) => MakeDir(s.v, g, s.cwd.cluster, path).Done?
    case Chdir(path) => ChangeDir(s.v, g, s.cwd, path).Some?
  }

  /** One legal call, made on the driver. */
  method Perform(fs: Fat32, op: Op, ghost L: Ledger) returns (ok: bool, ghost M: Ledger)
    requires fs.Valid() && Sound(StateOf(fs), fs.g, L) && Legal(StateOf(fs), fs.g, op)
    modifies fs`disk, fs`cwd, fs`path, fs`cacheSector, fs.cache
    ensures ok <==> Succeeds(old(StateOf(fs)), fs.g, op)
    ensures fs.Valid() && StateOf(fs) == Step(old(StateOf(fs)), fs.g, op) && Sound(StateOf(fs), fs.g, M)
  {
    hide VolOf, Mirrored, Caches, Consistent, Coherent, WriteFile, DeleteFile, MakeDir, ChangeDir, WritableIn, DirsClosed, KeepsTrack, PathRoom, FilePath, NotDir, Navigate;
    M := StepKeeps(StateOf(fs), fs.g, L, op);
    DirsAreClosed(fs.V(), fs.g, L);
    match op {
      case Write(path, bytes) =>
        WritablePath(fs.V(), fs.g, L, fs.cwd, path);
        ok := fs.Write(path, bytes, L.depth.Keys);
      case Delete(path) =>
        SlotsFreeable(fs.V(), fs.g, L, fs.g.rootCluster);
        ok := fs.Delete(path);
      case Mkdir(path) =>
        NavigateIs(fs.V(), fs.g, L, fs.cwd, path);
        ok := fs.Mkdir(path, L.depth.Keys);
      case Chdir(path) =>
        ok := fs.Chdir(path, L.depth.Keys);
    }
  }

  lemma WritablePath(v: Vol, g: Geometry, L: Ledger, cwd: nat, path: seq<byte>)
    requires Fits(v, g) && Consistent(v, g, L) && cwd in L.depth
    ensures Writable(v, g, cwd, path)
  {
    hide Consistent, Navigate, WritableIn;
    NavigateIs(v, g, L, cwd, path);
    var nav := Navigate(v, g, cwd, path);
    if !nav.NotFound? {
      SlotsFreeable(v, g, L, nav.parent);
    }
  }

  lemma NextStep(s: State, g: Geometry, ops: seq<Op>)
    requires Run(s, g, ops) && ops != []
    ensures Ready(s, g) && Legal(s, g, ops[0]) && Run(Step(s, g, ops[0]), g, ops[1..])
    ensures After(s, g, ops) == After(Step(s, g, ops[0]), g, ops[1..])
  {
    hide Legal, Step, Ready;
  }

  /** A whole legal session, made on the driver: it ends in the state the session specifies, sound. */
  method Replay(fs: Fat32, ops: seq<Op>, ghost L: Ledger) returns (ghost M: Ledger)
    requires fs.Valid() && Sound(StateOf(fs), fs.g, L) && Run(StateOf(fs), fs.g, ops)
    modifies fs`disk, fs`cwd, fs`path, fs`cacheSector, fs.cache
    ensures fs.Valid() && StateOf(fs) == After(old(StateOf(fs)), fs.g, ops) && Sound(StateOf(fs), fs.g, M)
  {
    hide StateOf, Sound, Run, After, Legal, Step, Ready;
    M := L;
    var i := 0;
    while i < |ops|
      invariant 0 <= i <= |ops| && fs.Valid() && Sound(StateOf(fs), fs.g, M) && Run(StateOf(fs), fs.g, ops[i..])
      invariant After(StateOf(fs), fs.g, ops[i..]) == After(old(StateOf(fs)), fs.g, ops)
    {
      NextStep(StateOf(fs), fs.g, ops[i..]);
      assert ops[i..][0] == ops[i] && ops[i..][1..] == ops[i + 1..];
      var ok;
      ok, M := Perform(fs, ops[i], M);
      i := i + 1;
    }
    RunEnd(StateOf(fs), fs.g, ops[i..]);
  }

  lemma RunEnd(s: State, g: Geometry, ops: seq<Op>)
    requires Run(s, g, ops) && ops == []
    ensures After(s, g, ops) == s
  {
  }

  /** Build an image and mount it: the driver finds the builder's layout in the boot sector. */
  method BuildAndMount(files: seq<FileSpec>) returns (fs: Fat32)
    requires Placeable(files)
    ensures fresh(fs) && fresh(fs.cache) && fs.Valid() && fs.g == G && fs.disk == Image(files)
    ensures fs.V() == Mounted(files) && fs.cwd == 2 && fs.path == [SLASH]
  {
    hide Image, VolOf, Placeable, Mount, Mirrored, Caches;
    ImageMounts(files);
    var image := Build(files);
    var mounted := MountDisk(image[..], PARTITION_START);
    fs := mounted.value;
  }

  /** Build an image, mount it and run any legal session on it: the volume is consistent at the end and
      the working directory is the one its path names. */
  method BuildMountRun(files: seq<FileSpec>, ops: seq<Op>) returns (fs: Fat32, ghost M: Ledger)
    requires Buildable(files)
    requires Run(State(Mounted(files), Cwd(2, [SLASH])), G, ops)
    ensures fresh(fs) && fs.Valid() && fs.g == G
    ensures StateOf(fs) == After(State(Mounted(files), Cwd(2, [SLASH])), G, ops) && Sound(StateOf(fs), G, M)
  {
    hide Image, VolOf, Sound, Run, After;
    BuiltSound(files, Mounted(files));
    fs := BuildAndMount(files);
    M := Replay(fs, ops, BuiltLedger(files));
  }

  // ---- built files survive ----

  /** The path of a file in the root directory. */
  function RootPath(f: FileSpec): seq<byte> {
    [SLASH] + FullName(f)
  }

  /** A built file's slot is live, is no directory and answers to the file's path. */
  lemma BuiltSlotNamed(files: seq<FileSpec>, v: Vol, i: nat, cwd: nat)
    requires Buildable(files) && v == Mounted(files) && i < |files|
    ensures Fits(v, G) && Consistent(v, G, BuiltLedger(files)) && InTree(G, BuiltLedger(files).depth, Slot(2, i)) && 2 < |v.data|
    ensures Live(EntryOf(v, G, Slot(2, i))) && !IsDir(EntryOf(v, G, Slot(2, i)))
    ensures Denotes(v, G, Slot(2, i), cwd, RootPath(files[i])) && Denotes(v, G, Slot(2, i), 2, FullName(files[i]))
  {
    hide Image, VolOf, FirstOf, CountOf, PadName, RootDir, Consistent, Name83, Chains, Owners, Live, IsDir, NameOf, TidySlot, Accepted, First;
    GeometryOk();
    BuiltConsistent(files, v);
    BuiltFits(files, v);
    BuiltSlot(files, v.data[2], i);
    PadIsPack(files[i]);
    PlainStrip(FullName(files[i]));
  }

  /** Whatever legal calls are made on a mounted image, a file whose slot they do not rewrite opens as it did
      before, from any directory, and has the bytes the builder gave it, in whatever chunks they are read. */
  lemma BuiltFileSurvives(files: seq<FileSpec>, v: Vol, ops: seq<Op>, i: nat, cwd: nat, counts: seq<nat>)
    requires Buildable(files) && v == Mounted(files) && i < |files|
    requires Run(State(v, Cwd(2, [SLASH])), G, ops) && NeverTouches(State(v, Cwd(2, [SLASH])), G, ops, Slot(2, i))
    ensures Fits(v, G) && Open(v, G, 2, FullName(files[i])).Some? && Fits(After(State(v, Cwd(2, [SLASH])), G, ops).v, G)
    ensures var w := After(State(v, Cwd(2, [SLASH])), G, ops).v;
            && Open(w, G, cwd, RootPath(files[i])) == Open(v, G, 2, FullName(files[i]))
            && var h := Open(w, G, cwd, RootPath(files[i])).value;
               && h.position == 0 && Reading(w, CLUSTER, h, files[i].data)
               && ReadMany(w, CLUSTER, h, counts).0 == Slice(files[i].data, 0, Clip(files[i].data, 0, Sum(counts)))
  {
    hide Image, VolOf, Mounted, Buildable, Sound, Run, After, NeverTouches, Open, Reading, BuiltLedger, FirstOf, Consistent, Denotes, Live, IsDir, EntryOf, RootPath, ReadMany, Sum, First;
    GeometryOk();
    BuiltFileReads(files, v, i, counts);
    BuiltSound(files, v);
    BuiltSlotNamed(files, v, i, cwd);
    var j, L, s := Slot(2, i), BuiltLedger(files), State(v, Cwd(2, [SLASH]));
    OpensAs(v, G, L, j, cwd, RootPath(files[i]));
    OpensAs(v, G, L, j, 2, FullName(files[i]));
    FileSurvives(s, G, L, ops, j, cwd, RootPath(files[i]), counts);
    FirstIsCluster(files, i);
    FileContents(s, G, L, ops, j, Open(v, G, 2, FullName(files[i])).value, files[i].data);
  }

  lemma FirstIsCluster(files: seq<FileSpec>, i: nat)
    requires i < |files|
    ensures FirstOf(files, i) != 0
  {
  }

  // ---- loading a program from a built image ----

  /** A program stored by the builder is loaded byte for byte, after whatever legal calls that do not
      rewrite its slot. */
  lemma BuiltProgramLoads(files: seq<FileSpec>, v: Vol, ops: seq<Op>, i: nat, cwd: nat, mem: map<nat, byte>)
    requires Buildable(files) && v == Mounted(files) && i < |files|
    requires Run(State(v, Cwd(2, [SLASH])), G, ops) && NeverTouches(State(v, Cwd(2, [SLASH])), G, ops, Slot(2, i))
    requires Elf.Loadable(files[i].data) && Elf.Unwrapped(Elf.Phdrs(files[i].data))
    ensures var w := After(State(v, Cwd(2, [SLASH])), G, ops).v;
            && Fits(w, G) && Open(w, G, cwd, RootPath(files[i])).Some?
            && var h := Open(w, G, cwd, RootPath(files[i])).value;
               && Elf.Usable(w, CLUSTER, h)
               && Elf.Load(w, CLUSTER, h, mem).0 == Some(Elf.Entry(Slice(files[i].data, 0, Elf.EHDR)))
               && forall a: nat :: Elf.Peek(Elf.Load(w, CLUSTER, h, mem).1, a)
                    == Elf.ImageByte(files[i].data, Elf.Phdrs(files[i].data), mem, a)
  {
    hide Image, VolOf, Mounted, Buildable, Open, Reading, Run, After, NeverTouches, RootPath, FullName, Elf.Load, Elf.Loadable, Elf.Unwrapped, Elf.Phdrs, Elf.Peek, Elf.ImageByte;
    BuiltFileReads(files, v, i, []);
    BuiltFileSurvives(files, v, ops, i, cwd, []);
    var w := After(State(v, Cwd(2, [SLASH])), G, ops).v;
    Elf.LoadMeans(w, CLUSTER, Open(w, G, cwd, RootPath(files[i])).value, files[i].data, mem);
  }
}
