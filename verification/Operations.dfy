/** What the driver's file and directory operations do to an abstract volume. */
module Operations {
  import opened Bytes
  import opened FatTable
  import opened Layout
  import opened Names
  import opened Directory
  import opened Files

  /** Slots in a directory, which is always one cluster. */
  function Slots(g: Geometry): nat {
    16 * g.sectorsPerCluster
  }

  ghost predicate Fits(v: Vol, g: Geometry) {
    && g.Ok() && VolOk(v, g.ClusterSize()) && |v.data| == g.Clusters()
  }

  /** The entry of directory `d` that answers to `key`. */
  function LookUp(v: Vol, g: Geometry, d: nat, key: Key): (r: Option<seq<byte>>)
    requires Fits(v, g)
    ensures r.Some? ==> |r.value| == SLOT
  {
    if !(2 <= d < |v.data|) then None
    else
      match Scan(v.data[d], Slots(g), 0, key)
      case None => None
      case Some(i) => Some(SlotAt(v.data[d], i))
  }

  // ---- paths ----

  datatype Nav = NotFound | Missing(parent: nat, name: seq<byte>) | Found(parent: nat, name: seq<byte>, slot: seq<byte>)

  /** `fat32_navigate_path` from byte `i` of the path, in directory `d`, with `comp` read so far. */
  function Walk(v: Vol, g: Geometry, d: nat, path: seq<byte>, i: nat, comp: seq<byte>): (r: Nav)
    requires Fits(v, g) && i <= |path|
    ensures r.Found? ==> |r.slot| == SLOT
    decreases |path| - i
  {
    if i == |path| then
      if comp == [] then Missing(d, comp)
      else
        match LookUp(v, g, d, Text(comp))
        case None => Missing(d, comp)
        case Some(s) => Found(d, comp, s)
    else if path[i] != SLASH then
      Walk(v, g, d, path, i + 1, if |comp| < 255 then comp + [path[i]] else comp)
    else if comp == [] then
      Walk(v, g, d, path, i + 1, [])
    else
      match LookUp(v, g, d, Text(comp))
      case None => NotFound
      case Some(s) => if IsDir(s) then Walk(v, g, First(s), path, i + 1, []) else NotFound
  }

  /** Directories that are closed under descending into entries. */
  ghost predicate DirsClosed(v: Vol, g: Geometry, dirs: set<nat>) {
    && Fits(v, g)
    && forall d :: d in dirs ==> 2 <= d < |v.data| && DescentsStay(v.data[d], Slots(g), dirs)
  }

  ghost predicate DescentsStay(buf: seq<byte>, n: nat, dirs: set<nat>) {
    && SLOT * n <= |buf|
    && forall i :: 0 <= i < n && SlotAt(buf, i)[0] != 0 && !Skipped(SlotAt(buf, i)) && IsDir(SlotAt(buf, i)) ==>
         First(SlotAt(buf, i)) in dirs
  }

  /** Walking stays within a closed set of directories. */
  lemma {:induction false} WalkStays(v: Vol, g: Geometry, dirs: set<nat>, d: nat, path: seq<byte>, i: nat, comp: seq<byte>)
    requires DirsClosed(v, g, dirs) && d in dirs && i <= |path|
    ensures var r := Walk(v, g, d, path, i, comp);
            (r.Missing? ==> r.parent in dirs) && (r.Found? ==> r.parent in dirs && (IsDir(r.slot) ==> First(r.slot) in dirs))
    decreases |path| - i
  {
    if i < |path| {
      if path[i] != SLASH {
        WalkStays(v, g, dirs, d, path, i + 1, if |comp| < 255 then comp + [path[i]] else comp);
      } else if comp == [] {
        WalkStays(v, g, dirs, d, path, i + 1, []);
      } else {
        var s := LookUp(v, g, d, Text(comp));
        if s.Some? && IsDir(s.value) {
          WalkStays(v, g, dirs, First(s.value), path, i + 1, []);
        }
      }
    }
  }

  /** A walk ends with the lookup of its last component. */
  lemma {:induction false} WalkEnds(v: Vol, g: Geometry, d: nat, path: seq<byte>, i: nat, comp: seq<byte>)
    requires Fits(v, g) && i <= |path|
    ensures var r := Walk(v, g, d, path, i, comp);
            && (r.Found? ==> r.name != [] && LookUp(v, g, r.parent, Text(r.name)) == Some(r.slot))
            && (r.Missing? && r.name != [] ==> LookUp(v, g, r.parent, Text(r.name)) == None)
    decreases |path| - i
  {
    hide LookUp;
    WalkStep(v, g, d, path, i, comp);
    if i < |path| {
      if path[i] != SLASH {
        WalkEnds(v, g, d, path, i + 1, if |comp| < 255 then comp + [path[i]] else comp);
      } else if comp == [] {
        WalkEnds(v, g, d, path, i + 1, []);
      } else {
        var s := LookUp(v, g, d, Text(comp));
        if s.Some? && IsDir(s.value) {
          WalkEnds(v, g, First(s.value), path, i + 1, []);
        }
      }
    }
  }

  /** One byte of the walk. */
  lemma WalkStep(v: Vol, g: Geometry, d: nat, path: seq<byte>, i: nat, comp: seq<byte>)
    requires Fits(v, g) && i <= |path|
    ensures Walk(v, g, d, path, i, comp)
            == if i == |path| then
                 (if comp == [] || LookUp(v, g, d, Text(comp)).None? then Missing(d, comp)
                  else Found(d, comp, LookUp(v, g, d, Text(comp)).value))
               else if path[i] != SLASH then Walk(v, g, d, path, i + 1, if |comp| < 255 then comp + [path[i]] else comp)
               else if comp == [] then Walk(v, g, d, path, i + 1, [])
               else if LookUp(v, g, d, Text(comp)).None? || !IsDir(LookUp(v, g, d, Text(comp)).value) then NotFound
               else Walk(v, g, First(LookUp(v, g, d, Text(comp)).value), path, i + 1, [])
  {
    hide LookUp;
  }

  lemma DescentIn(v: Vol, g: Geometry, dirs: set<nat>, d: nat, key: Key)
    requires DirsClosed(v, g, dirs) && d in dirs && LookUp(v, g, d, key).Some? && IsDir(LookUp(v, g, d, key).value)
    ensures First(LookUp(v, g, d, key).value) in dirs
  {
  }

  function Navigate(v: Vol, g: Geometry, cwd: nat, path: seq<byte>): (r: Nav)
    requires Fits(v, g)
    ensures r.Found? ==> |r.slot| == SLOT
  {
    if path != [] && path[0] == SLASH then Walk(v, g, g.rootCluster, path, 1, [])
    else Walk(v, g, cwd, path, 0, [])
  }

  // ---- open ----

  function StartDir(g: Geometry, cwd: nat, path: seq<byte>): nat {
    if path != [] && path[0] == SLASH then g.rootCluster else if cwd < 2 then g.rootCluster else cwd
  }

  /** `fat32_open`. */
  function Open(v: Vol, g: Geometry, cwd: nat, path: seq<byte>): (r: Option<Handle>)
    requires Fits(v, g)
  {
    match Name83(StripSlash(path))
    case None => None
    case Some(name) =>
      match LookUp(v, g, StartDir(g, cwd, path), Packed(name))
      case None => None
      case Some(s) => if IsDir(s) then None else Some(Handle(First(s), First(s), 0, Size(s)))
  }

  // ---- write ----

  datatype Outcome = Done(v: Vol) | Failed(v: Vol)

  /** How many clusters `count` bytes fill: the quotient `(count + cs - 1) / cs`, by repeated subtraction. */
  function ClustersFor(count: nat, cs: nat): (k: nat)
    requires 0 < cs
    ensures count > 0 ==> k > 0
    ensures k == 1 <==> 0 < count <= cs
    decreases count
  {
    if count == 0 then 0 else if count <= cs then 1 else 1 + ClustersFor(count - cs, cs)
  }

  lemma {:induction false} ClustersCover(count: nat, cs: nat)
    requires 0 < cs && 0 < count
    ensures var k := ClustersFor(count, cs);
            Blocks(k - 1, cs) < count <= Blocks(k, cs)
    decreases count
  {
    if count > cs {
      ClustersCover(count - cs, cs);
    }
  }

  lemma ClustersForIsCeiling(count: nat, cs: nat)
    requires 0 < cs
    ensures ClustersFor(count, cs) == (count + cs - 1) / cs
  {
    if count > 0 {
      var k, q := ClustersFor(count, cs), (count + cs - 1) / cs;
      ClustersCover(count, cs);
      DivisionInBlocks(count + cs - 1, cs);
      if q < k {
        BlocksOrder(q, k, cs);
      } else if k < q {
        BlocksOrder(k, q, cs);
      }
    }
  }

  /** The chain that starts at `c` can be walked. */
  ghost predicate Freeable(v: Vol, c: nat) {
    InRange(v.fat) && (IsValidCluster(c) ==> c < |v.fat|)
  }

  /** The volume with the chain of a directory entry freed. */
  ghost function WithoutChain(v: Vol, c: nat): (r: Vol)
    ensures |r.fat| == |v.fat| && r.data == v.data && (InRange(v.fat) ==> InRange(r.fat))
  {
    if c >= 2 && Freeable(v, c) then v.(fat := FreeChain(v.fat, c)) else v
  }

  function WithSlot(v: Vol, d: nat, buf: seq<byte>, p: nat, s: seq<byte>): (r: Vol)
    requires 2 <= d < |v.data| && SLOT * p + SLOT <= |buf| && |s| == SLOT
  {
    v.(data := v.data[d := PutSlot(buf, p, s)])
  }

  /** `fat32_write` after the slot is chosen: free the old chain, allocate, store, update the slot. */
  ghost function StoreFile(v: Vol, g: Geometry, d: nat, p: nat, name: seq<byte>, bytes: seq<byte>): (r: Outcome)
    requires Fits(v, g) && 2 <= d < |v.data| && p < Slots(g) && |name| == 11 && |bytes| < 0x1_0000_0000
    ensures r.Done? ==> Fits(r.v, g)
  {
    var buf := v.data[d];
    var freed := WithoutChain(v, First(SlotAt(buf, p)));
    if bytes == [] then Done(WithSlot(freed, d, buf, p, MakeSlot(name, ATTR_ARCHIVE, 0, 0)))
    else
      FreesAre(freed.fat, 2);
      var fs := Frees(freed.fat, 2);
      var count := ClustersFor(|bytes|, g.ClusterSize());
      if |fs| < (count + 1) / 2 then Failed(freed.(fat := Leaked(freed.fat, fs)))
      else
        AllocatorLaw(freed.fat, fs, count);
        var linked := freed.(fat := Allocated(freed.fat, fs, count));
        var stored := WriteLoop(linked, g.ClusterSize(), fs[0], bytes);
        Done(WithSlot(stored, d, buf, p, MakeSlot(name, ATTR_ARCHIVE, fs[0], |bytes|)))
  }

  /** `fat32_write` in directory `d`. */
  ghost function WriteIn(v: Vol, g: Geometry, d: nat, name: seq<byte>, bytes: seq<byte>): (r: Outcome)
    requires Fits(v, g) && |bytes| < 0x1_0000_0000
    ensures r.Done? ==> Fits(r.v, g)
  {
    if !(2 <= d < |v.data|) || Name83(name).None? then Failed(v)
    else
      match ScanWrite(v.data[d], Slots(g), 0, Name83(name).value, None)
      case None => Failed(v)
      case Some(p) => StoreFile(v, g, d, p, Name83(name).value, bytes)
  }

  /** `fat32_write`. */
  ghost function WriteFile(v: Vol, g: Geometry, cwd: nat, path: seq<byte>, bytes: seq<byte>): (r: Outcome)
    requires Fits(v, g) && |bytes| < 0x1_0000_0000
    ensures r.Done? ==> Fits(r.v, g)
  {
    match Navigate(v, g, cwd, path)
    case NotFound => Failed(v)
    case Missing(d, name) => WriteIn(v, g, d, name, bytes)
    case Found(d, name, _) => WriteIn(v, g, d, name, bytes)
  }

  /** The directory exists and the chains its slots name can be walked. */
  ghost predicate WritableIn(v: Vol, g: Geometry, d: nat) {
    && Fits(v, g) && 2 <= d < |v.data|
    && forall p :: 0 <= p < Slots(g) ==> Freeable(v, First(SlotAt(v.data[d], p)))
  }

  ghost predicate Writable(v: Vol, g: Geometry, cwd: nat, path: seq<byte>) {
    && Fits(v, g)
    && var nav := Navigate(v, g, cwd, path);
       nav.NotFound? || WritableIn(v, g, nav.parent)
  }

  // ---- delete ----

  /** `fat32_delete`: root directory only. */
  ghost function DeleteFile(v: Vol, g: Geometry, path: seq<byte>): (r: Outcome)
    requires Fits(v, g)
    ensures Fits(r.v, g)
  {
    match Name83(StripSlash(path))
    case None => Failed(v)
    case Some(name) =>
      var buf := v.data[g.rootCluster];
      match Scan(buf, Slots(g), 0, Packed(name))
      case None => Failed(v)
      case Some(p) =>
        var s := SlotAt(buf, p);
        Done(WithSlot(WithoutChain(v, First(s)), g.rootCluster, buf, p, Erased(s)))
  }

  // ---- mkdir ----

  /** The first cluster of a new directory: itself, its parent, nothing else. */
  function DirBlock(g: Geometry, c: nat, parent: nat): (r: seq<byte>)
    requires 1 <= g.sectorsPerCluster && c < 0x1_0000_0000 && parent < 0x1_0000_0000
    ensures |r| == g.ClusterSize()
  {
    MakeSlot(DOT_ENTRY, ATTR_DIRECTORY, c, 0) + MakeSlot(DOTDOT_ENTRY, ATTR_DIRECTORY, parent, 0)
    + Zeros(g.ClusterSize() - 2 * SLOT)
  }

  /** The volume with a cluster taken and written as a directory, not yet named. */
  ghost function Unnamed(v: Vol, g: Geometry, d: nat): (r: Vol)
    requires Fits(v, g) && 2 <= d < |v.data| && Frees(v.fat, 2) != []
    ensures Within(Frees(v.fat, 2), 2, |v.fat|)
    ensures Fits(r, g) && 2 <= Frees(v.fat, 2)[0] < |r.fat| && FreeChain(r.fat, Frees(v.fat, 2)[0]) == v.fat
  {
    FreesAre(v.fat, 2);
    var fs := Frees(v.fat, 2);
    AllocatorLaw(v.fat, fs, 1);
    Vol(Allocated(v.fat, fs, 1), v.data[fs[0] := DirBlock(g, fs[0], d)])
  }

  /** `fat32_mkdir` once the path has been walked to a missing entry `name` of `d`. */
  ghost function MakeDirIn(v: Vol, g: Geometry, d: nat, name: seq<byte>): (r: Outcome)
    requires Fits(v, g) && 2 <= d < |v.data|
    ensures Fits(r.v, g)
  {
    var fs := Frees(v.fat, 2);
    if fs == [] then Failed(v)
    else
      var made := Unnamed(v, g, d);
      var buf := made.data[d];
      if Name83(name).None? || ScanFree(buf, Slots(g), 0).None? then Failed(made.(fat := FreeChain(made.fat, fs[0])))
      else
        Done(WithSlot(made, d, buf, ScanFree(buf, Slots(g), 0).value, MakeSlot(Name83(name).value, ATTR_DIRECTORY, fs[0], 0)))
  }

  /** `fat32_mkdir`. The driver does not test for a parent that is not found; nothing is said of that case. */
  ghost function MakeDir(v: Vol, g: Geometry, cwd: nat, path: seq<byte>): (r: Outcome)
    requires Fits(v, g) && !Navigate(v, g, cwd, path).NotFound?
    ensures Fits(r.v, g)
  {
    match Navigate(v, g, cwd, path)
    case Missing(d, name) => if 2 <= d < |v.data| then MakeDirIn(v, g, d, name) else Failed(v)
    case Found(_, _, _) => Failed(v)
  }

  // ---- chdir ----

  /** `fat32_fs_t.current_dir_cluster` and `current_path`. */
  datatype Cwd = Cwd(cluster: nat, path: seq<byte>)

  /** The index of the last slash at or before `i`, or 0. */
  function LastSlash(path: seq<byte>, i: nat): (r: nat)
    requires i < |path|
    ensures r <= i
  {
    if i == 0 || path[i] == SLASH then i else LastSlash(path, i - 1)
  }

  /** `current_path` after "..". */
  function ParentPath(path: seq<byte>): (r: seq<byte>)
    requires path != []
  {
    var last := |path| - 1;
    if |path| > 1 && path[last] == SLASH then path[..last]
    else
      var k := LastSlash(path, last);
      path[..if k == 0 then 1 else k]
  }

  /** The path with a slash at its end. */
  function Slashed(path: seq<byte>): (r: seq<byte>) {
    if path != [] && path[|path| - 1] == SLASH then path else path + [SLASH]
  }

  /** `current_path` after descending into `name`: a slash unless there is one, then the name up to 255
      bytes in all. The terminator goes to the index that is the length of this. */
  function ChildPath(path: seq<byte>, name: seq<byte>): (r: seq<byte>) {
    var base := Slashed(path);
    if |base| + |name| <= 255 then base + name
    else if |base| <= 255 then base + name[..255 - |base|]
    else base
  }

  /** For a string in the 256-byte buffer, the terminator stays within it exactly when the path is under
      255 bytes or ends in a slash; otherwise it lands one byte behind the buffer. */
  lemma ChildPathFits(path: seq<byte>, name: seq<byte>)
    requires |path| <= 255
    ensures |ChildPath(path, name)| <= 255 <==> |path| < 255 || path[|path| - 1] == SLASH
    ensures |ChildPath(path, name)| <= 256
  {
  }

  /** `fat32_chdir`: None when it fails. */
  function ChangeDir(v: Vol, g: Geometry, cwd: Cwd, path: seq<byte>): (r: Option<Cwd>)
    requires Fits(v, g) && 0 < |cwd.path|
  {
    match Navigate(v, g, cwd.cluster, path)
    case NotFound => None
    case Missing(_, _) => None
    case Found(_, name, s) =>
      if !IsDir(s) then None
      else Some(Cwd(First(s),
        if path[0] == SLASH then (if |path| <= 255 then path else path[..255])
        else if name == [DOT] then cwd.path
        else if name == [DOT, DOT] then ParentPath(cwd.path)
        else ChildPath(cwd.path, name)))
  }
}
