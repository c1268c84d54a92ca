/** Calls that show where the driver does less than one would expect, on the volume of an empty image. */
module Instances {
  import opened Bytes
  import opened FatTable
  import opened Layout
  import opened Names
  import opened Directory
  import opened Files
  import opened Operations
  import opened Consistency
  import opened Runs
  import opened Space
  import opened WorkDir
  import opened RoundTrip
  import opened Spelling
  import opened Calls
  import opened Builder
  import opened BuiltVolume

  const A: seq<byte> := [0x41]
  const B: seq<byte> := [0x42]

  lemma LettersCanonical()
    ensures Canonical(A) && Canonical(B) && Name83(A).Some? && Name83(B).Some?
  {
  }

  /** The mounted volume of an image without files. */
  ghost function EmptyVolume(): (v: Vol) {
    Mounted([])
  }

  lemma EmptyVolumeIs()
    ensures var v := EmptyVolume();
            && Fits(v, G) && Consistent(v, G, BuiltLedger([])) && G.rootCluster == 2 && 2 in BuiltLedger([]).depth
            && G.ClusterSize() == CLUSTER && Coherent(v, G, Cwd(2, [SLASH]))
    ensures var v := EmptyVolume();
            && |v.fat| == 15870 && v.fat[2] != 0 && v.fat[3] == 0 && v.fat[4] == 0
            && forall i :: 0 <= i < Slots(G) ==> SlotAt(v.data[2], i) == Zeros(SLOT)
  {
    hide Image, VolOf, Consistent, Coherent, RootDir;
    ImageMounts([]);
    GeometryOk();
    var v := EmptyVolume();
    BuiltConsistent([], v);
    BuiltFits([], v);
    BuiltSound([], v);
    EntryOut([], 0, 2);
    EntryOut([], 0, 3);
    EntryOut([], 0, 4);
    forall i | 0 <= i < Slots(G)
      ensures SlotAt(v.data[2], i) == Zeros(SLOT)
    {
      BuiltSlot([], v.data[2], i);
    }
  }

  // ---- directories within directories ----

  /** In a new directory only the two dot entries are taken, and no canonical name is found. */
  lemma NewDirMisses(g: Geometry, buf: seq<byte>, c: nat, parent: nat, name: seq<byte>)
    requires g.Ok() && 2 <= c < 0x1_0000_0000 && parent < 0x1_0000_0000 && buf == DirBlock(g, c, parent) && Canonical(name)
    ensures SLOT * Slots(g) <= |buf|
    ensures Scan(buf, Slots(g), 0, Text(name)) == None && ScanFree(buf, Slots(g), 0) == Some(2)
  {
    hide DirBlock, MakeSlot, Canonical, Format, SlotAt;
    DirBlockSlots(g, c, parent, 0);
    DirBlockSlots(g, c, parent, 1);
    DirBlockSlots(g, c, parent, 2);
    MadeSlot(DOT_ENTRY, ATTR_DIRECTORY, c, 0);
    MadeSlot(DOTDOT_ENTRY, ATTR_DIRECTORY, parent, 0);
    CanonicalIsPlain(name);
    DotMatches(name);
    ScanThree(buf, Slots(g), name);
  }

  lemma ScanThree(buf: seq<byte>, n: nat, name: seq<byte>)
    requires 3 <= n && SLOT * n <= |buf|
    requires NameOf(SlotAt(buf, 0)) == DOT_ENTRY && NameOf(SlotAt(buf, 1)) == DOTDOT_ENTRY
    requires SlotAt(buf, 0)[11] == SlotAt(buf, 1)[11] == ATTR_DIRECTORY
    requires SlotAt(buf, 0)[0] == SlotAt(buf, 1)[0] == DOT && SlotAt(buf, 2)[0] == 0
    requires !Matches(DOT_ENTRY, name) && !Matches(DOTDOT_ENTRY, name)
    ensures Scan(buf, n, 0, Text(name)) == None && ScanFree(buf, n, 0) == Some(2)
  {
    hide SlotAt, Matches, NameOf;
    assert Scan(buf, n, 2, Text(name)) == None;
    assert Scan(buf, n, 1, Text(name)) == None;
    assert ScanFree(buf, n, 2) == Some(2);
    assert ScanFree(buf, n, 1) == Some(2);
  }

  lemma EmptyRootMisses(v: Vol, name: seq<byte>)
    requires Fits(v, G) && Slots(G) > 0 && forall i :: 0 <= i < Slots(G) ==> SlotAt(v.data[2], i) == Zeros(SLOT)
    ensures LookUp(v, G, 2, Text(name)) == None && ScanFree(v.data[2], Slots(G), 0) == Some(0)
  {
    assert SlotAt(v.data[2], 0)[0] == 0;
  }

  /** The volume after a successful mkdir in the root. */
  lemma FirstMkdir(v: Vol, g: Geometry, L: Ledger, a: seq<byte>, b: seq<byte>) returns (M: Ledger, c: nat)
    requires Fits(v, g) && Consistent(v, g, L) && g.rootCluster in L.depth && 2 <= g.rootCluster < |v.data|
    requires Canonical(a) && Canonical(b)
    requires LookUp(v, g, g.rootCluster, Text(a)) == None && CanMake(v, g, g.rootCluster, a) && |Frees(v.fat, 2)| >= 2
    ensures c == Frees(v.fat, 2)[0]
    ensures MakeDirIn(v, g, g.rootCluster, a).Done?
    ensures var w := MakeDirIn(v, g, g.rootCluster, a).v;
            && Consistent(w, g, M) && DirEntriesKept(v, g, L.depth, w) && (forall e :: e in L.depth ==> e in M.depth) && c in M.depth
            && var s := LookUp(w, g, g.rootCluster, Text(a));
               s.Some? && IsDir(s.value) && First(s.value) == c
    ensures var w := MakeDirIn(v, g, g.rootCluster, a).v;
            && 2 <= c < |w.data| && w.data[c] == DirBlock(g, c, g.rootCluster) && Frees(w.fat, 2) != []
  {
    hide DirEntriesKept, Consistent, LookUp, Name83, ScanFree, Accepted, MakeDirIn, Frees, MakeSlot, PutSlot, DirBlock, Canonical, First, IsDir, Link;
    var d := g.rootCluster;
    DirInUse(v, g, L, d);
    MkdirSucceeds(v, g, d, a);
    M := MkdirFinds(v, g, L, d, a);
    c := Frees(v.fat, 2)[0];
    FirstOfFrees(v.fat, 2);
    FreshIsNew(v, g, L, c);
    MakeDirIs(v, g, d, a, c);
    SecondFree(v.fat, c);
  }

  lemma SecondFree(fat: seq<nat>, c: nat)
    requires 2 <= |fat| && |Frees(fat, 2)| >= 2 && c == Frees(fat, 2)[0] && c < |fat|
    ensures Frees(Link(fat, [c], END_MARK), 2) != []
  {
    hide Frees, Link;
    FreesAre(fat, 2);
    var x := Frees(fat, 2)[1];
    assert x in Frees(fat, 2);
    LinkOther(fat, [c], END_MARK, x);
    FreesAre(Link(fat, [c], END_MARK), 2);
    assert x in Frees(Link(fat, [c], END_MARK), 2);
  }

  /** Two directories, one in the other, made in any consistent volume with room for them. */
  lemma NestedDirs(v: Vol, g: Geometry, L: Ledger, a: seq<byte>, b: seq<byte>) returns (M: Ledger, c: nat, w: Vol)
    requires Fits(v, g) && Consistent(v, g, L) && g.rootCluster in L.depth && 2 <= g.rootCluster < |v.data|
    requires Canonical(a) && Canonical(b) && Coherent(v, g, Cwd(g.rootCluster, [SLASH]))
    requires LookUp(v, g, g.rootCluster, Text(a)) == None && CanMake(v, g, g.rootCluster, a) && |Frees(v.fat, 2)| >= 2
    ensures 2 <= c < |v.data| && MakeDirIn(v, g, g.rootCluster, a).Done?
    ensures w == MakeDirIn(MakeDirIn(v, g, g.rootCluster, a).v, g, c, b).v && MakeDirIn(MakeDirIn(v, g, g.rootCluster, a).v, g, c, b).Done?
    ensures Consistent(w, g, M) && Coherent(w, g, Cwd(g.rootCluster, [SLASH]))
    ensures var s := LookUp(w, g, g.rootCluster, Text(a));
            && s.Some? && IsDir(s.value) && First(s.value) == c
            && var t := LookUp(w, g, c, Text(b));
               t.Some? && IsDir(t.value)
  {
    hide DirEntriesKept, Consistent, LookUp, Name83, ScanFree, Accepted, MakeDirIn, Frees, DirBlock, Canonical, First, IsDir, Coherent;
    var K;
    K, c := FirstMkdir(v, g, L, a, b);
    var u := MakeDirIn(v, g, g.rootCluster, a).v;
    NewDirReady(u, g, c, b);
    DirInUse(u, g, K, c);
    MkdirSucceeds(u, g, c, b);
    M := MkdirFinds(u, g, K, c, b);
    w := MakeDirIn(u, g, c, b).v;
    LookUpKept(u, g, K, w, M, g.rootCluster, a);
    CoherenceKept(v, g, L, u, K, Cwd(g.rootCluster, [SLASH]));
    CoherenceKept(u, g, K, w, M, Cwd(g.rootCluster, [SLASH]));
  }

  lemma NewDirReady(u: Vol, g: Geometry, c: nat, b: seq<byte>)
    requires Fits(u, g) && 2 <= c < |u.data| && 2 <= g.rootCluster < |u.data| && u.data[c] == DirBlock(g, c, g.rootCluster) && Frees(u.fat, 2) != []
    requires Canonical(b)
    ensures LookUp(u, g, c, Text(b)) == None && CanMake(u, g, c, b)
  {
    hide Frees, DirBlock, Canonical, Name83;
    NewDirMisses(g, u.data[c], c, g.rootCluster, b);
    CanonicalPacks(b);
  }

  /** `w` is the volume of an empty image after mkdir "A" in the root and mkdir "B" in that directory. */
  ghost predicate Nested(w: Vol, c: nat) {
    && Fits(EmptyVolume(), G) && 2 < |EmptyVolume().data|
    && var u := MakeDirIn(EmptyVolume(), G, 2, A);
       u.Done? && 2 <= c < |u.v.data| && Fits(u.v, G) && MakeDirIn(u.v, G, c, B) == Done(w)
  }

  lemma NestedOnEmpty() returns (w: Vol, M: Ledger, c: nat)
    ensures Nested(w, c) && Fits(w, G) && Consistent(w, G, M) && Coherent(w, G, Cwd(2, [SLASH])) && G.rootCluster == 2
    ensures var s := LookUp(w, G, 2, Text(A));
            && s.Some? && IsDir(s.value) && First(s.value) == c
            && var t := LookUp(w, G, c, Text(B));
               t.Some? && IsDir(t.value)
  {
    hide Consistent, LookUp, Name83, ScanFree, MakeDirIn, Frees, Canonical, First, IsDir, Coherent, EmptyVolume, SlotAt;
    var v, L := EmptyVolume(), BuiltLedger([]);
    EmptyVolumeIs();
    LettersCanonical();
    EmptyRootMisses(v, A);
    TwoFree(v.fat);
    M, c, w := NestedDirs(v, G, L, A, B);
  }

  /** There a chdir to "A/B" from the root reaches that directory and says "/B", which is not where it is. */
  lemma NestedChdir() returns (w: Vol, c: nat, d: nat)
    ensures Nested(w, c) && Fits(w, G) && Coherent(w, G, Cwd(2, [SLASH]))
    ensures ChangeDir(w, G, Cwd(2, [SLASH]), Joined([A, B])) == Some(Cwd(d, [SLASH] + B)) && !Coherent(w, G, Cwd(d, [SLASH] + B))
  {
    hide Consistent, LookUp, Canonical, First, IsDir, Coherent, Joined, ChangeDir, Nested;
    var M;
    w, M, c := NestedOnEmpty();
    LettersCanonical();
    var s, t := LookUp(w, G, 2, Text(A)).value, LookUp(w, G, c, Text(B)).value;
    d := First(t);
    TwoNamesResolve(w, G, A, B, s, t);
    ChildOfRoot();
    ChdirJoined(w, G, M, Cwd(2, [SLASH]), [A, B], d);
  }

  /** And a chdir to 254 slashes with "A", then one to "B", needs a byte behind the path buffer. */
  lemma OverrunReached() returns (w: Vol, c: nat)
    ensures Nested(w, c) && Fits(w, G)
    ensures var next := ChangeDir(w, G, Cwd(2, [SLASH]), Slashes(254) + A);
            next.Some? && |next.value.path| == 255
            && ChangeDir(w, G, next.value, B).Some? && |ChangeDir(w, G, next.value, B).value.path| == 256
  {
    hide Consistent, LookUp, Canonical, First, IsDir, Coherent, ChangeDir, Nested, Slashes;
    var M;
    w, M, c := NestedOnEmpty();
    LettersCanonical();
    ChildOfRoot();
    PathOverrun(w, G, Cwd(2, [SLASH]), A, LookUp(w, G, 2, Text(A)).value, B, LookUp(w, G, c, Text(B)).value);
  }

  lemma ChildOfRoot()
    ensures ChildPath([SLASH], B) == [SLASH] + B && |A| == 1
  {
  }

  lemma TwoNamesResolve(w: Vol, g: Geometry, a: seq<byte>, b: seq<byte>, s: seq<byte>, t: seq<byte>)
    requires Fits(w, g) && LookUp(w, g, g.rootCluster, Text(a)) == Some(s) && IsDir(s)
    requires LookUp(w, g, First(s), Text(b)) == Some(t) && IsDir(t)
    ensures Resolve(w, g, g.rootCluster, [a, b]) == Some(First(t))
  {
    hide LookUp, First, IsDir;
    assert [a, b][..1] == [a] && [a][..0] == [];
    assert Resolve(w, g, g.rootCluster, []) == Some(g.rootCluster);
    assert Resolve(w, g, g.rootCluster, [a]) == Some(First(s));
  }

  lemma TwoFree(fat: seq<nat>)
    requires |fat| > 4 && fat[3] == 0 && fat[4] == 0
    ensures |Frees(fat, 2)| >= 2
  {
    hide Frees;
    FreesAre(fat, 2);
    assert 3 in Frees(fat, 2) && 4 in Frees(fat, 2);
  }

  // ---- a write into a directory ----

  /** A write by "A/B" where "A" is a directory with a free slot and no "B". */
  lemma WriteUnder(u: Vol, g: Geometry, M: Ledger, a: seq<byte>, b: seq<byte>, c: nat, bytes: seq<byte>)
    requires Fits(u, g) && Consistent(u, g, M) && Canonical(a) && Canonical(b) && c in M.depth && 2 <= c < |u.data|
    requires g.rootCluster in M.depth
    requires var s := LookUp(u, g, g.rootCluster, Text(a)); s.Some? && IsDir(s.value) && First(s.value) == c
    requires LookUp(u, g, c, Text(b)) == None && ScanFree(u.data[c], Slots(g), 0).Some?
    requires Frees(u.fat, 2) != [] && |bytes| <= g.ClusterSize() && |bytes| < 0x1_0000_0000
    ensures Navigate(u, g, g.rootCluster, Joined([a, b])) == Missing(c, b)
    ensures FilePath(u, g, g.rootCluster, Joined([a, b])) && WriteFile(u, g, g.rootCluster, Joined([a, b]), bytes).Done?
  {
    hide Consistent, LookUp, Name83, ScanFree, ScanWrite, Frees, Canonical, First, IsDir, Navigate, Joined, WriteFile, Room, Accepted, IsDot;
    UnderIsMissing(u, g, a, b, c);
    CanonicalPacks(b);
    FreeSlotPicked(u, g, M, c, b);
    var path := Joined([a, b]);
    WriteLedger(u, g, M, g.rootCluster, path, bytes);
    var k := WrittenSlot(u, g, g.rootCluster, path).value;
    WriteTarget(u, g, M, c, b);
    RoomIs(u, g, M, k);
  }

  lemma UnderIsMissing(u: Vol, g: Geometry, a: seq<byte>, b: seq<byte>, c: nat)
    requires Fits(u, g) && Canonical(a) && Canonical(b)
    requires var s := LookUp(u, g, g.rootCluster, Text(a)); s.Some? && IsDir(s.value) && First(s.value) == c
    requires LookUp(u, g, c, Text(b)) == None
    ensures Navigate(u, g, g.rootCluster, Joined([a, b])) == Missing(c, b)
  {
    hide LookUp, Canonical, First, IsDir, Navigate, Joined;
    CanonicalComponents([a, b]);
    assert [a, b][..1] == [a] && [a][..0] == [];
    NavigateJoined(u, g, g.rootCluster, [a, b]);
  }

  lemma FreeSlotPicked(u: Vol, g: Geometry, M: Ledger, d: nat, name: seq<byte>)
    requires Fits(u, g) && Consistent(u, g, M) && d in M.depth && 2 <= d < |u.data| && Canonical(name) && Name83(name).Some?
    requires ScanFree(u.data[d], Slots(g), 0).Some?
    ensures ScanWrite(u.data[d], Slots(g), 0, Name83(name).value, None).Some?
  {
    hide Consistent, Name83, ScanFree, ScanWrite, Canonical, Tidy, Accepted, Live, NameOf;
    TidyDir(u, g, M, d);
    CanonicalPacks(name);
    CanonicalEntryFirst(Name83(name).value);
    ScanFreePicks(u.data[d], Slots(g), 0);
    ScanWritePicks(u.data[d], Slots(g), 0, Name83(name).value, None);
  }

  /** On an empty image with directory "A" made, a write to "A/B" succeeds, but `fat32_open` of that path fails;
      the file is there and reads back by its name from within "A". */
  lemma WrittenUnopened(bytes: seq<byte>) returns (c: nat)
    requires |bytes| <= CLUSTER
    ensures var v := EmptyVolume();
            && Fits(v, G) && 2 < |v.data| && MakeDirIn(v, G, 2, A).Done?
            && var u := MakeDirIn(v, G, 2, A).v;
               && Fits(u, G) && WriteFile(u, G, 2, Joined([A, B]), bytes).Done?
               && var w := WriteFile(u, G, 2, Joined([A, B]), bytes).v;
                  && Fits(w, G) && Open(w, G, 2, Joined([A, B])) == None && Open(w, G, c, B).Some?
                  && var h := Open(w, G, c, B).value;
                     && (IsValidCluster(h.current) ==> h.current < |w.data|) && h.position <= h.size
                     && Read(w, CLUSTER, h, |bytes|).0 == bytes
  {
    hide Consistent, LookUp, Name83, ScanFree, MakeDirIn, Frees, Canonical, First, IsDir, Coherent, EmptyVolume, SlotAt, WriteFile, Navigate, Joined, Open, Read, DirBlock, Accepted;
    var v, L := EmptyVolume(), BuiltLedger([]);
    EmptyVolumeIs();
    LettersCanonical();
    EmptyRootMisses(v, A);
    TwoFree(v.fat);
    var M;
    M, c := FirstMkdir(v, G, L, A, B);
    var u := MakeDirIn(v, G, 2, A).v;
    RootIsTop(u, G, M);
    NewDirReady(u, G, c, B);
    WriteUnder(u, G, M, A, B, c, bytes);
    var w := WriteFile(u, G, 2, Joined([A, B]), bytes).v;
    WriteThenRead(u, G, M, 2, Joined([A, B]), bytes, w);
    WriteThenOpen(u, G, M, 2, Joined([A, B]), bytes, w);
    UnderHasSlash();
  }

  lemma UnderHasSlash()
    ensures Joined([A, B]) == A + [SLASH] + B && !OneName(Joined([A, B]))
  {
    assert [A, B][..1] == [A] && [A][..0] == [];
    assert Spell([A]) == [SLASH] + A;
    assert Spell([A, B]) == [SLASH] + A + [SLASH] + B;
    var path := A + [SLASH] + B;
    assert path[1] == SLASH && path[0] != SLASH;
  }

  // ---- writes of more than a cluster ----

  /** One call reads the buffer back a byte short; a reader that calls again gets the first byte in place of
      the last. */
  ghost predicate ComesBackWrong(w: Vol, h: Handle, bytes: seq<byte>, chunk: nat) {
    && VolOk(w, CLUSTER) && (IsValidCluster(h.current) ==> h.current < |w.data|) && h.position == 0 && h.size == |bytes| == CLUSTER + 1
    && Read(w, CLUSTER, h, |bytes|).0 == bytes[..CLUSTER]
    && ReadMany(w, CLUSTER, h, [|bytes|, 1]).0 == bytes[..CLUSTER] + [bytes[0]]
    && ReadAll(w, CLUSTER, h, chunk) == bytes[..CLUSTER] + [bytes[0]]
  }

  /** The write succeeds, and the path opens that. */
  ghost predicate WrittenWrong(v: Vol, path: seq<byte>, bytes: seq<byte>, chunk: nat) {
    && Fits(v, G) && |bytes| == CLUSTER + 1 && WriteFile(v, G, 2, path, bytes).Done?
    && var w := WriteFile(v, G, 2, path, bytes).v;
       Fits(w, G) && Open(w, G, 2, path).Some? && ComesBackWrong(w, Open(w, G, 2, path).value, bytes, chunk)
  }

  /** On an empty image it is so. */
  lemma LongWrite(bytes: seq<byte>, chunk: nat)
    requires |bytes| == CLUSTER + 1 && 0 < chunk
    ensures WrittenWrong(EmptyVolume(), [SLASH] + A, bytes, chunk)
  {
    hide Consistent, LookUp, Name83, Frees, Canonical, EmptyVolume, SlotAt, WriteFile, Room, Navigate, ScanWrite, Read, ReadMany, ReadAll, Reading, Echoed, Coherent, Sum;
    var v, L := EmptyVolume(), BuiltLedger([]);
    EmptyVolumeIs();
    LettersCanonical();
    EmptyRootWrites(v, bytes);
    TwoFree(v.fat);
    OneClusterTaken();
    WriteLedger(v, G, L, 2, [SLASH] + A, bytes);
    RoomIs(v, G, L, Slot(2, 0));
    var w := WriteFile(v, G, 2, [SLASH] + A, bytes).v;
    WriteThenRead(v, G, L, 2, [SLASH] + A, bytes, w);
    WriteThenOpen(v, G, L, 2, [SLASH] + A, bytes, w);
    WriteThenReadAll(v, G, L, 2, [SLASH] + A, bytes, w, chunk);
    FirstByteAgain(bytes);
    ReadOneMore(w, Open(w, G, 2, [SLASH] + A).value, bytes);
  }

  lemma OneClusterTaken()
    ensures (ClustersFor(CLUSTER + 1, CLUSTER) + 1) / 2 == 1 && Kept(CLUSTER + 1, CLUSTER) == CLUSTER
  {
    assert ClustersFor(1, CLUSTER) == 1;
    assert Blocks(1, CLUSTER) == Blocks(0, CLUSTER) + CLUSTER == CLUSTER;
  }

  lemma FirstByteAgain(bytes: seq<byte>)
    requires |bytes| == CLUSTER + 1
    ensures Echoed(bytes, CLUSTER) == bytes[..CLUSTER] + [bytes[0]]
  {
    hide Kept;
    OneClusterTaken();
    assert Offset(CLUSTER, CLUSTER) == 0;
  }

  /** The second of two calls delivers what the first one left. */
  lemma ReadOneMore(w: Vol, h: Handle, bytes: seq<byte>)
    requires |bytes| == CLUSTER + 1 && h.position == 0 && Reading(w, CLUSTER, h, Echoed(bytes, CLUSTER))
    requires Read(w, CLUSTER, h, |bytes|).0 == bytes[..CLUSTER]
    ensures ReadMany(w, CLUSTER, h, [|bytes|, 1]).0 == bytes[..CLUSTER] + [bytes[0]]
  {
    hide Read, Yields, VolOk, Echoed;
    var counts, content := [|bytes|, 1], Echoed(bytes, CLUSTER);
    FirstByteAgain(bytes);
    ReadDelivers(w, CLUSTER, h, content, |bytes|);
    var next := Read(w, CLUSTER, h, |bytes|).1;
    ReadDelivers(w, CLUSTER, next, content, 1);
    assert counts[1..] == [1] && [1][1..] == [];
    assert ReadMany(w, CLUSTER, Read(w, CLUSTER, next, 1).1, []).0 == [];
    assert ReadMany(w, CLUSTER, next, [1]).0 == Read(w, CLUSTER, next, 1).0 + [];
  }

  /** A write to "/A" in an empty root fills its first slot. */
  lemma EmptyRootWrites(v: Vol, bytes: seq<byte>)
    requires Fits(v, G) && G.rootCluster == 2 && 2 < |v.data| && forall i :: 0 <= i < Slots(G) ==> SlotAt(v.data[2], i) == Zeros(SLOT)
    ensures OneName([SLASH] + A) && FilePath(v, G, 2, [SLASH] + A)
    ensures WrittenSlot(v, G, 2, [SLASH] + A) == Some(Slot(2, 0))
  {
    hide LookUp, Navigate, Canonical, Name83, SlotAt;
    LettersCanonical();
    assert StripSlash([SLASH] + A) == A && StripSlash(A) == A;
    assert Buffered(A) == A;
    NavigateOneName(v, G, 2, [SLASH] + A);
    EmptyRootMisses(v, A);
    assert SlotAt(v.data[2], 0)[0] == 0;
  }

  /** A write of 256 MB or more leaves that image without any ledger. */
  lemma HugeWrite(bytes: seq<byte>)
    requires 0x1000_0000 <= |bytes| < 0x1_0000_0000
    ensures Fits(EmptyVolume(), G) && !HasLedger(WriteFile(EmptyVolume(), G, 2, [SLASH] + A, bytes).v, G)
  {
    hide Consistent, LookUp, Name83, Frees, Canonical, EmptyVolume, SlotAt, WriteFile, Navigate, ScanWrite, Coherent, HasLedger, ClustersFor;
    var v, L := EmptyVolume(), BuiltLedger([]);
    EmptyVolumeIs();
    EmptyRootWrites(v, bytes);
    TwoFree(v.fat);
    FewFrees(v.fat, 2);
    ManyClusters(|bytes|);
    OutOfSpace(v, G, L, 2, [SLASH] + A, bytes);
  }

  lemma {:induction false} FewFrees(fat: seq<nat>, from: nat)
    requires from <= |fat|
    ensures |Frees(fat, from)| <= |fat| - from
    decreases |fat| - from
  {
    if from < |fat| {
      FewFrees(fat, from + 1);
    }
  }

  lemma ManyClusters(count: nat)
    requires 0x1000_0000 <= count
    ensures ClustersFor(count, CLUSTER) >= 65536
  {
    hide ClustersFor, Blocks;
    ClustersCover(count, CLUSTER);
    BlocksIsProduct(ClustersFor(count, CLUSTER), CLUSTER);
  }

  // ---- a first directory, and a built file by another case ----

  /** On an empty image, mkdir "A" makes a directory in cluster 3. */
  lemma EmptyMkdir()
    ensures var v := EmptyVolume();
            && Fits(v, G) && !Navigate(v, G, 2, A).NotFound? && MakeDir(v, G, 2, A).Done?
            && var w := MakeDir(v, G, 2, A).v;
               && v.fat[3] == 0 && w.fat[3] >= EOC
               && Navigate(w, G, 2, A).Found? && IsDir(Navigate(w, G, 2, A).slot) && First(Navigate(w, G, 2, A).slot) == 3
  {
    hide Consistent, LookUp, Name83, Frees, Canonical, EmptyVolume, SlotAt, MakeDir, Navigate, Coherent, First, IsDir;
    var v, L := EmptyVolume(), BuiltLedger([]);
    EmptyVolumeIs();
    LettersCanonical();
    EmptyRootMisses(v, A);
    NavigateOne(v, G, 2, A);
    ScanFreePicks(v.data[2], Slots(G), 0);
    assert FreeCluster(v, 3) && IsFree(v, G, 2, 0);
    MkdirLaw(v, G, L, 2, A);
    var M, c := MkdirMakes(v, G, L, 2, A);
  }

  /** HELLO.TXT as the script puts it on its image. */
  const HELLO := FileSpec([0x48, 0x45, 0x4C, 0x4C, 0x4F], [0x54, 0x58, 0x54],
                          [0x48, 0x65, 0x6C, 0x6C, 0x6F, 0x20, 0x66, 0x72, 0x6F, 0x6D, 0x20, 0x58, 0x4F, 0x53, 0x21, 0x0A])

  /** "hello.txt" */
  const HELLO_TXT: seq<byte> := [0x68, 0x65, 0x6C, 0x6C, 0x6F, 0x2E, 0x74, 0x78, 0x74]

  const HELLO_NAME: seq<byte> := [0x48, 0x45, 0x4C, 0x4C, 0x4F, 0x2E, 0x54, 0x58, 0x54]

  lemma HelloNamed()
    ensures FullName(HELLO) == HELLO_NAME && |HELLO.data| == 16
    ensures WellNamed(HELLO) && SameLetters(HELLO_TXT, FullName(HELLO))
  {
    hide Canonical, Upper, SameLetters;
    HelloText();
    HelloCanonical();
    HelloUpper();
  }

  lemma HelloText()
    ensures FullName(HELLO) == HELLO_NAME && SameLetters(HELLO_TXT, HELLO_NAME)
  {
  }

  lemma HelloUpper()
    ensures Upper(HELLO.name) == HELLO.name && Upper(HELLO.ext) == HELLO.ext && DOT !in HELLO.name && DOT !in HELLO.ext
  {
  }

  lemma HelloCanonical()
    ensures Canonical(HELLO_NAME)
  {
    hide Find, Base, Ext;
    assert Parts(HELLO_NAME, HELLO.name, HELLO.ext);
    PartsOf(HELLO_NAME, HELLO.name, HELLO.ext);
  }

  lemma HelloBuildable()
    ensures Buildable([HELLO]) && FirstOf([HELLO], 0) == 3
  {
    hide WellNamed;
    HelloNamed();
    assert ClustersFor(16, CLUSTER) == 1;
    assert FirstOf([HELLO], 0) == 3 && FirstOf([HELLO], 1) == 4;
  }

  /** On an image with HELLO.TXT, "hello.txt" opens it, in cluster 3 with its 16 bytes, and deletes it. */
  lemma HelloByLowerCase()
    ensures Buildable([HELLO])
    ensures var v := Mounted([HELLO]);
            && Fits(v, G) && Open(v, G, 2, HELLO_TXT) == Some(Handle(3, 3, 0, 16)) && v.fat[3] != 0
            && DeleteFile(v, G, HELLO_TXT).Done? && DeleteFile(v, G, HELLO_TXT).v.fat[3] == 0
            && Open(DeleteFile(v, G, HELLO_TXT).v, G, 2, HELLO_TXT) == None
  {
    hide Mounted, Placeable, Open, DeleteFile, FirstOf, Name83, SlotAt, Consistent, BuiltLedger, Reading, ReadMany, PadName, Canonical, FullName, First, WellNamed;
    HelloBuildable();
    HelloNamed();
    var v, L := Mounted([HELLO]), BuiltLedger([HELLO]);
    BuiltFileReads([HELLO], v, 0, []);
    HelloCarried(v);
    CallsIgnoreCase(v, G, 2, HELLO_TXT, FullName(HELLO), []);
    DeleteFrees(v, G, L, HELLO_TXT, 0);
    DeletedIsGone(v, G, L, HELLO_TXT, DeleteFile(v, G, HELLO_TXT).v, 2);
  }

  /** Slot 0 of its root carries that name and owns cluster 3. */
  lemma HelloCarried(v: Vol)
    requires Buildable([HELLO]) && v == Mounted([HELLO])
    ensures Fits(v, G) && Consistent(v, G, BuiltLedger([HELLO])) && G.rootCluster == 2
    ensures Name83(StripSlash(HELLO_TXT)).Some? && Carries(v, G, 2, 0, Name83(StripSlash(HELLO_TXT)).value)
    ensures var (L, k) := (BuiltLedger([HELLO]), Slot(2, 0));
            k in L.chains && 3 in L.chains[k] && 3 < |v.fat| && v.fat[3] != 0
  {
    hide Mounted, Buildable, FirstOf, Name83, Consistent, PadName, Canonical, FullName, First, WellNamed, Find, Chains, Owners, IsDir, TidySlot;
    HelloNamed();
    HelloBuildable();
    GeometryOk();
    BuiltConsistent([HELLO], v);
    BuiltFits([HELLO], v);
    BuiltSlot([HELLO], v.data[2], 0);
    PadIsPack(HELLO);
    CaseBlind(HELLO_TXT, FullName(HELLO));
    HelloChain(v);
  }

  lemma HelloChain(v: Vol)
    requires Buildable([HELLO]) && BuiltFat([HELLO], v.fat)
    ensures var (L, k) := (BuiltLedger([HELLO]), Slot(2, 0));
            k in L.chains && 3 in L.chains[k] && 3 < |v.fat| && v.fat[3] != 0
  {
    hide Buildable, CountOf, BuiltFat, WellNamed;
    HelloBuildable();
    FileChain([HELLO], v.fat, 0);
    var xs := ChainFor([HELLO], 0);
    assert xs[0] == 3;
    ChainUsed(v.fat, xs, 3);
  }
}
