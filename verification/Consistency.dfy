/** Volume consistency: a ledger says which directory slot owns which chain, and every successful
    operation has a ledger for the volume it leaves. */
module Consistency {
  import opened Bytes
  import opened FatTable
  import opened Layout
  import opened Names
  import opened Directory
  import opened Files
  import opened Operations

  /** A directory entry, by the cluster of its directory and its slot number. */
  datatype Slot = Slot(dir: nat, index: nat)

  /** Stands for the boot sector's reference to the root directory. */
  const ROOT := Slot(0, 0)

  /** Who owns what: the chain of each slot, the slot that owns each used cluster, and the depth of
      each directory below the root. */
  datatype Ledger = Ledger(chains: map<Slot, seq<nat>>, owner: map<nat, Slot>, depth: map<nat, nat>)

  // ---- the table ----

  ghost predicate Holds(chains: map<Slot, seq<nat>>, k: Slot, c: nat) {
    k in chains && c in chains[k]
  }

  ghost predicate Owns(owner: map<nat, Slot>, k: Slot, c: nat) {
    c in owner && owner[c] == k
  }

  ghost predicate ChainsOk(fat: seq<nat>, chains: map<Slot, seq<nat>>) {
    forall k :: k in chains ==> IsChain(fat, chains[k])
  }

  /** The owner of a cluster is the one slot whose chain holds it. */
  ghost predicate OwnersOk(chains: map<Slot, seq<nat>>, owner: map<nat, Slot>) {
    forall k, c {:trigger Holds(chains, k, c)} {:trigger Owns(owner, k, c)} ::
      Holds(chains, k, c) <==> Owns(owner, k, c)
  }

  ghost predicate Covered(fat: seq<nat>, owner: map<nat, Slot>) {
    forall c :: 2 <= c < |fat| && fat[c] != 0 ==> c in owner
  }

  /** Chains are proper, the owner of a cluster is the only slot whose chain holds it, and every used
      cluster is owned. */
  ghost predicate Owned(fat: seq<nat>, chains: map<Slot, seq<nat>>, owner: map<nat, Slot>) {
    InRange(fat) && ChainsOk(fat, chains) && OwnersOk(chains, owner) && Covered(fat, owner)
  }

  lemma ChainUsed(fat: seq<nat>, xs: seq<nat>, c: nat)
    requires IsChain(fat, xs) && c in xs
    ensures 2 <= c < |fat| && fat[c] != 0
  {
    var i :| 0 <= i < |xs| && xs[i] == c;
    if i < |xs| - 1 {
      assert fat[xs[i]] == xs[i + 1];
    }
  }

  lemma OwnedIsUsed(fat: seq<nat>, chains: map<Slot, seq<nat>>, owner: map<nat, Slot>, c: nat)
    requires Owned(fat, chains, owner) && c in owner
    ensures Holds(chains, owner[c], c) && 2 <= c < |fat| && fat[c] != 0
  {
    hide IsChain, InRange;
    assert Owns(owner, owner[c], c);
    ChainUsed(fat, chains[owner[c]], c);
  }

  ghost predicate InSomeChain(chains: map<Slot, seq<nat>>, c: nat) {
    exists k :: Holds(chains, k, c)
  }

  /** Pairwise disjoint chains, each used cluster in exactly one of them. */
  lemma OwnedMeans(fat: seq<nat>, chains: map<Slot, seq<nat>>, owner: map<nat, Slot>)
    requires Owned(fat, chains, owner)
    ensures forall j, k, c :: Holds(chains, j, c) && Holds(chains, k, c) ==> j == k
    ensures forall c: nat :: 2 <= c < |fat| ==> (fat[c] != 0 <==> InSomeChain(chains, c))
  {
    hide IsChain, InRange;
    forall c: nat | 2 <= c < |fat|
      ensures fat[c] != 0 <==> InSomeChain(chains, c)
    {
      if c in owner {
        OwnedIsUsed(fat, chains, owner, c);
      }
    }
  }

  function Drop(owner: map<nat, Slot>, k: Slot): map<nat, Slot> {
    map c | c in owner && owner[c] != k :: owner[c]
  }

  lemma DropOwners(chains: map<Slot, seq<nat>>, owner: map<nat, Slot>, k: Slot)
    requires OwnersOk(chains, owner)
    ensures OwnersOk(chains - {k}, Drop(owner, k))
  {
    forall j, c
      ensures Holds(chains - {k}, j, c) <==> Owns(Drop(owner, k), j, c)
    {
      assert Holds(chains, j, c) <==> Owns(owner, j, c);
    }
  }

  /** Freeing an owned chain leaves the other chains as they were. */
  lemma Release(fat: seq<nat>, chains: map<Slot, seq<nat>>, owner: map<nat, Slot>, k: Slot)
    requires Owned(fat, chains, owner) && k in chains
    ensures chains[k] != [] && IsValidCluster(chains[k][0]) && chains[k][0] < |fat|
    ensures Owned(FreeChain(fat, chains[k][0]), chains - {k}, Drop(owner, k))
    ensures forall c: nat :: c < |fat| ==> FreeChain(fat, chains[k][0])[c] == if c in chains[k] then 0 else fat[c]
  {
    assert IsChain(fat, chains[k]);
    var xs := chains[k];
    var after := FreeChain(fat, xs[0]);
    hide IsChain, FreeChain, InRange, OwnersOk;
    forall c: nat | c < |fat|
      ensures after[c] == if c in xs then 0 else fat[c]
    {
      FreeChainOfChain(fat, xs, c);
    }
    DropOwners(chains, owner, k);
    forall j | j in chains - {k}
      ensures IsChain(after, chains[j])
    {
      Apart(chains, owner, j, k);
      SameChain(fat, after, chains[j]);
    }
    forall c: nat | 2 <= c < |fat| && after[c] != 0
      ensures c in Drop(owner, k)
    {
      OwnerIs(chains, owner, c, k);
    }
  }

  lemma Apart(chains: map<Slot, seq<nat>>, owner: map<nat, Slot>, j: Slot, k: Slot)
    requires OwnersOk(chains, owner) && j in chains && k in chains && j != k
    ensures forall c :: c in chains[j] ==> c !in chains[k]
  {
    forall c | c in chains[j]
      ensures c !in chains[k]
    {
      assert Holds(chains, j, c);
      assert Holds(chains, k, c) <==> Owns(owner, k, c);
    }
  }

  lemma OwnerIs(chains: map<Slot, seq<nat>>, owner: map<nat, Slot>, c: nat, k: Slot)
    requires OwnersOk(chains, owner) && c in owner && k in chains
    ensures c in chains[k] <==> owner[c] == k
  {
    assert Holds(chains, k, c) <==> Owns(owner, k, c);
  }

  /** A chain whose entries did not change is still a chain. */
  lemma SameChain(fat: seq<nat>, after: seq<nat>, xs: seq<nat>)
    requires IsChain(fat, xs) && |after| == |fat|
    requires forall c :: c in xs ==> after[c] == fat[c]
    ensures IsChain(after, xs)
  {
    forall i | 0 <= i < |xs|
      ensures after[xs[i]] == fat[xs[i]]
    {
      assert xs[i] in xs;
    }
  }

  function Give(owner: map<nat, Slot>, xs: seq<nat>, k: Slot): map<nat, Slot> {
    map c | c in owner.Keys + (set x | x in xs) :: if c in xs then k else owner[c]
  }

  lemma GiveOwners(chains: map<Slot, seq<nat>>, owner: map<nat, Slot>, k: Slot, xs: seq<nat>)
    requires OwnersOk(chains, owner) && k !in chains && forall c :: c in xs ==> c !in owner
    ensures OwnersOk(chains[k := xs], Give(owner, xs, k))
  {
    forall j, c
      ensures Holds(chains[k := xs], j, c) <==> Owns(Give(owner, xs, k), j, c)
    {
      assert Holds(chains, j, c) <==> Owns(owner, j, c);
    }
  }

  /** Linking free clusters gives a slot that owned nothing a chain. */
  lemma Acquire(fat: seq<nat>, chains: map<Slot, seq<nat>>, owner: map<nat, Slot>, k: Slot, xs: seq<nat>)
    requires Owned(fat, chains, owner) && k !in chains
    requires |xs| > 0 && Within(xs, 2, |fat|) && Increasing(xs) && forall c :: c in xs ==> fat[c] == 0
    ensures Owned(Link(fat, xs, END_MARK), chains[k := xs], Give(owner, xs, k))
    ensures forall c :: c in xs ==> c !in owner
  {
    var after := Link(fat, xs, END_MARK);
    LinkIsChain(fat, xs);
    forall c | c in xs
      ensures c !in owner
    {
      if c in owner {
        OwnedIsUsed(fat, chains, owner, c);
        assert false;
      }
    }
    hide IsChain, Link, InRange, OwnersOk;
    GiveOwners(chains, owner, k, xs);
    forall c: nat | c < |fat| && c !in xs
      ensures after[c] == fat[c]
    {
      LinkOther(fat, xs, END_MARK, c);
    }
    forall j | j in chains
      ensures IsChain(after, chains[j])
    {
      ApartFrom(chains, owner, j, xs);
      SameChain(fat, after, chains[j]);
    }
  }

  lemma ApartFrom(chains: map<Slot, seq<nat>>, owner: map<nat, Slot>, j: Slot, xs: seq<nat>)
    requires OwnersOk(chains, owner) && j in chains && forall c :: c in xs ==> c !in owner
    ensures forall c :: c in chains[j] ==> c !in xs
  {
    forall c | c in chains[j]
      ensures c !in xs
    {
      assert Holds(chains, j, c);
    }
  }

  // ---- the directory tree ----

  ghost predicate InTree(g: Geometry, depth: map<nat, nat>, k: Slot) {
    k.dir in depth && k.index < Slots(g)
  }

  function EntryOf(v: Vol, g: Geometry, k: Slot): (s: seq<byte>)
    requires Fits(v, g) && 2 <= k.dir < |v.data| && k.index < Slots(g)
    ensures |s| == SLOT
  {
    SlotAt(v.data[k.dir], k.index)
  }

  /** The first two slots of every directory but the root. */
  predicate IsDot(g: Geometry, k: Slot) {
    k.dir != g.rootCluster && k.index < 2
  }

  /** A slot agrees with the ledger: free slots own nothing, dot slots name the directory and its
      parent, and a live entry owns the chain that starts at its first cluster. */
  ghost predicate EntryOk(s: seq<byte>, g: Geometry, L: Ledger, k: Slot)
    requires |s| == SLOT
  {
    if !Live(s) then k !in L.chains
    else if IsDot(g, k) then
      && k !in L.chains && IsDir(s) && k.dir in L.owner
      && NameOf(s) == (if k.index == 0 then DOT_ENTRY else DOTDOT_ENTRY)
      && First(s) == (if k.index == 0 then k.dir else L.owner[k.dir].dir)
    else
      && CanonicalEntry(NameOf(s))
      && if First(s) == 0 then !IsDir(s) && k !in L.chains
         else
           && k in L.chains && L.chains[k] != [] && L.chains[k][0] == First(s)
           && (IsDir(s) ==> First(s) in L.depth && k.dir in L.depth && L.depth[First(s)] == L.depth[k.dir] + 1)
  }

  /** A directory below the root is named by one live entry of a directory one level up. */
  ghost predicate NamedBy(v: Vol, g: Geometry, L: Ledger, d: nat, p: Slot) {
    && Fits(v, g) && d in L.depth
    && InTree(g, L.depth, p) && 2 <= p.dir < |v.data| && L.depth[p.dir] + 1 == L.depth[d] && !IsDot(g, p)
    && Live(EntryOf(v, g, p)) && IsDir(EntryOf(v, g, p)) && First(EntryOf(v, g, p)) == d
  }

  ghost predicate DirOk(v: Vol, g: Geometry, L: Ledger, d: nat) {
    && Fits(v, g) && 2 <= d < |v.data| && Tidy(v.data[d], Slots(g))
    && d in L.owner && L.owner[d] in L.chains && L.chains[L.owner[d]] == [d]
    && (d == g.rootCluster <==> L.owner[d] == ROOT)
    && (d != g.rootCluster ==>
          NamedBy(v, g, L, d, L.owner[d]) && Live(EntryOf(v, g, Slot(d, 0))) && Live(EntryOf(v, g, Slot(d, 1))))
  }

  ghost predicate DirsOk(v: Vol, g: Geometry, L: Ledger) {
    && g.rootCluster in L.depth && L.depth[g.rootCluster] == 0
    && forall d {:trigger DirOk(v, g, L, d)} :: d in L.depth ==> DirOk(v, g, L, d)
  }

  ghost predicate EntriesOk(v: Vol, g: Geometry, L: Ledger) {
    && Fits(v, g)
    && forall k :: InTree(g, L.depth, k) ==> 2 <= k.dir < |v.data| && EntryOk(EntryOf(v, g, k), g, L, k)
  }

  ghost predicate KeysOk(g: Geometry, L: Ledger) {
    forall k :: k in L.chains ==> k == ROOT || InTree(g, L.depth, k)
  }

  /** A consistent volume, with the ledger that shows it. */
  ghost predicate Consistent(v: Vol, g: Geometry, L: Ledger) {
    Fits(v, g) && Owned(v.fat, L.chains, L.owner) && DirsOk(v, g, L) && EntriesOk(v, g, L) && KeysOk(g, L)
  }

  /** From `v, L` to `w, M` nothing changed except at the slot `k`: directories keep their owner and
      depth, other slots keep their bytes and their chain. */
  ghost predicate Frame(v: Vol, g: Geometry, L: Ledger, w: Vol, M: Ledger, k: Slot) {
    && Fits(v, g) && Fits(w, g)
    && (forall d :: d in L.depth ==> d in M.depth && M.depth[d] == L.depth[d])
    && (forall d :: d in L.depth && d in L.owner ==> d in M.owner && M.owner[d] == L.owner[d])
    && (forall j :: j != k && (j == ROOT || InTree(g, L.depth, j)) ==> SameChainOf(L, M, j))
    && (forall j :: j != k && InTree(g, L.depth, j) && 2 <= j.dir < |v.data| ==> EntryOf(w, g, j) == EntryOf(v, g, j))
  }

  ghost predicate SameChainOf(L: Ledger, M: Ledger, j: Slot) {
    (j in L.chains <==> j in M.chains) && (j in L.chains ==> M.chains[j] == L.chains[j])
  }

  lemma EntryKept(v: Vol, g: Geometry, L: Ledger, w: Vol, M: Ledger, k: Slot, j: Slot)
    requires Consistent(v, g, L) && Frame(v, g, L, w, M, k) && j != k && InTree(g, L.depth, j)
    ensures 2 <= j.dir < |v.data| && EntryOk(EntryOf(w, g, j), g, M, j)
  {
    hide Owned, Tidy, CanonicalEntry, EntryOf, First, NameOf, NamedBy;
    var s := EntryOf(v, g, j);
    assert EntryOk(s, g, L, j) && SameChainOf(L, M, j) && EntryOf(w, g, j) == s;
  }

  lemma DirKept(v: Vol, g: Geometry, L: Ledger, w: Vol, M: Ledger, k: Slot, d: nat)
    requires Consistent(v, g, L) && Frame(v, g, L, w, M, k) && d in L.depth
    requires d < |w.data| && Tidy(w.data[d], Slots(g)) && !IsDot(g, k) && k != ROOT && d in L.owner && L.owner[d] != k
    ensures DirOk(w, g, M, d)
  {
    hide Owned, Tidy, CanonicalEntry, EntryOf, First, NameOf, EntriesOk, KeysOk;
    assert DirOk(v, g, L, d);
    assert SameChainOf(L, M, L.owner[d]);
    if d != g.rootCluster {
      var p := L.owner[d];
      assert EntryOf(w, g, p) == EntryOf(v, g, p);
      assert IsDot(g, Slot(d, 0)) && IsDot(g, Slot(d, 1));
      assert EntryOf(w, g, Slot(d, 0)) == EntryOf(v, g, Slot(d, 0));
      assert EntryOf(w, g, Slot(d, 1)) == EntryOf(v, g, Slot(d, 1));
    }
  }

  /** The directories that `M` has and `L` had not are in order, entries included. */
  ghost predicate NewDirsOk(w: Vol, g: Geometry, L: Ledger, M: Ledger) {
    && Fits(w, g)
    && (forall d :: d in M.depth && d !in L.depth ==> DirOk(w, g, M, d))
    && (forall j :: InTree(g, M.depth, j) && j.dir !in L.depth ==> 2 <= j.dir < |w.data| && EntryOk(EntryOf(w, g, j), g, M, j))
  }

  /** No entry that names a directory has changed. */
  ghost predicate DirEntriesKept(v: Vol, g: Geometry, depth: map<nat, nat>, w: Vol) {
    && Fits(v, g) && Fits(w, g)
    && forall j :: InTree(g, depth, j) && 2 <= j.dir < |v.data| && Live(EntryOf(v, g, j)) && IsDir(EntryOf(v, g, j)) ==>
         EntryOf(w, g, j) == EntryOf(v, g, j)
  }

  /** No entry but the one of slot `k` has changed. */
  ghost predicate OthersKept(v: Vol, g: Geometry, depth: map<nat, nat>, w: Vol, k: Slot) {
    && Fits(v, g) && Fits(w, g)
    && forall j :: j != k && InTree(g, depth, j) && 2 <= j.dir < |v.data| ==> EntryOf(w, g, j) == EntryOf(v, g, j)
  }

  lemma FrameKeepsOthers(v: Vol, g: Geometry, L: Ledger, w: Vol, M: Ledger, k: Slot)
    requires Frame(v, g, L, w, M, k)
    ensures OthersKept(v, g, L.depth, w, k)
  {
    hide EntryOf;
  }

  lemma ChangeKeepsDir(v: Vol, g: Geometry, L: Ledger, w: Vol, M: Ledger, k: Slot, d: nat)
    requires Consistent(v, g, L) && Frame(v, g, L, w, M, k) && InTree(g, L.depth, k) && !IsDot(g, k) && 2 <= k.dir < |v.data|
    requires !(Live(EntryOf(v, g, k)) && IsDir(EntryOf(v, g, k))) && d in L.depth && d < |w.data| && Tidy(w.data[d], Slots(g))
    ensures DirOk(w, g, M, d)
  {
    hide Owned, Tidy, CanonicalEntry, EntryOf, First, NameOf, EntryOk, EntriesOk, KeysOk, Frame;
    assert DirOk(v, g, L, d);
    assert L.owner[d] != k;
    DirKept(v, g, L, w, M, k, d);
  }

  lemma ChangeKeepsDirs(v: Vol, g: Geometry, L: Ledger, w: Vol, M: Ledger, k: Slot)
    requires Consistent(v, g, L) && Frame(v, g, L, w, M, k) && InTree(g, L.depth, k) && !IsDot(g, k) && 2 <= k.dir < |v.data|
    requires !(Live(EntryOf(v, g, k)) && IsDir(EntryOf(v, g, k))) && NewDirsOk(w, g, L, M)
    requires forall d :: d in L.depth ==> d < |w.data| && Tidy(w.data[d], Slots(g))
    ensures DirsOk(w, g, M)
  {
    hide Owned, Tidy, EntryOf, EntryOk, EntriesOk, KeysOk, DirOk, IsDot, Live;
    forall d | d in M.depth
      ensures DirOk(w, g, M, d)
    {
      if d in L.depth {
        ChangeKeepsDir(v, g, L, w, M, k, d);
      }
    }
  }

  lemma ChangeKeepsEntries(v: Vol, g: Geometry, L: Ledger, w: Vol, M: Ledger, k: Slot)
    requires Fits(v, g) && Consistent(v, g, L) && Frame(v, g, L, w, M, k) && NewDirsOk(w, g, L, M)
    requires InTree(g, L.depth, k) && 2 <= k.dir < |v.data| && EntryOk(EntryOf(w, g, k), g, M, k)
    ensures EntriesOk(w, g, M)
  {
    hide Consistent, EntryOf, EntryOk, DirOk;
    forall j | InTree(g, M.depth, j)
      ensures 2 <= j.dir < |w.data| && EntryOk(EntryOf(w, g, j), g, M, j)
    {
      if j.dir in L.depth && j != k {
        EntryKept(v, g, L, w, M, k, j);
      }
    }
  }

  /** Replacing an entry that names no directory, with every other slot framed, keeps a volume consistent. */
  lemma ChangeKeeps(v: Vol, g: Geometry, L: Ledger, w: Vol, M: Ledger, k: Slot)
    requires Consistent(v, g, L) && Frame(v, g, L, w, M, k) && Owned(w.fat, M.chains, M.owner) && KeysOk(g, M)
    requires InTree(g, L.depth, k) && !IsDot(g, k) && 2 <= k.dir < |v.data|
    requires !(Live(EntryOf(v, g, k)) && IsDir(EntryOf(v, g, k)))
    requires EntryOk(EntryOf(w, g, k), g, M, k)
    requires forall d :: d in L.depth ==> d < |w.data| && Tidy(w.data[d], Slots(g))
    requires NewDirsOk(w, g, L, M)
    ensures Consistent(w, g, M) && DirEntriesKept(v, g, L.depth, w) && OthersKept(v, g, L.depth, w, k)
  {
    hide Owned, Tidy, EntryOf, EntryOk, KeysOk, DirsOk, EntriesOk, NewDirsOk, IsDot, Live;
    ChangeKeepsDirs(v, g, L, w, M, k);
    ChangeKeepsEntries(v, g, L, w, M, k);
    FrameKeepsOthers(v, g, L, w, M, k);
  }

  // ---- writing a file ----

  /** The ledger after a slot's chain has been freed. */
  function Released(L: Ledger, k: Slot): Ledger {
    if k in L.chains then L.(chains := L.chains - {k}, owner := Drop(L.owner, k)) else L
  }

  function Given(L: Ledger, k: Slot, xs: seq<nat>): Ledger {
    L.(chains := L.chains[k := xs], owner := Give(L.owner, xs, k))
  }

  /** Freeing what a slot names is freeing its chain, if it owns one. */
  lemma ReleaseSlot(v: Vol, g: Geometry, L: Ledger, k: Slot)
    requires Consistent(v, g, L) && InTree(g, L.depth, k) && 2 <= k.dir < |v.data| && !IsDot(g, k)
    ensures var freed := WithoutChain(v, First(EntryOf(v, g, k)));
            && freed.data == v.data && Freeable(v, First(EntryOf(v, g, k)))
            && Owned(freed.fat, Released(L, k).chains, Released(L, k).owner)
            && k !in Released(L, k).chains
  {
    var s := EntryOf(v, g, k);
    assert EntryOk(s, g, L, k) && DirOk(v, g, L, k.dir);
    hide Tidy, CanonicalEntry, EntryOf, NameOf, DirsOk, EntriesOk, KeysOk, OwnersOk, Covered;
    if k in L.chains {
      Release(v.fat, L.chains, L.owner, k);
    } else {
      assert First(s) == 0;
    }
  }

  /** Slot `k` of a directory was overwritten with `s`; other directories were not touched. */
  ghost predicate OneSlotPut(v: Vol, g: Geometry, depth: map<nat, nat>, w: Vol, k: Slot, s: seq<byte>) {
    && Fits(v, g) && Fits(w, g) && 2 <= k.dir < |v.data| && k.index < Slots(g) && |s| == SLOT
    && w.data[k.dir] == PutSlot(v.data[k.dir], k.index, s)
    && forall d :: d in depth && d != k.dir && d < |v.data| ==> w.data[d] == v.data[d]
  }

  /** Directories keep their owner, and slots other than `k` their chain. */
  ghost predicate LedgerFrame(g: Geometry, L: Ledger, M: Ledger, k: Slot) {
    && (forall d :: d in L.depth ==> d in M.depth && M.depth[d] == L.depth[d])
    && (forall d :: d in L.depth && d in L.owner ==> d in M.owner && M.owner[d] == L.owner[d])
    && (forall j :: j != k && (j == ROOT || InTree(g, L.depth, j)) ==> SameChainOf(L, M, j))
  }

  lemma PutFrame(v: Vol, g: Geometry, L: Ledger, w: Vol, M: Ledger, k: Slot, s: seq<byte>)
    requires OneSlotPut(v, g, L.depth, w, k, s) && LedgerFrame(g, L, M, k) && InTree(g, L.depth, k)
    ensures Frame(v, g, L, w, M, k) && EntryOf(w, g, k) == s
  {
    hide PutSlot, SlotAt, SameChainOf;
    SlotAfterPut(v.data[k.dir], k.index, s, k.index);
    forall j | j != k && InTree(g, L.depth, j) && 2 <= j.dir < |v.data|
      ensures EntryOf(w, g, j) == EntryOf(v, g, j)
    {
      if j.dir == k.dir {
        SlotAfterPut(v.data[k.dir], k.index, s, j.index);
      }
    }
  }

  /** A directory's own cluster is not in the chain of an entry that names no directory. */
  lemma DirsNotIn(v: Vol, g: Geometry, L: Ledger, k: Slot, d: nat)
    requires Consistent(v, g, L) && d in L.depth && InTree(g, L.depth, k) && 2 <= k.dir < |v.data|
    requires !(Live(EntryOf(v, g, k)) && IsDir(EntryOf(v, g, k)))
    ensures d in L.owner && L.owner[d] != k
  {
    hide Owned, Tidy, EntriesOk, KeysOk, EntryOf, First;
    assert DirOk(v, g, L, d) && DirOk(v, g, L, k.dir);
  }

  lemma ReleasedFrame(v: Vol, g: Geometry, L: Ledger, k: Slot)
    requires Consistent(v, g, L) && InTree(g, L.depth, k) && 2 <= k.dir < |v.data|
    requires !(Live(EntryOf(v, g, k)) && IsDir(EntryOf(v, g, k)))
    ensures LedgerFrame(g, L, Released(L, k), k)
    ensures KeysOk(g, L) ==> KeysOk(g, Released(L, k))
  {
    hide Owned, EntriesOk, EntryOf, DirsOk;
    forall d | d in L.depth
      ensures d in L.owner && L.owner[d] != k
    {
      DirsNotIn(v, g, L, k, d);
    }
  }

  lemma GivenFrame(g: Geometry, L: Ledger, R: Ledger, k: Slot, xs: seq<nat>)
    requires LedgerFrame(g, L, R, k) && KeysOk(g, R) && InTree(g, R.depth, k) && forall c :: c in xs ==> c !in R.owner
    ensures LedgerFrame(g, L, Given(R, k, xs), k) && KeysOk(g, Given(R, k, xs))
  {
    forall j | j != k && (j == ROOT || InTree(g, L.depth, j))
      ensures SameChainOf(L, Given(R, k, xs), j)
    {
      assert SameChainOf(L, R, j);
    }
  }

  /** Everything `ChangeKeeps` asks about the directories, for a file entry put in a picked slot. */
  lemma FilePut(v: Vol, g: Geometry, L: Ledger, w: Vol, M: Ledger, k: Slot, s: seq<byte>)
    requires Consistent(v, g, L) && InTree(g, L.depth, k) && !IsDot(g, k) && 2 <= k.dir < |v.data|
    requires !(Live(EntryOf(v, g, k)) && IsDir(EntryOf(v, g, k)))
    requires OneSlotPut(v, g, L.depth, w, k, s) && LedgerFrame(g, L, M, k) && M.depth == L.depth
    requires Owned(w.fat, M.chains, M.owner) && KeysOk(g, M)
    requires EntryOk(s, g, M, k) && Tidy(w.data[k.dir], Slots(g))
    ensures Consistent(w, g, M) && DirEntriesKept(v, g, L.depth, w) && OthersKept(v, g, L.depth, w, k)
  {
    hide DirEntriesKept, OthersKept, Owned, Tidy, CanonicalEntry, EntryOf, EntryOk, KeysOk, PutSlot, LedgerFrame, Frame;
    PutFrame(v, g, L, w, M, k, s);
    forall d | d in L.depth
      ensures d < |w.data| && Tidy(w.data[d], Slots(g))
    {
      assert DirOk(v, g, L, d);
    }
    ChangeKeeps(v, g, L, w, M, k);
  }

  /** A slot `fat32_write` may fill with an entry called `name`. */
  ghost predicate Target(v: Vol, g: Geometry, L: Ledger, k: Slot, name: seq<byte>) {
    && Consistent(v, g, L) && InTree(g, L.depth, k) && !IsDot(g, k) && 2 <= k.dir < |v.data|
    && !(Live(EntryOf(v, g, k)) && IsDir(EntryOf(v, g, k)))
    && CanonicalEntry(name) && Picked(v.data[k.dir], Slots(g), name, Some(k.index))
  }

  lemma FileEntryOk(g: Geometry, k: Slot, name: seq<byte>, first: nat, size: nat, M: Ledger)
    requires CanonicalEntry(name) && |name| == 11 && !IsDot(g, k) && first < 0x1_0000_0000 && size < 0x1_0000_0000
    requires if first == 0 then k !in M.chains else k in M.chains && M.chains[k] != [] && M.chains[k][0] == first
    ensures var s := MakeSlot(name, ATTR_ARCHIVE, first, size);
            EntryOk(s, g, M, k) && Live(s) && TidySlot(s) && NameOf(s) == name
  {
    CanonicalEntryFirst(name);
    MadeSlot(name, ATTR_ARCHIVE, first, size);
    hide MakeSlot, CanonicalEntry, First, NameOf;
  }

  /** The directory of a picked slot stays tidy when an entry of that name is put there. */
  lemma TargetTidy(v: Vol, g: Geometry, L: Ledger, k: Slot, name: seq<byte>, s: seq<byte>)
    requires Target(v, g, L, k, name) && |s| == SLOT && Live(s) && TidySlot(s) && NameOf(s) == name
    ensures Tidy(PutSlot(v.data[k.dir], k.index, s), Slots(g))
  {
    assert DirOk(v, g, L, k.dir);
    hide Owned, CanonicalEntry, EntriesOk, KeysOk, First, DirsOk, NamedBy, Tidy, Picked, TidySlot, Live, PutSlot;
    TidyPut(v.data[k.dir], Slots(g), k.index, s);
  }

  lemma StoreFileEmpty(v: Vol, g: Geometry, d: nat, p: nat, name: seq<byte>)
    requires Fits(v, g) && 2 <= d < |v.data| && p < Slots(g) && |name| == 11
    ensures var freed := WithoutChain(v, First(SlotAt(v.data[d], p)));
            && Fits(freed, g)
            && StoreFile(v, g, d, p, name, [])
               == Done(WithSlot(freed, d, v.data[d], p, MakeSlot(name, ATTR_ARCHIVE, 0, 0)))
  {
    hide WithoutChain, MakeSlot, PutSlot, SlotAt, First;
  }

  lemma StoreEmptyKeeps(v: Vol, g: Geometry, L: Ledger, k: Slot, name: seq<byte>)
    requires Target(v, g, L, k, name) && |name| == 11
    ensures StoreFile(v, g, k.dir, k.index, name, []).Done?
    ensures Consistent(StoreFile(v, g, k.dir, k.index, name, []).v, g, Released(L, k))
    ensures DirEntriesKept(v, g, L.depth, StoreFile(v, g, k.dir, k.index, name, []).v)
    ensures OthersKept(v, g, L.depth, StoreFile(v, g, k.dir, k.index, name, []).v, k)
  {
    var s := MakeSlot(name, ATTR_ARCHIVE, 0, 0);
    var freed := WithoutChain(v, First(EntryOf(v, g, k)));
    StoreFileEmpty(v, g, k.dir, k.index, name);
    hide DirEntriesKept, OthersKept, StoreFile, MakeSlot, Tidy, CanonicalEntry, PutSlot, Picked, DirsOk, EntriesOk, Owned, KeysOk, LedgerFrame, EntryOk, WithoutChain;
    StoreKeeps(v, g, L, k, name, s, freed, freed, StoreFile(v, g, k.dir, k.index, name, []).v, Released(L, k), 0, 0);
  }

  /** A file slot put over a released one, with the directories untouched in between. */
  lemma StoreKeeps(v: Vol, g: Geometry, L: Ledger, k: Slot, name: seq<byte>, s: seq<byte>, freed: Vol, stored: Vol, w: Vol, M: Ledger, first: nat, size: nat)
    requires Target(v, g, L, k, name) && |name| == 11 && first < 0x1_0000_0000 && size < 0x1_0000_0000
    requires s == MakeSlot(name, ATTR_ARCHIVE, first, size) && freed == WithoutChain(v, First(EntryOf(v, g, k)))
    requires Fits(stored, g) && w == WithSlot(stored, k.dir, v.data[k.dir], k.index, s)
    requires forall d :: d in L.depth && d < |v.data| ==> stored.data[d] == v.data[d]
    requires first == 0 ==> M == Released(L, k) && stored == freed
    requires first != 0 ==> k in M.chains && M.chains[k] != [] && M.chains[k][0] == first
    requires first != 0 ==> Owned(stored.fat, M.chains, M.owner) && LedgerFrame(g, L, M, k) && KeysOk(g, M) && M.depth == L.depth
    ensures Consistent(w, g, M) && DirEntriesKept(v, g, L.depth, w) && OthersKept(v, g, L.depth, w, k)
  {
    hide DirEntriesKept, OthersKept, MakeSlot, Tidy, CanonicalEntry, PutSlot, Picked, DirsOk, EntriesOk, Owned, KeysOk, LedgerFrame, EntryOk, WithoutChain;
    ReleaseSlot(v, g, L, k);
    ReleasedFrame(v, g, L, k);
    FileEntryOk(g, k, name, first, size, M);
    TargetTidy(v, g, L, k, name, s);
    FilePut(v, g, L, w, M, k, s);
  }

  /** Storing along a freshly allocated chain does not touch the directories. */
  lemma StoreKeepsDirs(v: Vol, g: Geometry, xs: seq<nat>, bytes: seq<byte>, depth: map<nat, nat>)
    requires VolOk(v, g.ClusterSize()) && IsChain(v.fat, xs)
    requires forall d :: d in depth ==> d !in xs
    ensures forall d :: d in depth && d < |v.data| ==> WriteLoop(v, g.ClusterSize(), xs[0], bytes).data[d] == v.data[d]
  {
    hide WriteLoop;
    forall d | d in depth && d < |v.data|
      ensures WriteLoop(v, g.ClusterSize(), xs[0], bytes).data[d] == v.data[d]
    {
      WriteLoopOther(v, g.ClusterSize(), xs, bytes, d);
    }
  }

  /** The steps of a successful `fat32_write` with data. */
  lemma StoreFileSteps(v: Vol, g: Geometry, d: nat, p: nat, name: seq<byte>, bytes: seq<byte>)
    returns (freed: Vol, xs: seq<nat>, linked: Vol, stored: Vol)
    requires Fits(v, g) && 2 <= d < |v.data| && p < Slots(g) && |name| == 11 && 0 < |bytes| < 0x1_0000_0000
    requires StoreFile(v, g, d, p, name, bytes).Done?
    ensures freed == WithoutChain(v, First(SlotAt(v.data[d], p)))
    ensures |xs| == (ClustersFor(|bytes|, g.ClusterSize()) + 1) / 2 > 0 && xs <= Frees(freed.fat, 2)
    ensures Within(xs, 2, |freed.fat|) && Increasing(xs) && forall c :: c in xs ==> freed.fat[c] == 0
    ensures linked == freed.(fat := Link(freed.fat, xs, END_MARK)) && Fits(linked, g) && IsChain(linked.fat, xs)
    ensures xs[0] < 0x1_0000_0000
    ensures stored == WriteLoop(linked, g.ClusterSize(), xs[0], bytes) && Fits(stored, g)
    ensures StoreFile(v, g, d, p, name, bytes).v
            == WithSlot(stored, d, v.data[d], p, MakeSlot(name, ATTR_ARCHIVE, xs[0], |bytes|))
  {
    freed := WithoutChain(v, First(SlotAt(v.data[d], p)));
    var fs, count := Frees(freed.fat, 2), ClustersFor(|bytes|, g.ClusterSize());
    FreesAre(freed.fat, 2);
    AllocatorLaw(freed.fat, fs, count);
    xs := fs[..(count + 1) / 2];
    linked := freed.(fat := Allocated(freed.fat, fs, count));
    stored := WriteLoop(linked, g.ClusterSize(), xs[0], bytes);
    hide Frees, FreeChain, PutSlot, SlotAt, MakeSlot, WriteLoop, Link, WithoutChain, First;
  }

  lemma StoreDataKeeps(v: Vol, g: Geometry, L: Ledger, k: Slot, name: seq<byte>, bytes: seq<byte>) returns (M: Ledger)
    requires Target(v, g, L, k, name) && bytes != [] && |bytes| < 0x1_0000_0000
    requires |name| == 11 && StoreFile(v, g, k.dir, k.index, name, bytes).Done?
    ensures Consistent(StoreFile(v, g, k.dir, k.index, name, bytes).v, g, M) && M.depth == L.depth
    ensures forall j :: j != k ==> SameChainOf(L, M, j)
    ensures DirEntriesKept(v, g, L.depth, StoreFile(v, g, k.dir, k.index, name, bytes).v)
    ensures OthersKept(v, g, L.depth, StoreFile(v, g, k.dir, k.index, name, bytes).v, k)
  {
    var freed, xs, linked, stored := StoreFileSteps(v, g, k.dir, k.index, name, bytes);
    var R := Released(L, k);
    M := Given(R, k, xs);
    hide DirEntriesKept, OthersKept, StoreFile, Frees, Tidy, CanonicalEntry, KeysOk, PutSlot, LedgerFrame, MakeSlot, Picked, DirsOk, EntriesOk, EntryOk;
    hide WithoutChain, WriteLoop, Owned, IsChain, Link, Within, Increasing;
    ReleaseSlot(v, g, L, k);
    ReleasedFrame(v, g, L, k);
    Acquire(freed.fat, R.chains, R.owner, k, xs);
    GivenFrame(g, L, R, k, xs);
    NotInFresh(v, g, L, k, R, xs);
    StoreKeepsDirs(linked, g, xs, bytes, L.depth);
    StoreKeeps(v, g, L, k, name, MakeSlot(name, ATTR_ARCHIVE, xs[0], |bytes|), freed, stored,
               StoreFile(v, g, k.dir, k.index, name, bytes).v, M, xs[0], |bytes|);
  }

  lemma NotInFresh(v: Vol, g: Geometry, L: Ledger, k: Slot, R: Ledger, xs: seq<nat>)
    requires Consistent(v, g, L) && R == Released(L, k) && LedgerFrame(g, L, R, k)
    requires forall c :: c in xs ==> c !in R.owner
    ensures forall d :: d in L.depth ==> d !in xs
  {
    hide Owned, EntriesOk, KeysOk;
    forall d | d in L.depth
      ensures d !in xs
    {
      assert DirOk(v, g, L, d);
    }
  }

  // ---- deleting a file ----

  lemma TidyDir(v: Vol, g: Geometry, L: Ledger, d: nat)
    requires Consistent(v, g, L) && d in L.depth
    ensures 2 <= d < |v.data| && Tidy(v.data[d], Slots(g))
  {
    assert DirOk(v, g, L, d);
  }

  lemma FreeEntryOk(s: seq<byte>, g: Geometry, M: Ledger, k: Slot)
    requires |s| == SLOT && s[0] == DELETED && k !in M.chains
    ensures EntryOk(s, g, M, k)
  {
  }

  lemma DeleteKeeps(v: Vol, g: Geometry, L: Ledger, k: Slot, s: seq<byte>, w: Vol)
    requires Consistent(v, g, L) && InTree(g, L.depth, k) && 2 <= k.dir < |v.data| && !IsDot(g, k)
    requires s == EntryOf(v, g, k) && Live(s) && !IsDir(s)
    requires w == WithSlot(WithoutChain(v, First(s)), k.dir, v.data[k.dir], k.index, Erased(s))
    ensures Consistent(w, g, Released(L, k)) && DirEntriesKept(v, g, L.depth, w) && OthersKept(v, g, L.depth, w, k)
  {
    hide DirEntriesKept, OthersKept, Tidy, CanonicalEntry, PutSlot, DirsOk, EntriesOk, Owned, KeysOk, LedgerFrame, WithoutChain, First, Erased, EntryOk, Live, IsDir;
    TidyDir(v, g, L, k.dir);
    ReleaseSlot(v, g, L, k);
    ReleasedFrame(v, g, L, k);
    TidyErase(v.data[k.dir], Slots(g), k.index);
    FreeEntryOk(Erased(s), g, Released(L, k), k);
    FilePut(v, g, L, w, Released(L, k), k, Erased(s));
  }

  // ---- making a directory ----

  /** The slots of a new directory: itself, its parent, then zeros. */
  lemma DirBlockSlots(g: Geometry, c: nat, parent: nat, i: nat)
    requires g.Ok() && 2 <= c < 0x1_0000_0000 && parent < 0x1_0000_0000 && i < Slots(g)
    ensures SlotAt(DirBlock(g, c, parent), i)
            == if i == 0 then MakeSlot(DOT_ENTRY, ATTR_DIRECTORY, c, 0)
               else if i == 1 then MakeSlot(DOTDOT_ENTRY, ATTR_DIRECTORY, parent, 0)
               else Zeros(SLOT)
  {
    hide MakeSlot;
    var b := DirBlock(g, c, parent);
    if i == 0 {
      assert b[..SLOT] == MakeSlot(DOT_ENTRY, ATTR_DIRECTORY, c, 0);
    } else if i == 1 {
      assert b[SLOT..2 * SLOT] == MakeSlot(DOTDOT_ENTRY, ATTR_DIRECTORY, parent, 0);
    } else {
      assert forall x :: 2 * SLOT <= x < |b| ==> b[x] == 0;
    }
  }

  lemma DirBlockTidy(g: Geometry, c: nat, parent: nat)
    requires g.Ok() && 2 <= c < 0x1_0000_0000 && parent < 0x1_0000_0000
    ensures Tidy(DirBlock(g, c, parent), Slots(g))
  {
    var b := DirBlock(g, c, parent);
    MadeSlot(DOT_ENTRY, ATTR_DIRECTORY, c, 0);
    MadeSlot(DOTDOT_ENTRY, ATTR_DIRECTORY, parent, 0);
    hide MakeSlot, DirBlock, SlotAt;
    forall i | 0 <= i < Slots(g)
      ensures SlotAt(b, i) == if i == 0 then MakeSlot(DOT_ENTRY, ATTR_DIRECTORY, c, 0)
                              else if i == 1 then MakeSlot(DOTDOT_ENTRY, ATTR_DIRECTORY, parent, 0)
                              else Zeros(SLOT)
    {
      DirBlockSlots(g, c, parent, i);
    }
    assert DOT_ENTRY[1] != DOTDOT_ENTRY[1];
  }

  /** The ledger with a new directory `c`, named by slot `k`. */
  function Grown(L: Ledger, k: Slot, c: nat): Ledger
    requires k.dir in L.depth
  {
    Given(L, k, [c]).(depth := L.depth[c := L.depth[k.dir] + 1])
  }

  /** The entries of a new directory agree with the grown ledger. */
  lemma NewDirEntries(g: Geometry, L: Ledger, k: Slot, c: nat, i: nat)
    requires g.Ok() && 2 <= c < EOC && k.dir < 0x1_0000_0000 && k.dir in L.depth && i < Slots(g)
    requires c != g.rootCluster && k.dir != c && Slot(c, i) !in L.chains
    ensures EntryOk(SlotAt(DirBlock(g, c, k.dir), i), g, Grown(L, k, c), Slot(c, i))
  {
    DirBlockSlots(g, c, k.dir, i);
    MadeSlot(DOT_ENTRY, ATTR_DIRECTORY, c, 0);
    MadeSlot(DOTDOT_ENTRY, ATTR_DIRECTORY, k.dir, 0);
    hide MakeSlot, DirBlock, SlotAt, First, NameOf, CanonicalEntry;
  }

  lemma DirEntryOk(g: Geometry, L: Ledger, k: Slot, name: seq<byte>, c: nat)
    requires CanonicalEntry(name) && |name| == 11 && !IsDot(g, k) && 2 <= c < 0x1_0000_0000 && k.dir in L.depth && k.dir != c
    ensures var s := MakeSlot(name, ATTR_DIRECTORY, c, 0);
            && EntryOk(s, g, Grown(L, k, c), k) && Live(s) && IsDir(s) && First(s) == c && TidySlot(s) && NameOf(s) == name
  {
    hide MakeSlot, CanonicalEntry, First, NameOf;
    CanonicalEntryFirst(name);
    MadeSlot(name, ATTR_DIRECTORY, c, 0);
  }

  lemma GrownFrame(g: Geometry, L: Ledger, k: Slot, c: nat)
    requires KeysOk(g, L) && InTree(g, L.depth, k) && c !in L.owner && c !in L.depth
    ensures LedgerFrame(g, L, Grown(L, k, c), k) && KeysOk(g, Grown(L, k, c))
  {
  }

  /** A fresh cluster is nobody's, and no directory. */
  lemma FreshIsNew(v: Vol, g: Geometry, L: Ledger, c: nat)
    requires Consistent(v, g, L) && 2 <= c < |v.fat| && v.fat[c] == 0
    ensures c !in L.owner && c !in L.depth && c != g.rootCluster
    ensures forall i :: Slot(c, i) !in L.chains
  {
    hide EntriesOk, DirOk;
    if c in L.owner {
      OwnedIsUsed(v.fat, L.chains, L.owner, c);
      assert false;
    }
    if c in L.depth {
      DirOwned(v, g, L, c);
      assert false;
    }
  }

  lemma DirOwned(v: Vol, g: Geometry, L: Ledger, d: nat)
    requires Consistent(v, g, L) && d in L.depth
    ensures d in L.owner
  {
    assert DirOk(v, g, L, d);
  }

  /** The new directory itself. */
  lemma NewDirOk(g: Geometry, L: Ledger, w: Vol, k: Slot, c: nat)
    requires Fits(w, g) && InTree(g, L.depth, k) && 2 <= k.dir < |w.data| && !IsDot(g, k) && k != ROOT
    requires 2 <= c < |w.data| && c != g.rootCluster && c !in L.depth && w.data[c] == DirBlock(g, c, k.dir)
    requires Live(EntryOf(w, g, k)) && IsDir(EntryOf(w, g, k)) && First(EntryOf(w, g, k)) == c
    requires forall i :: Slot(c, i) !in L.chains
    ensures NewDirsOk(w, g, L, Grown(L, k, c))
  {
    var M := Grown(L, k, c);
    hide Tidy, DirBlock, EntryOk, First, IsDir, CanonicalEntry;
    DirBlockTidy(g, c, k.dir);
    DirBlockSlots(g, c, k.dir, 0);
    DirBlockSlots(g, c, k.dir, 1);
    MadeSlot(DOT_ENTRY, ATTR_DIRECTORY, c, 0);
    MadeSlot(DOTDOT_ENTRY, ATTR_DIRECTORY, k.dir, 0);
    assert DirOk(w, g, M, c);
    forall j | InTree(g, M.depth, j) && j.dir !in L.depth
      ensures 2 <= j.dir < |w.data| && EntryOk(EntryOf(w, g, j), g, M, j)
    {
      NewDirEntries(g, L, k, c, j.index);
      assert j == Slot(c, j.index);
    }
  }

  lemma FreeSlotOwnsNothing(v: Vol, g: Geometry, L: Ledger, k: Slot)
    requires Consistent(v, g, L) && InTree(g, L.depth, k) && 2 <= k.dir < |v.data| && !Live(EntryOf(v, g, k))
    ensures k !in L.chains
  {
    hide Owned, DirsOk, KeysOk;
    assert EntryOk(EntryOf(v, g, k), g, L, k);
  }

  /** The volume with directory `c` made and named by the entry `s` in slot `k`. */
  function MadeDir(v: Vol, g: Geometry, k: Slot, c: nat, s: seq<byte>): (w: Vol)
    requires Fits(v, g) && 2 <= k.dir < |v.data| && k.index < Slots(g) && 2 <= c < |v.fat| && |s| == SLOT
  {
    WithSlot(Vol(Link(v.fat, [c], END_MARK), v.data[c := DirBlock(g, c, k.dir)]), k.dir, v.data[k.dir], k.index, s)
  }

  /** Naming a freshly made directory in a free slot keeps a volume consistent. */
  lemma MkdirKeeps(v: Vol, g: Geometry, L: Ledger, k: Slot, name: seq<byte>, c: nat, s: seq<byte>, w: Vol, M: Ledger)
    requires Fits(v, g) && Target(v, g, L, k, name) && |name| == 11 && !Live(EntryOf(v, g, k))
    requires 2 <= c < |v.fat| && v.fat[c] == 0 && s == MakeSlot(name, ATTR_DIRECTORY, c, 0)
    requires w == MadeDir(v, g, k, c, s) && M == Grown(L, k, c)
    ensures Consistent(w, g, M) && DirEntriesKept(v, g, L.depth, w) && OthersKept(v, g, L.depth, w, k)
  {
    hide DirEntriesKept, OthersKept, Consistent, CanonicalEntry, LedgerFrame, First, EntryOk, Live, IsDir, MakeSlot, Picked, Frame, NewDirsOk, MadeDir, KeysOk, OneSlotPut, EntryOf, Owned, Grown, Tidy;
    FreshIsNew(v, g, L, c);
    DirOwned(v, g, L, k.dir);
    MkdirOwned(v, g, L, k, c, s, w);
    MkdirFrame(v, g, L, k, c);
    DirEntryOk(g, L, k, name, c);
    MkdirShape(v, g, L, k, c, s, w);
    MkdirTidy(v, g, L, k, name, s, w);
    PutFrame(v, g, L, w, M, k, s);
    NewDirOk(g, L, w, k, c);
    ChangeKeeps(v, g, L, w, M, k);
  }

  lemma MkdirOwned(v: Vol, g: Geometry, L: Ledger, k: Slot, c: nat, s: seq<byte>, w: Vol)
    requires Consistent(v, g, L) && InTree(g, L.depth, k) && 2 <= k.dir < |v.data| && !Live(EntryOf(v, g, k))
    requires 2 <= c < |v.fat| && v.fat[c] == 0 && |s| == SLOT && w == MadeDir(v, g, k, c, s)
    ensures Owned(w.fat, Grown(L, k, c).chains, Grown(L, k, c).owner)
  {
    hide DirsOk, EntriesOk, OwnersOk, Covered, ChainsOk, KeysOk, Live, DirBlock, Link, PutSlot;
    FreeSlotOwnsNothing(v, g, L, k);
    Acquire(v.fat, L.chains, L.owner, k, [c]);
  }

  lemma MkdirFrame(v: Vol, g: Geometry, L: Ledger, k: Slot, c: nat)
    requires Consistent(v, g, L) && InTree(g, L.depth, k) && c !in L.owner && c !in L.depth
    ensures LedgerFrame(g, L, Grown(L, k, c), k) && KeysOk(g, Grown(L, k, c))
  {
    hide DirsOk, EntriesOk, Owned, LedgerFrame, KeysOk;
    GrownFrame(g, L, k, c);
  }

  lemma MkdirShape(v: Vol, g: Geometry, L: Ledger, k: Slot, c: nat, s: seq<byte>, w: Vol)
    requires Fits(v, g) && InTree(g, L.depth, k) && 2 <= k.dir < |v.data| && 2 <= c < |v.fat| && c !in L.depth && |s| == SLOT
    requires w == MadeDir(v, g, k, c, s)
    ensures Fits(w, g) && OneSlotPut(v, g, L.depth, w, k, s) && w.data[c] == DirBlock(g, c, k.dir)
  {
    hide PutSlot, DirBlock, Link;
    LinkIsChain(v.fat, [c]);
  }

  lemma MkdirTidy(v: Vol, g: Geometry, L: Ledger, k: Slot, name: seq<byte>, s: seq<byte>, w: Vol)
    requires Target(v, g, L, k, name) && OneSlotPut(v, g, L.depth, w, k, s)
    requires Live(s) && TidySlot(s) && NameOf(s) == name
    ensures forall d :: d in L.depth ==> d < |w.data| && Tidy(w.data[d], Slots(g))
  {
    hide Tidy, PutSlot, DirsOk, EntriesOk, Owned, KeysOk, Picked, Live, TidySlot, NameOf, CanonicalEntry;
    TargetTidy(v, g, L, k, name, s);
    forall d | d in L.depth
      ensures d < |w.data| && Tidy(w.data[d], Slots(g))
    {
      TidyDir(v, g, L, d);
    }
  }

  // ---- lookups in a consistent volume ----

  lemma EntryIs(v: Vol, g: Geometry, L: Ledger, k: Slot)
    requires Consistent(v, g, L) && InTree(g, L.depth, k)
    ensures 2 <= k.dir < |v.data| && EntryOk(EntryOf(v, g, k), g, L, k) && TidySlot(EntryOf(v, g, k))
    ensures IsDot(g, k) ==> Live(EntryOf(v, g, k)) && k.dir in L.owner && NamedBy(v, g, L, k.dir, L.owner[k.dir])
  {
    hide Owned, KeysOk, EntryOk, DirsOk, CanonicalEntry, NameOf, First, TidySlot;
    TidyDir(v, g, L, k.dir);
    if k.dir != g.rootCluster {
      DotsLive(v, g, L, k.dir);
    }
    assert TidySlot(SlotAt(v.data[k.dir], k.index));
  }

  lemma DotsLive(v: Vol, g: Geometry, L: Ledger, d: nat)
    requires Consistent(v, g, L) && d in L.depth && d != g.rootCluster
    ensures 2 <= d < |v.data| && d in L.owner && NamedBy(v, g, L, d, L.owner[d])
    ensures Live(EntryOf(v, g, Slot(d, 0))) && Live(EntryOf(v, g, Slot(d, 1)))
  {
    hide Owned, KeysOk, EntriesOk, NamedBy, EntryOf;
    assert DirOk(v, g, L, d);
  }

  /** The directories of the ledger are closed under descending. */
  lemma DirsAreClosed(v: Vol, g: Geometry, L: Ledger)
    requires Consistent(v, g, L)
    ensures DirsClosed(v, g, L.depth.Keys) && g.rootCluster in L.depth
  {
    hide Owned, KeysOk, EntryOk, EntriesOk, CanonicalEntry, NameOf, First, Tidy, NamedBy;
    forall d | d in L.depth
      ensures 2 <= d < |v.data| && DescentsStay(v.data[d], Slots(g), L.depth.Keys)
    {
      assert DirOk(v, g, L, d);
      forall i | 0 <= i < Slots(g) && SlotAt(v.data[d], i)[0] != 0 && !Skipped(SlotAt(v.data[d], i)) && IsDir(SlotAt(v.data[d], i))
        ensures First(SlotAt(v.data[d], i)) in L.depth
      {
        Descend(v, g, L, Slot(d, i));
      }
    }
  }

  lemma Descend(v: Vol, g: Geometry, L: Ledger, k: Slot)
    requires Consistent(v, g, L) && InTree(g, L.depth, k) && 2 <= k.dir < |v.data|
    requires Live(EntryOf(v, g, k)) && IsDir(EntryOf(v, g, k))
    ensures First(EntryOf(v, g, k)) in L.depth
  {
    hide Owned, KeysOk, DirsOk, EntriesOk, CanonicalEntry, NameOf, First, Tidy;
    EntryIs(v, g, L, k);
  }

  /** Live entries answer to a canonical text exactly when they hold its packed form. */
  lemma TextIsPacked(v: Vol, g: Geometry, L: Ledger, k: Slot, name: seq<byte>)
    requires Consistent(v, g, L) && InTree(g, L.depth, k) && 2 <= k.dir < |v.data| && Live(EntryOf(v, g, k)) && Canonical(name)
    ensures Hit(Text(name), EntryOf(v, g, k)) <==> Name83(name) == Some(NameOf(EntryOf(v, g, k)))
  {
    hide Owned, KeysOk, DirsOk, EntriesOk, First, Tidy, Matches, Name83, NameOf, NamedBy;
    EntryIs(v, g, L, k);
    var s := EntryOf(v, g, k);
    if IsDot(g, k) {
      DotMatches(name);
      CanonicalPacks(name);
      CanonicalEntryFirst(Name83(name).value);
    } else {
      MatchIsPackedEquality(NameOf(s), name);
    }
  }

  /** So a text lookup finds an entry exactly when the directory has one of that packed name. */
  lemma LookUpIs(v: Vol, g: Geometry, L: Ledger, d: nat, name: seq<byte>, i: nat)
    requires Consistent(v, g, L) && d in L.depth && Canonical(name) && i < Slots(g)
    requires 2 <= d < |v.data| && Live(EntryOf(v, g, Slot(d, i))) && Name83(name) == Some(NameOf(EntryOf(v, g, Slot(d, i))))
    ensures LookUp(v, g, d, Text(name)) == Some(EntryOf(v, g, Slot(d, i)))
    ensures LookUp(v, g, d, Packed(Name83(name).value)) == Some(EntryOf(v, g, Slot(d, i)))
  {
    var n := Slots(g);
    TidyDir(v, g, L, d);
    forall j | 0 <= j < n && j != i && Live(SlotAt(v.data[d], j))
      ensures NameOf(SlotAt(v.data[d], j)) != NameOf(SlotAt(v.data[d], i))
    {
    }
    hide Consistent, Tidy, Name83, NameOf, Matches, SlotAt, Scan;
    forall j | 0 <= j < n && Live(SlotAt(v.data[d], j))
      ensures Hit(Text(name), SlotAt(v.data[d], j)) <==> Name83(name) == Some(NameOf(SlotAt(v.data[d], j)))
    {
      TextIsPacked(v, g, L, Slot(d, j), name);
    }
    ScanHits(v.data[d], n, 0, Text(name), i);
    ScanHits(v.data[d], n, 0, Packed(Name83(name).value), i);
  }
}
