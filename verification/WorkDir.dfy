/** The working directory: `current_path` spells the way from the root to `current_dir_cluster`. */
module WorkDir {
  import opened Bytes
  import opened FatTable
  import opened Layout
  import opened Names
  import opened Directory
  import opened Operations
  import opened Consistency
  import opened Runs

  // ---- path texts ----

  ghost predicate AllCanonical(comps: seq<seq<byte>>) {
    forall i :: 0 <= i < |comps| ==> Canonical(comps[i])
  }

  /** Each name with a slash in front. */
  function Spell(comps: seq<seq<byte>>): (r: seq<byte>)
    decreases |comps|
  {
    if comps == [] then [] else Spell(comps[..|comps| - 1]) + [SLASH] + comps[|comps| - 1]
  }

  function PathOf(comps: seq<seq<byte>>): (r: seq<byte>)
    ensures r != []
  {
    if comps == [] then [SLASH] else Spell(comps)
  }

  /** A canonical name has no slash and is short. */
  lemma CanonicalIsPlain(c: seq<byte>)
    requires Canonical(c)
    ensures SLASH !in c && 0 < |c| <= 12 && c != [DOT] && c != [DOT, DOT]
  {
    NameParts(c);
  }

  /** A name as the walk reads it: up to the next slash, in a buffer of 255 bytes. */
  ghost predicate AllComponents(comps: seq<seq<byte>>) {
    forall i :: 0 <= i < |comps| ==> Component(comps[i])
  }

  predicate Component(c: seq<byte>) {
    c != [] && SLASH !in c && |c| <= 255
  }

  lemma CanonicalComponents(comps: seq<seq<byte>>)
    requires AllCanonical(comps)
    ensures AllComponents(comps)
  {
    hide Canonical;
    forall i | 0 <= i < |comps|
      ensures Component(comps[i])
    {
      CanonicalIsPlain(comps[i]);
    }
  }

  /** The walk keeps at most 255 bytes of a component. */
  function Buffered(c: seq<byte>): (r: seq<byte>) {
    if |c| <= 255 then c else c[..255]
  }

  lemma SpellStarts(comps: seq<seq<byte>>)
    requires comps != []
    ensures Spell(comps) != [] && Spell(comps)[0] == SLASH
  {
    if |comps| > 1 {
      SpellStarts(comps[..|comps| - 1]);
    }
  }

  lemma LastSlashIs(path: seq<byte>, i: nat, k: nat)
    requires k <= i < |path| && path[k] == SLASH && forall j :: k < j <= i ==> path[j] != SLASH
    ensures LastSlash(path, i) == k
    decreases i
  {
    if i > k {
      LastSlashIs(path, i - 1, k);
    }
  }

  lemma SplitAtLast(stem: seq<byte>, last: seq<byte>, path: seq<byte>)
    requires path == stem + [SLASH] + last && last != [] && SLASH !in last
    ensures LastSlash(path, |path| - 1) == |stem| && path[..|stem|] == stem && path[|stem| + 1..] == last
  {
    assert forall j :: |stem| < j < |path| ==> path[j] == last[j - |stem| - 1];
    LastSlashIs(path, |path| - 1, |stem|);
  }

  lemma CutLast(stem: seq<byte>, last: seq<byte>, path: seq<byte>)
    requires path == stem + [SLASH] + last && last != [] && SLASH !in last
    ensures ParentPath(path) == if stem == [] then [SLASH] else stem
  {
    hide LastSlash;
    SplitAtLast(stem, last, path);
  }

  /** ".." cuts the last name off. */
  lemma ParentOfPath(comps: seq<seq<byte>>)
    requires AllCanonical(comps) && comps != []
    ensures ParentPath(PathOf(comps)) == PathOf(comps[..|comps| - 1])
  {
    hide Canonical, ParentPath;
    var init, last := comps[..|comps| - 1], comps[|comps| - 1];
    CanonicalIsPlain(last);
    if init != [] {
      SpellStarts(init);
    }
    CutLast(Spell(init), last, PathOf(comps));
  }

  lemma SpellEnds(comps: seq<seq<byte>>)
    requires AllCanonical(comps) && comps != []
    ensures |Spell(comps)| > 1 && Spell(comps)[|Spell(comps)| - 1] != SLASH
  {
    hide Canonical;
    var last := comps[|comps| - 1];
    CanonicalIsPlain(last);
    assert last[|last| - 1] in last;
    assert Spell(comps)[|Spell(comps)| - 1] == last[|last| - 1];
  }

  /** A name more, spelled. */
  lemma PathOfMore(comps: seq<seq<byte>>, name: seq<byte>)
    requires AllCanonical(comps)
    ensures PathOf(comps + [name]) == Slashed(PathOf(comps)) + name
  {
    hide Canonical;
    assert (comps + [name])[..|comps|] == comps;
    if comps != [] {
      SpellEnds(comps);
    }
  }

  /** Descending appends a name, while the path stays within 255 bytes. */
  lemma ChildOfPath(comps: seq<seq<byte>>, name: seq<byte>)
    requires AllCanonical(comps) && |PathOf(comps + [name])| <= 255
    ensures ChildPath(PathOf(comps), name) == PathOf(comps + [name])
  {
    hide Canonical, Spell, PathOf;
    PathOfMore(comps, name);
  }

  // ---- resolving names ----

  /** Where descending through `comps` from directory `d` leads. */
  function Resolve(v: Vol, g: Geometry, d: nat, comps: seq<seq<byte>>): (r: Option<nat>)
    requires Fits(v, g)
    decreases |comps|
  {
    if comps == [] then Some(d)
    else
      match Resolve(v, g, d, comps[..|comps| - 1])
      case None => None
      case Some(e) =>
        match LookUp(v, g, e, Text(comps[|comps| - 1]))
        case None => None
        case Some(s) => if IsDir(s) then Some(First(s)) else None
  }

  /** The tracked path spells the way to the tracked cluster. */
  ghost predicate Coherent(v: Vol, g: Geometry, cwd: Cwd) {
    && Fits(v, g)
    && exists comps :: AllCanonical(comps) && cwd.path == PathOf(comps) && Resolve(v, g, g.rootCluster, comps) == Some(cwd.cluster)
  }

  lemma {:induction false} ResolveStays(v: Vol, g: Geometry, L: Ledger, comps: seq<seq<byte>>)
    requires Fits(v, g) && Consistent(v, g, L) && Resolve(v, g, g.rootCluster, comps).Some?
    ensures Resolve(v, g, g.rootCluster, comps).value in L.depth
    decreases |comps|
  {
    hide Consistent, LookUp, First, IsDir, DescentsStay;
    DirsAreClosed(v, g, L);
    if comps != [] {
      ResolveStays(v, g, L, comps[..|comps| - 1]);
      DescentIn(v, g, L.depth.Keys, Resolve(v, g, g.rootCluster, comps[..|comps| - 1]).value, Text(comps[|comps| - 1]));
    }
  }

  // ---- the driver's walk along a spelled path ----

  /** Reading a name that has no slash. */
  lemma {:induction false} WalkName(v: Vol, g: Geometry, d: nat, path: seq<byte>, i: nat, comp: seq<byte>, c: seq<byte>)
    requires Fits(v, g) && i + |c| <= |path| && Slice(path, i, |c|) == c && SLASH !in c && |comp| <= 255
    ensures Walk(v, g, d, path, i, comp) == Walk(v, g, d, path, i + |c|, Buffered(comp + c))
    decreases |c|
  {
    hide LookUp, Walk;
    if c == [] {
      assert comp + c == comp;
    } else {
      assert path[i] == Slice(path, i, |c|)[0] == c[0];
      WalkStep(v, g, d, path, i, comp);
      assert Slice(path, i + 1, |c| - 1) == c[1..];
      var more := if |comp| < 255 then comp + [c[0]] else comp;
      WalkName(v, g, d, path, i + 1, more, c[1..]);
      assert Buffered(more + c[1..]) == Buffered(comp + c);
    }
  }

  lemma {:induction false} SpellPrefix(comps: seq<seq<byte>>, n: nat)
    requires n <= |comps|
    ensures Spell(comps[..n]) <= Spell(comps)
    decreases |comps| - n
  {
    if n < |comps| {
      SpellPrefix(comps, n + 1);
      assert comps[..n + 1][..n] == comps[..n];
    } else {
      assert comps[..n] == comps;
    }
  }

  /** The n-th name within the spelled path. */
  lemma SpellAt(comps: seq<seq<byte>>, n: nat)
    requires n < |comps|
    ensures var i := |Spell(comps[..n])|;
            && i + 1 + |comps[n]| == |Spell(comps[..n + 1])| <= |Spell(comps)|
            && Spell(comps)[i] == SLASH && Slice(Spell(comps), i + 1, |comps[n]|) == comps[n]
  {
    assert comps[..n + 1][..n] == comps[..n];
    SpellPrefix(comps, n + 1);
    var part := Spell(comps[..n + 1]);
    assert part == Spell(comps)[..|part|];
    assert part == Spell(comps[..n]) + [SLASH] + comps[n];
    var i := |Spell(comps[..n])|;
    forall j | 0 <= j < |comps[n]|
      ensures Slice(Spell(comps), i + 1, |comps[n]|)[j] == comps[n][j]
    {
      assert Spell(comps)[i + 1 + j] == part[i + 1 + j];
    }
    assert Spell(comps)[i] == part[i];
  }

  /** After `n` names the walk is in the directory the first `n - 1` of them resolve to. */
  lemma {:induction false} WalkSpelled(v: Vol, g: Geometry, d: nat, comps: seq<seq<byte>>, n: nat)
    requires Fits(v, g) && AllComponents(comps) && 0 < n <= |comps|
    ensures |Spell(comps[..n])| <= |Spell(comps)| && 1 <= |Spell(comps)|
    ensures Walk(v, g, d, Spell(comps), 1, [])
            == match Resolve(v, g, d, comps[..n - 1])
               case None => NotFound
               case Some(e) => Walk(v, g, e, Spell(comps), |Spell(comps[..n])|, comps[n - 1])
    decreases n
  {
    hide LookUp, Walk, First, IsDir;
    var path := Spell(comps);
    assert Component(comps[n - 1]);
    SpellAt(comps, n - 1);
    if n == 1 {
      assert comps[..0] == [] && Spell(comps[..0]) == [];
      WalkName(v, g, d, path, 1, [], comps[0]);
      assert [] + comps[0] == comps[0];
    } else {
      WalkSpelled(v, g, d, comps, n - 1);
      assert comps[..n - 1][..n - 2] == comps[..n - 2];
      var e := Resolve(v, g, d, comps[..n - 2]);
      if e.Some? {
        assert Component(comps[n - 2]);
        var i := |Spell(comps[..n - 1])|;
        WalkStep(v, g, e.value, path, i, comps[n - 2]);
        var s := LookUp(v, g, e.value, Text(comps[n - 2]));
        if s.Some? && IsDir(s.value) {
          WalkName(v, g, First(s.value), path, i + 1, [], comps[n - 1]);
          assert [] + comps[n - 1] == comps[n - 1];
        }
      }
    }
  }

  /** Navigating a spelled path looks its last name up where the others lead. */
  lemma NavigateSpelled(v: Vol, g: Geometry, cwd: nat, comps: seq<seq<byte>>)
    requires Fits(v, g) && AllComponents(comps) && comps != []
    ensures var last := comps[|comps| - 1];
            Navigate(v, g, cwd, PathOf(comps))
            == match Resolve(v, g, g.rootCluster, comps[..|comps| - 1])
               case None => NotFound
               case Some(e) =>
                 match LookUp(v, g, e, Text(last))
                 case None => Missing(e, last)
                 case Some(s) => Found(e, last, s)
  {
    hide LookUp, Walk, First, IsDir;
    SpellStarts(comps);
    WalkSpelled(v, g, g.rootCluster, comps, |comps|);
    assert comps[..|comps|] == comps;
    assert Component(comps[|comps| - 1]);
    var e := Resolve(v, g, g.rootCluster, comps[..|comps| - 1]);
    if e.Some? {
      WalkStep(v, g, e.value, Spell(comps), |Spell(comps)|, comps[|comps| - 1]);
    }
  }

  /** A walk does not see what stands before its position. */
  lemma {:induction false} WalkShift(v: Vol, g: Geometry, d: nat, path: seq<byte>, i: nat, comp: seq<byte>)
    requires Fits(v, g) && i < |path|
    ensures Walk(v, g, d, path[1..], i, comp) == Walk(v, g, d, path, i + 1, comp)
    decreases |path| - i
  {
    hide LookUp, Walk;
    WalkStep(v, g, d, path[1..], i, comp);
    WalkStep(v, g, d, path, i + 1, comp);
    if i + 1 < |path| {
      if path[i + 1] != SLASH {
        WalkShift(v, g, d, path, i + 1, if |comp| < 255 then comp + [path[i + 1]] else comp);
      } else if comp == [] {
        WalkShift(v, g, d, path, i + 1, []);
      } else {
        var s := LookUp(v, g, d, Text(comp));
        if s.Some? && IsDir(s.value) {
          WalkShift(v, g, First(s.value), path, i + 1, []);
        }
      }
    }
  }

  /** Names joined by slashes, with no slash in front. */
  function Joined(comps: seq<seq<byte>>): (r: seq<byte>)
    requires comps != []
  {
    SpellStarts(comps);
    Spell(comps)[1..]
  }

  lemma JoinedStarts(comps: seq<seq<byte>>)
    requires AllComponents(comps) && comps != []
    ensures Joined(comps) != [] && Joined(comps)[0] != SLASH
  {
    assert Component(comps[0]);
    SpellStarts(comps);
    SpellAt(comps, 0);
    assert comps[..0] == [] && Spell(comps[..0]) == [];
    assert Slice(Spell(comps), 1, |comps[0]|)[0] == comps[0][0];
    assert comps[0][0] in comps[0];
  }

  /** Navigating joined names starts in the current directory. */
  lemma NavigateJoined(v: Vol, g: Geometry, cwd: nat, comps: seq<seq<byte>>)
    requires Fits(v, g) && AllComponents(comps) && comps != []
    ensures var last := comps[|comps| - 1];
            Navigate(v, g, cwd, Joined(comps))
            == match Resolve(v, g, cwd, comps[..|comps| - 1])
               case None => NotFound
               case Some(e) =>
                 match LookUp(v, g, e, Text(last))
                 case None => Missing(e, last)
                 case Some(s) => Found(e, last, s)
  {
    hide LookUp, Walk, First, IsDir, Resolve, Spell;
    SpellStarts(comps);
    JoinedStarts(comps);
    WalkShift(v, g, cwd, Spell(comps), 0, []);
    WalkSpelled(v, g, cwd, comps, |comps|);
    assert comps[..|comps|] == comps;
    assert Component(comps[|comps| - 1]);
    var e := Resolve(v, g, cwd, comps[..|comps| - 1]);
    if e.Some? {
      WalkStep(v, g, e.value, Spell(comps), |Spell(comps)|, comps[|comps| - 1]);
    }
  }

  /** A path that ends in a slash, or is empty, names nothing. */
  lemma {:induction false} WalkToSlash(v: Vol, g: Geometry, d: nat, path: seq<byte>, i: nat, comp: seq<byte>)
    requires Fits(v, g) && i <= |path| && (if i == |path| then comp == [] else path[|path| - 1] == SLASH)
    ensures !Walk(v, g, d, path, i, comp).Found?
    decreases |path| - i
  {
    hide LookUp, Walk;
    WalkStep(v, g, d, path, i, comp);
    if i < |path| {
      if path[i] != SLASH {
        WalkToSlash(v, g, d, path, i + 1, if |comp| < 255 then comp + [path[i]] else comp);
      } else if comp == [] {
        WalkToSlash(v, g, d, path, i + 1, []);
      } else {
        var s := LookUp(v, g, d, Text(comp));
        if s.Some? && IsDir(s.value) {
          WalkToSlash(v, g, First(s.value), path, i + 1, []);
        }
      }
    }
  }

  // ---- one chdir ----

  /** A one-component relative path is looked up in the current directory. */
  lemma NavigateOne(v: Vol, g: Geometry, cwd: nat, name: seq<byte>)
    requires Fits(v, g) && name != [] && SLASH !in name && |name| <= 255
    ensures Navigate(v, g, cwd, name)
            == match LookUp(v, g, cwd, Text(name))
               case None => Missing(cwd, name)
               case Some(s) => Found(cwd, name, s)
  {
    hide LookUp, Walk;
    assert name[0] in name;
    WalkName(v, g, cwd, name, 0, [], name);
    assert [] + name == name;
    WalkStep(v, g, cwd, name, |name|, name);
  }

  lemma ResolveMore(v: Vol, g: Geometry, comps: seq<seq<byte>>, name: seq<byte>, d: nat, s: seq<byte>)
    requires Fits(v, g) && Resolve(v, g, g.rootCluster, comps) == Some(d)
    requires LookUp(v, g, d, Text(name)) == Some(s) && IsDir(s)
    ensures Resolve(v, g, g.rootCluster, comps + [name]) == Some(First(s))
  {
    hide LookUp, IsDir, First;
    assert (comps + [name])[..|comps|] == comps;
  }

  /** The dot entries of a directory below the root, as lookups. */
  lemma DotLookUps(v: Vol, g: Geometry, L: Ledger, d: nat, name: seq<byte>)
    requires Fits(v, g) && Consistent(v, g, L) && d in L.depth && (name == [DOT] || name == [DOT, DOT])
    ensures var r := LookUp(v, g, d, Text(name));
            && (r.Some? ==> d != g.rootCluster && d in L.owner && First(r.value) == if name == [DOT] then d else L.owner[d].dir)
  {
    hide Consistent, Scan, First, IsDir, CanonicalEntry, Matches, NameOf, NamedBy, TidySlot;
    TidyDir(v, g, L, d);
    var i := Scan(v.data[d], Slots(g), 0, Text(name));
    if i.Some? {
      var k := Slot(d, i.value);
      EntryIs(v, g, L, k);
      DotMatches(name);
      if !IsDot(g, k) {
        CanonicalEntryFirst(NameOf(EntryOf(v, g, k)));
        assert false;
      }
    }
  }

  /** The slot that answers to a canonical text owns the directory it names. */
  lemma LookUpOwner(v: Vol, g: Geometry, L: Ledger, e: nat, name: seq<byte>)
    requires Fits(v, g) && Consistent(v, g, L) && e in L.depth && Canonical(name)
    requires LookUp(v, g, e, Text(name)).Some? && IsDir(LookUp(v, g, e, Text(name)).value)
    ensures var d := First(LookUp(v, g, e, Text(name)).value);
            d in L.owner && L.owner[d].dir == e
  {
    hide Consistent, Scan, First, IsDir, CanonicalEntry, Matches, NameOf, NamedBy, TidySlot, Accepted;
    TidyDir(v, g, L, e);
    var k := Slot(e, Scan(v.data[e], Slots(g), 0, Text(name)).value);
    EntryIs(v, g, L, k);
    DotMatches(name);
    ChainOwner(v, g, L, k);
  }

  lemma ChainOwner(v: Vol, g: Geometry, L: Ledger, k: Slot)
    requires Consistent(v, g, L)
    ensures k in L.chains && L.chains[k] != [] ==> L.chains[k][0] in L.owner && L.owner[L.chains[k][0]] == k
  {
    hide DirsOk, EntriesOk, KeysOk, ChainsOk, Covered, InRange;
    if k in L.chains && L.chains[k] != [] {
      assert Holds(L.chains, k, L.chains[k][0]);
    }
  }

  /** Dropping the last name leads to the directory that ".." names. */
  lemma ParentResolves(v: Vol, g: Geometry, L: Ledger, comps: seq<seq<byte>>, d: nat)
    requires Fits(v, g) && Consistent(v, g, L) && AllCanonical(comps) && comps != []
    requires Resolve(v, g, g.rootCluster, comps) == Some(d)
    ensures d in L.owner && Resolve(v, g, g.rootCluster, comps[..|comps| - 1]) == Some(L.owner[d].dir)
  {
    hide Consistent, LookUp, First, IsDir, Canonical;
    var init := comps[..|comps| - 1];
    ResolveStays(v, g, L, init);
    LookUpOwner(v, g, L, Resolve(v, g, g.rootCluster, init).value, comps[|comps| - 1]);
  }

  /** A child path under 255 bytes was not cut. */
  lemma ChildFits(comps: seq<seq<byte>>, name: seq<byte>)
    requires AllCanonical(comps) && |ChildPath(PathOf(comps), name)| < 255
    ensures |PathOf(comps + [name])| <= 255
  {
    hide Canonical, Spell, PathOf;
    PathOfMore(comps, name);
  }

  /** A chdir to a path that ends in a slash always fails, "/" included. */
  lemma ChdirToSlashFails(v: Vol, g: Geometry, cwd: Cwd, dir: seq<byte>)
    requires Fits(v, g) && 0 < |cwd.path| && (dir == [] || dir[|dir| - 1] == SLASH)
    ensures ChangeDir(v, g, cwd, dir) == None
  {
    hide LookUp, Walk, First, IsDir, ParentPath, ChildPath;
    var absolute := dir != [] && dir[0] == SLASH;
    WalkToSlash(v, g, if absolute then g.rootCluster else cwd.cluster, dir, if absolute then 1 else 0, []);
  }

  /** A chdir to the tracked path, from anywhere, leads back to the tracked directory exactly when that
      is not the root: "/" has no last component for the walk to find. */
  lemma ChdirToCwd(v: Vol, g: Geometry, cwd: Cwd, from: Cwd)
    requires Fits(v, g) && Coherent(v, g, cwd) && |cwd.path| <= 255 && 0 < |from.path|
    ensures ChangeDir(v, g, from, cwd.path) == Some(cwd) <==> cwd.path != [SLASH]
    ensures cwd.path == [SLASH] ==> ChangeDir(v, g, from, cwd.path) == None
  {
    hide LookUp, First, IsDir, Canonical, Navigate, ParentPath, ChildPath;
    if cwd.path == [SLASH] {
      ChdirToSlashFails(v, g, from, cwd.path);
    } else {
      var comps :| AllCanonical(comps) && cwd.path == PathOf(comps) && Resolve(v, g, g.rootCluster, comps) == Some(cwd.cluster);
      CanonicalComponents(comps);
      NavigateSpelled(v, g, from.cluster, comps);
      SpellStarts(comps);
    }
  }

  // ---- the path buffer ----

  /** What the chdir does to the path text depends on the last component only. */
  ghost predicate Descends(v: Vol, g: Geometry, cwd: Cwd, dir: seq<byte>)
    requires Fits(v, g)
  {
    var nav := Navigate(v, g, cwd.cluster, dir);
    nav.Found? && dir[0] != SLASH && nav.name != [DOT] && nav.name != [DOT, DOT]
  }

  /** A chdir keeps the path within its buffer of 256 bytes exactly unless it descends by a relative name
      from a path of 255 bytes that does not end in a slash. */
  lemma ChdirPathFits(v: Vol, g: Geometry, cwd: Cwd, dir: seq<byte>)
    requires Fits(v, g) && 0 < |cwd.path| <= 255 && dir != [] && ChangeDir(v, g, cwd, dir).Some?
    ensures |ChangeDir(v, g, cwd, dir).value.path| <= 255
            <==> !(Descends(v, g, cwd, dir) && |cwd.path| == 255 && cwd.path[254] != SLASH)
  {
    hide Navigate, LookUp, First, IsDir, LastSlash, ChildPath;
    var nav := Navigate(v, g, cwd.cluster, dir);
    if dir[0] != SLASH && nav.name != [DOT] && nav.name != [DOT, DOT] {
      ChildPathFits(cwd.path, nav.name);
    }
  }

  /** `n` slashes. */
  function Slashes(n: nat): (r: seq<byte>)
    ensures |r| == n && forall i :: 0 <= i < n ==> r[i] == SLASH
  {
    seq(n, _ => SLASH)
  }

  lemma {:induction false} WalkSlashes(v: Vol, g: Geometry, d: nat, path: seq<byte>, i: nat, n: nat)
    requires Fits(v, g) && i <= n <= |path| && forall j :: 0 <= j < n ==> path[j] == SLASH
    ensures Walk(v, g, d, path, i, []) == Walk(v, g, d, path, n, [])
    decreases n - i
  {
    hide LookUp, Walk;
    if i < n {
      WalkStep(v, g, d, path, i, []);
      WalkSlashes(v, g, d, path, i + 1, n);
    }
  }

  /** An absolute path is kept as it was given, superfluous slashes included. */
  lemma ChdirSlashes(v: Vol, g: Geometry, cwd: Cwd, n: nat, a: seq<byte>, s: seq<byte>)
    requires Fits(v, g) && 0 < |cwd.path| && 0 < n && n + |a| <= 255 && a != [] && SLASH !in a
    requires LookUp(v, g, g.rootCluster, Text(a)) == Some(s) && IsDir(s)
    ensures ChangeDir(v, g, cwd, Slashes(n) + a) == Some(Cwd(First(s), Slashes(n) + a))
  {
    hide LookUp, Walk, First, IsDir, ParentPath, ChildPath;
    var path := Slashes(n) + a;
    WalkSlashes(v, g, g.rootCluster, path, 1, n);
    WalkName(v, g, g.rootCluster, path, n, [], a);
    assert [] + a == a;
    WalkStep(v, g, g.rootCluster, path, |path|, a);
  }

  /** A path of 255 bytes that way, and one step down: the path no longer fits its buffer. */
  lemma PathOverrun(v: Vol, g: Geometry, cwd: Cwd, a: seq<byte>, s: seq<byte>, b: seq<byte>, t: seq<byte>)
    requires Fits(v, g) && 0 < |cwd.path| && Canonical(a) && Canonical(b)
    requires LookUp(v, g, g.rootCluster, Text(a)) == Some(s) && IsDir(s)
    requires LookUp(v, g, First(s), Text(b)) == Some(t) && IsDir(t)
    ensures |a| <= 12
    ensures var next := ChangeDir(v, g, cwd, Slashes(255 - |a|) + a);
            && next.Some? && |next.value.path| == 255
            && ChangeDir(v, g, next.value, b).Some? && |ChangeDir(v, g, next.value, b).value.path| == 256
  {
    hide LookUp, Walk, First, IsDir, ParentPath, Canonical, Navigate;
    CanonicalIsPlain(a);
    CanonicalIsPlain(b);
    ChdirSlashes(v, g, cwd, 255 - |a|, a, s);
    NavigateOne(v, g, First(s), b);
    assert a[|a| - 1] in a && b[0] in b;
  }

  // ---- a relative path of several names ----

  /** A spelled path determines its names. */
  lemma {:induction false} SpellInjective(a: seq<seq<byte>>, b: seq<seq<byte>>)
    requires AllCanonical(a) && AllCanonical(b) && Spell(a) == Spell(b)
    ensures a == b
    decreases |a|
  {
    hide Canonical;
    if a == [] {
      if b != [] {
        SpellStarts(b);
      }
    } else {
      SpellStarts(a);
      assert b != [];
      LastNameIs(a);
      LastNameIs(b);
      SpellInjective(a[..|a| - 1], b[..|b| - 1]);
      assert a == a[..|a| - 1] + [a[|a| - 1]] && b == b[..|b| - 1] + [b[|b| - 1]];
    }
  }

  /** The last slash of a spelled path stands before its last name. */
  lemma LastNameIs(a: seq<seq<byte>>)
    requires AllCanonical(a) && a != []
    ensures Spell(a) != []
    ensures var k := LastSlash(Spell(a), |Spell(a)| - 1);
            Spell(a)[..k] == Spell(a[..|a| - 1]) && k + 1 <= |Spell(a)| && Spell(a)[k + 1..] == a[|a| - 1]
  {
    hide Canonical, LastSlash;
    CanonicalIsPlain(a[|a| - 1]);
    SplitAtLast(Spell(a[..|a| - 1]), a[|a| - 1], Spell(a));
  }

  lemma PathInjective(a: seq<seq<byte>>, b: seq<seq<byte>>)
    requires AllCanonical(a) && AllCanonical(b) && PathOf(a) == PathOf(b)
    ensures a == b
  {
    hide Canonical, Spell;
    if a != [] {
      LongerThanRoot(a);
    }
    if b != [] {
      LongerThanRoot(b);
    }
    if a != [] && b != [] {
      SpellInjective(a, b);
    }
  }

  lemma LongerThanRoot(a: seq<seq<byte>>)
    requires AllCanonical(a) && a != []
    ensures |Spell(a)| > 1
  {
    hide Canonical;
    CanonicalIsPlain(a[|a| - 1]);
  }

  /** Each canonical name leads one level down. */
  lemma LookUpDeeper(v: Vol, g: Geometry, L: Ledger, e: nat, name: seq<byte>)
    requires Fits(v, g) && Consistent(v, g, L) && e in L.depth && Canonical(name)
    requires LookUp(v, g, e, Text(name)).Some? && IsDir(LookUp(v, g, e, Text(name)).value)
    ensures var d := First(LookUp(v, g, e, Text(name)).value);
            d in L.depth && L.depth[d] == L.depth[e] + 1
  {
    hide Consistent, Scan, First, IsDir, CanonicalEntry, Matches, NameOf, NamedBy, TidySlot, Accepted;
    TidyDir(v, g, L, e);
    var k := Slot(e, Scan(v.data[e], Slots(g), 0, Text(name)).value);
    EntryIs(v, g, L, k);
    DotMatches(name);
  }

  /** Names resolve to a directory as many levels down. */
  lemma {:induction false} ResolveDepth(v: Vol, g: Geometry, L: Ledger, d: nat, comps: seq<seq<byte>>)
    requires Fits(v, g) && Consistent(v, g, L) && d in L.depth && AllCanonical(comps) && Resolve(v, g, d, comps).Some?
    ensures var e := Resolve(v, g, d, comps).value;
            e in L.depth && L.depth[e] == L.depth[d] + |comps|
    decreases |comps|
  {
    hide Consistent, LookUp, First, IsDir, Canonical;
    if comps != [] {
      ResolveDepth(v, g, L, d, comps[..|comps| - 1]);
      LookUpDeeper(v, g, L, Resolve(v, g, d, comps[..|comps| - 1]).value, comps[|comps| - 1]);
    }
  }

  lemma RootIsTop(v: Vol, g: Geometry, L: Ledger)
    requires Consistent(v, g, L)
    ensures g.rootCluster in L.depth && L.depth[g.rootCluster] == 0
  {
  }

  /** A chdir to joined names reaches the directory they resolve to, but the tracked path gets only the last
      one: path and cluster stay coherent exactly when there is only one. */
  lemma ChdirJoined(v: Vol, g: Geometry, L: Ledger, cwd: Cwd, comps: seq<seq<byte>>, d: nat)
    requires Fits(v, g) && Consistent(v, g, L) && Coherent(v, g, cwd) && 0 < |cwd.path| && AllCanonical(comps) && comps != []
    requires Resolve(v, g, cwd.cluster, comps) == Some(d) && |ChildPath(cwd.path, comps[|comps| - 1])| < 255
    ensures ChangeDir(v, g, cwd, Joined(comps)) == Some(Cwd(d, ChildPath(cwd.path, comps[|comps| - 1])))
    ensures Coherent(v, g, Cwd(d, ChildPath(cwd.path, comps[|comps| - 1]))) <==> |comps| == 1
  {
    hide Consistent, LookUp, First, IsDir, Canonical, Navigate, PathOf, ParentPath, ChildPath, Joined;
    var last := comps[|comps| - 1];
    CanonicalComponents(comps);
    NavigateJoined(v, g, cwd.cluster, comps);
    JoinedStarts(comps);
    CanonicalIsPlain(last);
    ChildCoherent(v, g, L, cwd, comps, d);
  }

  lemma ChildCoherent(v: Vol, g: Geometry, L: Ledger, cwd: Cwd, comps: seq<seq<byte>>, d: nat)
    requires Fits(v, g) && Consistent(v, g, L) && Coherent(v, g, cwd) && AllCanonical(comps) && comps != []
    requires Resolve(v, g, cwd.cluster, comps) == Some(d) && |ChildPath(cwd.path, comps[|comps| - 1])| < 255
    ensures Coherent(v, g, Cwd(d, ChildPath(cwd.path, comps[|comps| - 1]))) <==> |comps| == 1
  {
    hide Consistent, LookUp, First, IsDir, Canonical, PathOf, ParentPath, ChildPath, Resolve;
    var last := comps[|comps| - 1];
    var base :| AllCanonical(base) && cwd.path == PathOf(base) && Resolve(v, g, g.rootCluster, base) == Some(cwd.cluster);
    ChildFits(base, last);
    ChildOfPath(base, last);
    assert AllCanonical(base + [last]);
    RootIsTop(v, g, L);
    ResolveDepth(v, g, L, g.rootCluster, base);
    ResolveDepth(v, g, L, cwd.cluster, comps);
    var next := Cwd(d, ChildPath(cwd.path, last));
    if Coherent(v, g, next) {
      var target :| AllCanonical(target) && next.path == PathOf(target) && Resolve(v, g, g.rootCluster, target) == Some(next.cluster);
      PathInjective(target, base + [last]);
      ResolveDepth(v, g, L, g.rootCluster, target);
    }
    if |comps| == 1 {
      ResolveOne(v, g, cwd.cluster, comps, d);
      ResolveMore(v, g, base, last, cwd.cluster, LookUp(v, g, cwd.cluster, Text(last)).value);
    }
  }

  lemma ResolveOne(v: Vol, g: Geometry, e: nat, comps: seq<seq<byte>>, d: nat)
    requires Fits(v, g) && |comps| == 1 && Resolve(v, g, e, comps) == Some(d)
    ensures var s := LookUp(v, g, e, Text(comps[0]));
            s.Some? && IsDir(s.value) && First(s.value) == d
  {
    hide LookUp, IsDir, First;
    assert comps[..0] == [];
  }

  // ---- when a chdir keeps path and cluster coherent ----

  /** Canonical names with one slash before each. */
  ghost predicate Spelled(dir: seq<byte>) {
    exists comps :: AllCanonical(comps) && comps != [] && dir == PathOf(comps)
  }

  /** Where a name leads when it is taken alone in directory `d`. The root has no ".." entry, and the path
      edit stays in the root. */
  function Alone(v: Vol, g: Geometry, d: nat, name: seq<byte>): (r: Option<nat>)
    requires Fits(v, g)
  {
    if name == [DOT, DOT] && d == g.rootCluster then Some(d)
    else
      match LookUp(v, g, d, Text(name))
      case None => None
      case Some(s) => if IsDir(s) then Some(First(s)) else None
  }

  /** An absolute path is spelled; the last name of a relative one leads, taken alone, where the path does. */
  ghost predicate KeepsTrack(v: Vol, g: Geometry, d: nat, dir: seq<byte>)
    requires Fits(v, g)
  {
    var nav := Navigate(v, g, d, dir);
    nav.Found? && IsDir(nav.slot) ==>
      if dir[0] == SLASH then Spelled(dir) else Alone(v, g, d, nav.name) == Some(First(nav.slot))
  }

  /** A coherent path under change: the new one is coherent exactly when its own names lead to the cluster. */
  lemma CoherentIff(v: Vol, g: Geometry, d: nat, path: seq<byte>, comps: seq<seq<byte>>)
    requires Fits(v, g) && AllCanonical(comps) && path == PathOf(comps)
    ensures Coherent(v, g, Cwd(d, path)) <==> Resolve(v, g, g.rootCluster, comps) == Some(d)
  {
    hide Canonical, PathOf, Resolve;
    if Coherent(v, g, Cwd(d, path)) {
      var target :| AllCanonical(target) && path == PathOf(target) && Resolve(v, g, g.rootCluster, target) == Some(d);
      PathInjective(target, comps);
    }
  }

  /** What the walk finds is called ".", ".." or by a canonical name. */
  lemma FoundName(v: Vol, g: Geometry, L: Ledger, e: nat, name: seq<byte>)
    requires Fits(v, g) && Consistent(v, g, L) && e in L.depth && LookUp(v, g, e, Text(name)).Some?
    ensures name == [DOT] || name == [DOT, DOT] || Canonical(name)
  {
    hide Consistent, Scan, First, IsDir, CanonicalEntry, Canonical, Matches, NameOf, NamedBy, TidySlot;
    TidyDir(v, g, L, e);
    var k := Slot(e, Scan(v.data[e], Slots(g), 0, Text(name)).value);
    EntryIs(v, g, L, k);
    if IsDot(g, k) {
      DotMatches(name);
    } else {
      MatchedName(NameOf(EntryOf(v, g, k)), name);
    }
  }

  /** Every directory below the root has both dot entries. */
  lemma DotFound(v: Vol, g: Geometry, L: Ledger, d: nat, name: seq<byte>)
    requires Fits(v, g) && Consistent(v, g, L) && d in L.depth && d != g.rootCluster && (name == [DOT] || name == [DOT, DOT])
    ensures var r := LookUp(v, g, d, Text(name));
            r.Some? && IsDir(r.value) && d in L.owner && First(r.value) == if name == [DOT] then d else L.owner[d].dir
  {
    hide Consistent, Scan, First, IsDir, CanonicalEntry, Matches, NamedBy, TidySlot, Tidy, Live, NameOf, EntryOk;
    var k := Slot(d, if name == [DOT] then 0 else 1);
    TidyDir(v, g, L, d);
    EntryIs(v, g, L, k);
    DotNamed(v, g, L, k);
    DotMatches(name);
    if LookUp(v, g, d, Text(name)).None? {
      ScanMisses(v.data[d], Slots(g), 0, Text(name), k.index);
      assert false;
    }
    DotLookUps(v, g, L, d, name);
    DotIsDir(v, g, L, d, name);
  }

  lemma DotNamed(v: Vol, g: Geometry, L: Ledger, k: Slot)
    requires Fits(v, g) && Consistent(v, g, L) && InTree(g, L.depth, k) && IsDot(g, k)
    ensures 2 <= k.dir < |v.data| && Live(EntryOf(v, g, k))
    ensures NameOf(EntryOf(v, g, k)) == if k.index == 0 then DOT_ENTRY else DOTDOT_ENTRY
  {
    hide Consistent, First, CanonicalEntry, NamedBy, TidySlot, NameOf;
    EntryIs(v, g, L, k);
  }

  lemma DotIsDir(v: Vol, g: Geometry, L: Ledger, d: nat, name: seq<byte>)
    requires Fits(v, g) && Consistent(v, g, L) && d in L.depth && (name == [DOT] || name == [DOT, DOT])
    ensures LookUp(v, g, d, Text(name)).Some? ==> IsDir(LookUp(v, g, d, Text(name)).value)
  {
    hide Consistent, Scan, First, IsDir, CanonicalEntry, Matches, NameOf, NamedBy, TidySlot;
    TidyDir(v, g, L, d);
    var i := Scan(v.data[d], Slots(g), 0, Text(name));
    if i.Some? {
      var k := Slot(d, i.value);
      EntryIs(v, g, L, k);
      DotMatches(name);
      if !IsDot(g, k) {
        CanonicalEntryFirst(NameOf(EntryOf(v, g, k)));
        assert false;
      }
    }
  }

  /** From a coherent working directory, the whole law of chdir: whatever the path, the new path and cluster
      are coherent exactly when an absolute path is spelled, or the last name of a relative one leads, taken
      alone from here, to the same directory. */
  lemma ChdirExact(v: Vol, g: Geometry, L: Ledger, cwd: Cwd, dir: seq<byte>)
    requires Fits(v, g) && Consistent(v, g, L) && Coherent(v, g, cwd) && 0 < |cwd.path|
    requires ChangeDir(v, g, cwd, dir).Some? && |ChangeDir(v, g, cwd, dir).value.path| < 255
    ensures Coherent(v, g, ChangeDir(v, g, cwd, dir).value) <==> KeepsTrack(v, g, cwd.cluster, dir)
  {
    hide Consistent, Coherent, LookUp, First, IsDir, Canonical, Navigate, Resolve, PathOf, ParentPath, ChildPath, Alone, Spelled;
    NotEmptyDir(v, g, cwd, dir);
    if dir[0] == SLASH {
      ChdirAbsolute(v, g, cwd, dir);
    } else {
      CoherentIn(v, g, L, cwd);
      ChdirRelative(v, g, L, cwd, dir);
    }
  }

  lemma NotEmptyDir(v: Vol, g: Geometry, cwd: Cwd, dir: seq<byte>)
    requires Fits(v, g) && 0 < |cwd.path| && ChangeDir(v, g, cwd, dir).Some?
    ensures dir != []
  {
    hide LookUp, First, IsDir, ParentPath, ChildPath;
  }

  lemma CoherentIn(v: Vol, g: Geometry, L: Ledger, cwd: Cwd)
    requires Fits(v, g) && Consistent(v, g, L) && Coherent(v, g, cwd)
    ensures cwd.cluster in L.depth
  {
    hide Consistent, Canonical, Resolve, PathOf;
    var comps :| AllCanonical(comps) && cwd.path == PathOf(comps) && Resolve(v, g, g.rootCluster, comps) == Some(cwd.cluster);
    ResolveStays(v, g, L, comps);
  }

  lemma ChdirAbsolute(v: Vol, g: Geometry, cwd: Cwd, dir: seq<byte>)
    requires Fits(v, g) && 0 < |cwd.path| && dir != [] && dir[0] == SLASH
    requires ChangeDir(v, g, cwd, dir).Some? && |ChangeDir(v, g, cwd, dir).value.path| < 255
    ensures Coherent(v, g, ChangeDir(v, g, cwd, dir).value) <==> Spelled(dir)
  {
    hide LookUp, First, IsDir, Canonical, Navigate, ParentPath, ChildPath, Spell;
    var next := ChangeDir(v, g, cwd, dir).value;
    if Coherent(v, g, next) {
      var comps :| AllCanonical(comps) && next.path == PathOf(comps) && Resolve(v, g, g.rootCluster, comps) == Some(next.cluster);
      if comps == [] {
        ChdirToSlashFails(v, g, cwd, dir);
        assert false;
      }
    }
    if Spelled(dir) {
      var target :| AllCanonical(target) && target != [] && dir == PathOf(target);
      CanonicalComponents(target);
      NavigateSpelled(v, g, cwd.cluster, target);
    }
  }

  /** The path edit for the last name of a relative path. */
  function Edited(path: seq<byte>, name: seq<byte>): (r: seq<byte>)
    requires path != []
  {
    if name == [DOT] then path else if name == [DOT, DOT] then ParentPath(path) else ChildPath(path, name)
  }

  /** The edited path names what its last name, taken alone, leads to, and nothing else. */
  lemma EditedCoherent(v: Vol, g: Geometry, L: Ledger, cwd: Cwd, name: seq<byte>, d: nat)
    requires Fits(v, g) && Consistent(v, g, L) && Coherent(v, g, cwd) && 0 < |cwd.path| && |Edited(cwd.path, name)| < 255
    requires name == [DOT] || name == [DOT, DOT] || Canonical(name)
    requires name == [DOT] ==> d != g.rootCluster
    ensures Coherent(v, g, Cwd(d, Edited(cwd.path, name))) <==> Alone(v, g, cwd.cluster, name) == Some(d)
  {
    hide Consistent, LookUp, First, IsDir, Canonical, Resolve, PathOf, ParentPath, ChildPath;
    var base :| AllCanonical(base) && cwd.path == PathOf(base) && Resolve(v, g, g.rootCluster, base) == Some(cwd.cluster);
    ResolveStays(v, g, L, base);
    if name == [DOT] {
      CoherentIff(v, g, d, cwd.path, base);
      if cwd.cluster != g.rootCluster {
        DotFound(v, g, L, cwd.cluster, name);
      } else {
        DotLookUps(v, g, L, cwd.cluster, name);
      }
    } else if name == [DOT, DOT] {
      EditedUp(v, g, L, cwd, base, d);
    } else {
      CanonicalIsPlain(name);
      ChildFits(base, name);
      ChildOfPath(base, name);
      CoherentIff(v, g, d, PathOf(base + [name]), base + [name]);
      ResolveOnce(v, g, base, name, cwd.cluster);
    }
  }

  lemma ResolveOnce(v: Vol, g: Geometry, base: seq<seq<byte>>, name: seq<byte>, e: nat)
    requires Fits(v, g) && Resolve(v, g, g.rootCluster, base) == Some(e) && name != [DOT, DOT]
    ensures Resolve(v, g, g.rootCluster, base + [name]) == Alone(v, g, e, name)
  {
    hide LookUp, IsDir, First;
    assert (base + [name])[..|base|] == base;
  }

  lemma EditedUp(v: Vol, g: Geometry, L: Ledger, cwd: Cwd, base: seq<seq<byte>>, d: nat)
    requires Fits(v, g) && Consistent(v, g, L) && 0 < |cwd.path| && cwd.cluster in L.depth
    requires AllCanonical(base) && cwd.path == PathOf(base) && Resolve(v, g, g.rootCluster, base) == Some(cwd.cluster)
    ensures Coherent(v, g, Cwd(d, ParentPath(cwd.path))) <==> Alone(v, g, cwd.cluster, [DOT, DOT]) == Some(d)
  {
    hide Consistent, LookUp, First, IsDir, Canonical, Coherent, Spell;
    RootIsTop(v, g, L);
    ResolveDepth(v, g, L, g.rootCluster, base);
    if base == [] {
      CoherentIff(v, g, d, ParentPath(cwd.path), []);
    } else {
      ParentOfPath(base);
      ParentResolves(v, g, L, base, cwd.cluster);
      CoherentIff(v, g, d, ParentPath(cwd.path), base[..|base| - 1]);
      DotFound(v, g, L, cwd.cluster, [DOT, DOT]);
    }
  }

  lemma ChdirRelative(v: Vol, g: Geometry, L: Ledger, cwd: Cwd, dir: seq<byte>)
    requires Fits(v, g) && Consistent(v, g, L) && Coherent(v, g, cwd) && 0 < |cwd.path| && cwd.cluster in L.depth
    requires dir != [] && dir[0] != SLASH
    requires ChangeDir(v, g, cwd, dir).Some? && |ChangeDir(v, g, cwd, dir).value.path| < 255
    ensures Coherent(v, g, ChangeDir(v, g, cwd, dir).value) <==> KeepsTrack(v, g, cwd.cluster, dir)
  {
    hide Consistent, Coherent, LookUp, First, IsDir, Canonical, Navigate, ParentPath, ChildPath, Alone;
    NavigateIs(v, g, L, cwd.cluster, dir);
    var nav := Navigate(v, g, cwd.cluster, dir);
    FoundName(v, g, L, nav.parent, nav.name);
    if nav.name == [DOT] {
      DotLookUps(v, g, L, nav.parent, nav.name);
    }
    EditedCoherent(v, g, L, cwd, nav.name, First(nav.slot));
  }

  /** For a canonical last name that is to say: the names before it lead back to the current directory. */
  lemma AloneMeans(v: Vol, g: Geometry, L: Ledger, d: nat, dir: seq<byte>)
    requires Fits(v, g) && Consistent(v, g, L) && d in L.depth && dir != [] && dir[0] != SLASH
    requires Navigate(v, g, d, dir).Found? && IsDir(Navigate(v, g, d, dir).slot) && Canonical(Navigate(v, g, d, dir).name)
    ensures KeepsTrack(v, g, d, dir) <==> Navigate(v, g, d, dir).parent == d
  {
    hide Consistent, LookUp, First, IsDir, Canonical, Navigate;
    NavigateIs(v, g, L, d, dir);
    var nav := Navigate(v, g, d, dir);
    CanonicalIsPlain(nav.name);
    LookUpOwner(v, g, L, nav.parent, nav.name);
    if KeepsTrack(v, g, d, dir) {
      LookUpOwner(v, g, L, d, nav.name);
    }
  }

  /** A path that goes down by some name and up again stays where it is, but cuts the tracked path: the two
      stay coherent in the root only. */
  lemma DownAndUp(v: Vol, g: Geometry, L: Ledger, cwd: Cwd, name: seq<byte>)
    requires Fits(v, g) && Consistent(v, g, L) && Coherent(v, g, cwd) && 0 < |cwd.path| < 255 && Canonical(name)
    requires LookUp(v, g, cwd.cluster, Text(name)).Some? && IsDir(LookUp(v, g, cwd.cluster, Text(name)).value)
    ensures ChangeDir(v, g, cwd, Joined([name, [DOT, DOT]])) == Some(Cwd(cwd.cluster, ParentPath(cwd.path)))
    ensures Coherent(v, g, Cwd(cwd.cluster, ParentPath(cwd.path))) <==> cwd.cluster == g.rootCluster
  {
    hide Consistent, Coherent, LookUp, First, IsDir, Canonical, Navigate, ParentPath, Joined;
    var comps, s := [name, [DOT, DOT]], LookUp(v, g, cwd.cluster, Text(name)).value;
    CanonicalIsPlain(name);
    CoherentIn(v, g, L, cwd);
    assert comps[..1] == [name] && [name][..0] == [];
    assert AllComponents(comps);
    NavigateJoined(v, g, cwd.cluster, comps);
    JoinedStarts(comps);
    LookUpDeeper(v, g, L, cwd.cluster, name);
    LookUpOwner(v, g, L, cwd.cluster, name);
    RootIsTop(v, g, L);
    DotFound(v, g, L, First(s), [DOT, DOT]);
    ParentShorter(cwd.path);
    EditedCoherent(v, g, L, cwd, [DOT, DOT], cwd.cluster);
    if cwd.cluster != g.rootCluster {
      DotFound(v, g, L, cwd.cluster, [DOT, DOT]);
      ParentAbove(v, g, L, cwd.cluster);
    }
  }

  lemma ParentShorter(path: seq<byte>)
    requires path != []
    ensures 0 < |ParentPath(path)| <= |path|
  {
  }

  /** A directory is not its own parent. */
  lemma ParentAbove(v: Vol, g: Geometry, L: Ledger, d: nat)
    requires Fits(v, g) && Consistent(v, g, L) && d in L.depth && d != g.rootCluster
    ensures d in L.owner && L.owner[d].dir != d
  {
    hide Owned, EntriesOk, KeysOk, Tidy, EntryOf, First, IsDir, Live;
    assert DirOk(v, g, L, d);
  }

  // ---- what a caller can tell from the text ----

  /** The last component of a path, as the walk reads it. */
  function LastFrom(path: seq<byte>, i: nat, comp: seq<byte>): (r: seq<byte>)
    requires i <= |path|
    decreases |path| - i
  {
    if i == |path| then comp
    else if path[i] != SLASH then LastFrom(path, i + 1, if |comp| < 255 then comp + [path[i]] else comp)
    else LastFrom(path, i + 1, [])
  }

  function LastName(path: seq<byte>): (r: seq<byte>) {
    LastFrom(path, 0, [])
  }

  lemma {:induction false} WalkLast(v: Vol, g: Geometry, d: nat, path: seq<byte>, i: nat, comp: seq<byte>)
    requires Fits(v, g) && i <= |path|
    ensures var r := Walk(v, g, d, path, i, comp);
            !r.NotFound? ==> r.name == LastFrom(path, i, comp)
    decreases |path| - i
  {
    hide LookUp, Walk;
    WalkStep(v, g, d, path, i, comp);
    if i < |path| {
      if path[i] != SLASH {
        WalkLast(v, g, d, path, i + 1, if |comp| < 255 then comp + [path[i]] else comp);
      } else if comp == [] {
        WalkLast(v, g, d, path, i + 1, []);
      } else {
        var s := LookUp(v, g, d, Text(comp));
        if s.Some? && IsDir(s.value) {
          WalkLast(v, g, First(s.value), path, i + 1, []);
        }
      }
    }
  }

  /** A walk ends with the last component of the text. */
  lemma NavigateLast(v: Vol, g: Geometry, cwd: nat, path: seq<byte>)
    requires Fits(v, g) && !Navigate(v, g, cwd, path).NotFound?
    ensures Navigate(v, g, cwd, path).name == LastName(path)
  {
    hide LookUp, Walk;
    if path != [] && path[0] == SLASH {
      WalkLast(v, g, g.rootCluster, path, 1, []);
    } else {
      WalkLast(v, g, cwd, path, 0, []);
    }
  }

  /** There is room in the path buffer, for the current path and the path given. */
  predicate PathRoom(current: seq<byte>, dir: seq<byte>) {
    if dir != [] && dir[0] == SLASH then |dir| < 255
    else LastName(dir) == [DOT] || LastName(dir) == [DOT, DOT] || |Slashed(current)| + |LastName(dir)| < 255
  }

  /** That is exactly when the path of a chdir stays under 255 bytes. */
  lemma PathRoomIs(v: Vol, g: Geometry, cwd: Cwd, dir: seq<byte>)
    requires Fits(v, g) && 0 < |cwd.path| < 255 && ChangeDir(v, g, cwd, dir).Some?
    ensures 0 < |ChangeDir(v, g, cwd, dir).value.path|
    ensures |ChangeDir(v, g, cwd, dir).value.path| < 255 <==> PathRoom(cwd.path, dir)
  {
    hide LookUp, First, IsDir, Navigate, ParentPath;
    NotEmptyDir(v, g, cwd, dir);
    NavigateLast(v, g, cwd.cluster, dir);
    ParentShorter(cwd.path);
  }

  // ---- the path texts of any chdir ----

  /** What ".." makes of any path: "/" stays, a slash at the end is dropped, else the last name goes with the
      slash before it, unless that is the first byte; without a slash the first byte is left. */
  lemma UpText(stem: seq<byte>, last: seq<byte>)
    ensures ParentPath([0x2F]) == [0x2F]
    ensures stem != [] ==> ParentPath(stem + [0x2F]) == stem
    ensures last != [] && 0x2F !in last && stem != [] ==> ParentPath(stem + [0x2F] + last) == stem
    ensures last != [] && 0x2F !in last ==> ParentPath([0x2F] + last) == [0x2F] && ParentPath(last) == last[..1]
  {
    hide LastSlash;
    assert (stem + [0x2F])[..|stem|] == stem;
    if last != [] && 0x2F !in last {
      CutLast(stem, last, stem + [0x2F] + last);
      CutLast([], last, [0x2F] + last);
      assert [] + [0x2F] + last == [0x2F] + last;
      NoSlash(last, |last| - 1);
      assert last[|last| - 1] in last;
    }
  }

  lemma {:induction false} NoSlash(path: seq<byte>, i: nat)
    requires i < |path| && SLASH !in path
    ensures LastSlash(path, i) == 0
    decreases i
  {
    if i > 0 {
      NoSlash(path, i - 1);
    }
  }

  /** What a name makes of any path: a slash unless there is one, and the name, as far as 255 bytes. */
  lemma DownText(path: seq<byte>, name: seq<byte>)
    ensures path != [] && path[|path| - 1] == 0x2F && |path| <= 255 ==> ChildPath(path, name) == Buffered(path + name)
    ensures |path| < 255 && (path == [] || path[|path| - 1] != 0x2F) ==> ChildPath(path, name) == Buffered(path + [0x2F] + name)
    ensures |path| == 255 && path[254] != 0x2F ==> ChildPath(path, name) == path + [0x2F]
  {
  }

  /** Which of these a chdir does depends on the first byte and the last component of its path. */
  lemma ChdirText(v: Vol, g: Geometry, cwd: Cwd, dir: seq<byte>)
    requires Fits(v, g) && 0 < |cwd.path| && ChangeDir(v, g, cwd, dir).Some?
    ensures dir != []
    ensures ChangeDir(v, g, cwd, dir).value.path
            == if dir[0] == 0x2F then Buffered(dir)
               else if LastName(dir) == [0x2E] then cwd.path
               else if LastName(dir) == [0x2E, 0x2E] then ParentPath(cwd.path)
               else ChildPath(cwd.path, LastName(dir))
  {
    hide LookUp, First, IsDir, Navigate, ParentPath, ChildPath;
    NotEmptyDir(v, g, cwd, dir);
    NavigateLast(v, g, cwd.cluster, dir);
  }

  // ---- other operations ----

  /** A lookup that finds a directory finds it again after an operation that keeps directory entries. */
  lemma LookUpKept(v: Vol, g: Geometry, L: Ledger, w: Vol, M: Ledger, d: nat, name: seq<byte>)
    requires Fits(v, g) && Fits(w, g) && Consistent(v, g, L) && Consistent(w, g, M) && DirEntriesKept(v, g, L.depth, w)
    requires forall e :: e in L.depth ==> e in M.depth
    requires d in L.depth && Canonical(name) && LookUp(v, g, d, Text(name)).Some? && IsDir(LookUp(v, g, d, Text(name)).value)
    ensures LookUp(w, g, d, Text(name)) == LookUp(v, g, d, Text(name))
  {
    hide Consistent, Scan, First, IsDir, CanonicalEntry, Matches, NameOf, Accepted, Name83;
    TidyDir(v, g, L, d);
    var i := Scan(v.data[d], Slots(g), 0, Text(name)).value;
    assert EntryOf(w, g, Slot(d, i)) == EntryOf(v, g, Slot(d, i));
    TextIsPacked(v, g, L, Slot(d, i), name);
    LookUpIs(w, g, M, d, name, i);
  }

  lemma {:induction false} ResolveKept(v: Vol, g: Geometry, L: Ledger, w: Vol, M: Ledger, comps: seq<seq<byte>>)
    requires Fits(v, g) && Fits(w, g) && Consistent(v, g, L) && Consistent(w, g, M) && DirEntriesKept(v, g, L.depth, w)
    requires forall e :: e in L.depth ==> e in M.depth
    requires AllCanonical(comps) && Resolve(v, g, g.rootCluster, comps).Some?
    ensures Resolve(w, g, g.rootCluster, comps) == Resolve(v, g, g.rootCluster, comps)
    decreases |comps|
  {
    hide Consistent, LookUp, First, IsDir, Canonical, DirEntriesKept;
    if comps != [] {
      var init := comps[..|comps| - 1];
      ResolveKept(v, g, L, w, M, init);
      ResolveStays(v, g, L, init);
      LookUpKept(v, g, L, w, M, Resolve(v, g, g.rootCluster, init).value, comps[|comps| - 1]);
    }
  }

  lemma CoherenceKept(v: Vol, g: Geometry, L: Ledger, w: Vol, M: Ledger, cwd: Cwd)
    requires Fits(v, g) && Fits(w, g) && Consistent(v, g, L) && Consistent(w, g, M) && DirEntriesKept(v, g, L.depth, w)
    requires (forall e :: e in L.depth ==> e in M.depth) && Coherent(v, g, cwd)
    ensures Coherent(w, g, cwd)
  {
    hide Consistent, DirEntriesKept, PathOf, Canonical, Resolve;
    var comps :| AllCanonical(comps) && cwd.path == PathOf(comps) && Resolve(v, g, g.rootCluster, comps) == Some(cwd.cluster);
    ResolveKept(v, g, L, w, M, comps);
  }
}
