/** File allocation tables at the masked 28-bit level: chains, the first-fit allocator
    and the chain freer, as operations on a plain sequence of entries indexed by cluster. */
module FatTable {

  const EOC := 0x0FFF_FFF8
  const END_MARK := 0x0FFF_FFFF

  predicate IsValidCluster(c: int) {
    2 <= c < EOC
  }

  predicate IsEndOfChain(c: int) {
    c >= EOC
  }

  /** Every entry that names a data cluster names one that exists. */
  ghost predicate InRange(fat: seq<nat>) {
    && |fat| <= EOC
    && forall c :: 2 <= c < |fat| && IsValidCluster(fat[c]) ==> fat[c] < |fat|
  }

  ghost function Used(fat: seq<nat>): set<nat> {
    set c: nat | c < |fat| && fat[c] != 0
  }

  // ---- chains ----

  /** `xs` is a complete chain: in range, acyclic, linked and end-marked. */
  ghost predicate IsChain(fat: seq<nat>, xs: seq<nat>) {
    && |xs| > 0
    && (forall i :: 0 <= i < |xs| ==> 2 <= xs[i] < |fat|)
    && (forall i, j :: 0 <= i < j < |xs| ==> xs[i] != xs[j])
    && (forall i :: 0 <= i < |xs| - 1 ==> fat[xs[i]] == xs[i + 1])
    && IsEndOfChain(fat[xs[|xs| - 1]])
  }

  lemma ChainRest(fat: seq<nat>, xs: seq<nat>)
    requires IsChain(fat, xs) && |xs| > 1
    ensures IsChain(fat, xs[1..]) && xs[1..][0] == fat[xs[0]] && xs[0] !in xs[1..]
  {
    var t := xs[1..];
    forall i | 0 <= i < |t| - 1
      ensures fat[t[i]] == t[i + 1]
    {
      assert fat[xs[i + 1]] == xs[i + 2];
    }
    assert fat[xs[0]] == xs[1];
  }

  /** A chain is determined by its first cluster. */
  lemma {:induction false} ChainUnique(fat: seq<nat>, xs: seq<nat>, ys: seq<nat>)
    requires |fat| <= EOC && IsChain(fat, xs) && IsChain(fat, ys) && xs[0] == ys[0]
    ensures xs == ys
    decreases |xs|
  {
    if |xs| > 1 {
      ChainRest(fat, xs);
    }
    if |ys| > 1 {
      ChainRest(fat, ys);
    }
    if |xs| > 1 && |ys| > 1 {
      ChainUnique(fat, xs[1..], ys[1..]);
    }
    assert xs == [xs[0]] + xs[1..] && ys == [ys[0]] + ys[1..];
  }

  // ---- freeing ----

  /** What `fat32_free_cluster_chain` leaves: the walk reads the link, clears the entry, moves on. */
  function FreeChain(fat: seq<nat>, c: nat): (r: seq<nat>)
    requires InRange(fat) && (IsValidCluster(c) ==> c < |fat|)
    ensures |r| == |fat| && InRange(r)
    decreases Used(fat)
  {
    if !IsValidCluster(c) then fat else
    var next, cleared := fat[c], fat[c := 0];
    if IsEndOfChain(next) || next == 0 then cleared
    else
      assert Used(cleared) == Used(fat) - {c};
      FreeChain(cleared, next)
  }

  /** A walk along the links of `fat`; it may revisit clusters. */
  ghost predicate IsPath(fat: seq<nat>, p: seq<nat>) {
    && |p| > 0
    && (forall i :: 0 <= i < |p| ==> 2 <= p[i] < |fat|)
    && (forall i :: 0 <= i < |p| - 1 ==> fat[p[i]] == p[i + 1])
  }

  lemma PathRest(fat: seq<nat>, p: seq<nat>)
    requires IsPath(fat, p) && |p| > 1
    ensures IsPath(fat, p[1..]) && p[1..][0] == fat[p[0]]
  {
    var t := p[1..];
    forall i | 0 <= i < |t| - 1
      ensures fat[t[i]] == t[i + 1]
    {
      assert fat[p[i + 1]] == p[i + 2];
    }
    assert fat[p[0]] == p[1];
  }

  ghost predicate Reaches(fat: seq<nat>, a: nat, b: nat) {
    exists p :: IsPath(fat, p) && p[0] == a && p[|p| - 1] == b
  }

  /** The part of a path after its last visit to `c`. */
  lemma {:induction false} PathTail(fat: seq<nat>, p: seq<nat>, c: nat) returns (q: seq<nat>)
    requires IsPath(fat, p) && p[|p| - 1] != c && p[0] != c
    ensures c in p ==> IsPath(fat, q) && q[0] == fat[c] && q[|q| - 1] == p[|p| - 1] && c !in q
    ensures c !in p ==> q == p
    decreases |p|
  {
    if c !in p {
      return p;
    }
    var t := p[1..];
    PathRest(fat, p);
    if t[0] != c {
      q := PathTail(fat, t, c);
    } else {
      var u := t[1..];
      PathRest(fat, t);
      if u[0] == c {
        // a self-link: no path leaves it
        SelfLink(fat, u, c);
        assert false;
      }
      q := PathTail(fat, u, c);
    }
  }

  lemma {:induction false} SelfLink(fat: seq<nat>, p: seq<nat>, c: nat)
    requires IsPath(fat, p) && p[0] == c && 2 <= c < |fat| && fat[c] == c
    ensures p[|p| - 1] == c
    decreases |p|
  {
    if |p| > 1 {
      PathRest(fat, p);
      SelfLink(fat, p[1..], c);
    }
  }

  /** Reachability from `c` is `c` itself or reachability, once `c` is cleared, from its successor. */
  lemma ReachesStep(fat: seq<nat>, c: nat, x: nat)
    requires InRange(fat) && 2 <= c < |fat| && x != c
    ensures Reaches(fat, c, x) <==> Reaches(fat[c := 0], fat[c], x)
  {
    var cleared := fat[c := 0];
    if Reaches(fat, c, x) {
      var p :| IsPath(fat, p) && p[0] == c && p[|p| - 1] == x;
      var t := p[1..];
      PathRest(fat, p);
      if t[0] == c {
        SelfLink(fat, t, c);
      }
      var q := PathTail(fat, t, c);
      assert IsPath(cleared, q);
    }
    if Reaches(cleared, fat[c], x) {
      var q :| IsPath(cleared, q) && q[0] == fat[c] && q[|q| - 1] == x;
      var p := [c] + q;
      forall i | 0 <= i < |p| - 1
        ensures fat[p[i]] == p[i + 1]
      {
        if i > 0 {
          assert p[i] == q[i - 1] && p[i + 1] == q[i];
          assert cleared[q[i - 1]] == q[i];
        }
      }
      assert IsPath(fat, p);
    }
  }

  /** Freeing ends on every in-range table, cyclic or not, and clears exactly what is reachable. */
  lemma {:induction false} FreeChainClearsReachable(fat: seq<nat>, c: nat, x: nat)
    requires InRange(fat) && 2 <= c < |fat| && 2 <= x < |fat|
    ensures FreeChain(fat, c)[x] == if Reaches(fat, c, x) then 0 else fat[x]
    decreases Used(fat)
  {
    var next, cleared := fat[c], fat[c := 0];
    if x == c {
      assert IsPath(fat, [c]);
      FreeChainKeepsZero(fat, c, c);
    } else {
      ReachesStep(fat, c, x);
      if !IsValidCluster(next) {
        assert forall q :: IsPath(cleared, q) ==> q[0] != next;
      } else {
        assert Used(cleared) == Used(fat) - {c};
        FreeChainClearsReachable(cleared, next, x);
      }
    }
  }

  lemma {:induction false} FreeChainKeepsZero(fat: seq<nat>, c: nat, x: nat)
    requires InRange(fat) && (IsValidCluster(c) ==> c < |fat|) && x < |fat|
    ensures fat[x] == 0 ==> FreeChain(fat, c)[x] == 0
    ensures x == c && IsValidCluster(c) ==> FreeChain(fat, c)[x] == 0
    ensures x < 2 ==> FreeChain(fat, c)[x] == fat[x]
    decreases Used(fat)
  {
    if IsValidCluster(c) && !IsEndOfChain(fat[c]) && fat[c] != 0 {
      assert Used(fat[c := 0]) == Used(fat) - {c};
      FreeChainKeepsZero(fat[c := 0], fat[c], x);
    }
  }

  /** On a well-formed chain, freeing clears the chain and nothing else. */
  lemma {:induction false} FreeChainOfChain(fat: seq<nat>, xs: seq<nat>, x: nat)
    requires InRange(fat) && IsChain(fat, xs) && x < |fat|
    ensures FreeChain(fat, xs[0])[x] == if x in xs then 0 else fat[x]
    decreases |xs|
  {
    var c := xs[0];
    assert xs == [c] + xs[1..];
    if |xs| > 1 {
      var t, cleared := xs[1..], fat[c := 0];
      ChainRest(fat, xs);
      assert IsChain(cleared, t);
      FreeChainOfChain(cleared, t, x);
    }
  }

  // ---- allocating ----

  /** The free clusters from `from` upwards, in increasing order. */
  function Frees(fat: seq<nat>, from: nat): (r: seq<nat>)
    requires from <= |fat|
    decreases |fat| - from
  {
    if from == |fat| then []
    else if fat[from] == 0 then [from] + Frees(fat, from + 1)
    else Frees(fat, from + 1)
  }

  ghost predicate Within(xs: seq<nat>, lo: nat, hi: nat) {
    forall i :: 0 <= i < |xs| ==> lo <= xs[i] < hi
  }

  ghost predicate Increasing(xs: seq<nat>) {
    forall i, j :: 0 <= i < j < |xs| ==> xs[i] < xs[j]
  }

  lemma {:induction false} FreesAre(fat: seq<nat>, from: nat)
    requires from <= |fat|
    ensures Within(Frees(fat, from), from, |fat|) && Increasing(Frees(fat, from))
    ensures forall c :: c in Frees(fat, from) <==> from <= c < |fat| && fat[c] == 0
    decreases |fat| - from
  {
    if from < |fat| {
      FreesAre(fat, from + 1);
    }
  }

  lemma {:induction false} FirstOfFrees(fat: seq<nat>, from: nat)
    requires from <= |fat| && Frees(fat, from) != []
    ensures from <= Frees(fat, from)[0] < |fat| && fat[Frees(fat, from)[0]] == 0
    decreases |fat| - from
  {
    if fat[from] != 0 {
      FirstOfFrees(fat, from + 1);
    }
  }

  /** `fat` with each cluster of `xs` linked to the next one and the last one holding `t`. */
  function Link(fat: seq<nat>, xs: seq<nat>, t: nat): (r: seq<nat>)
    requires Within(xs, 0, |fat|)
    ensures |r| == |fat|
    decreases |xs|
  {
    if xs == [] then fat
    else
      var n := |xs| - 1;
      Link(fat, xs[..n], xs[n])[xs[n] := t]
  }

  lemma {:induction false} LinkOther(fat: seq<nat>, xs: seq<nat>, t: nat, c: nat)
    requires Within(xs, 0, |fat|) && c < |fat| && c !in xs
    ensures Link(fat, xs, t)[c] == fat[c]
    decreases |xs|
  {
    if xs != [] {
      LinkOther(fat, xs[..|xs| - 1], xs[|xs| - 1], c);
    }
  }

  lemma {:induction false} LinkEntry(fat: seq<nat>, xs: seq<nat>, t: nat, i: nat)
    requires Within(xs, 0, |fat|) && Increasing(xs) && i < |xs|
    ensures Link(fat, xs, t)[xs[i]] == if i + 1 < |xs| then xs[i + 1] else t
    decreases |xs|
  {
    if i < |xs| - 1 {
      LinkEntry(fat, xs[..|xs| - 1], xs[|xs| - 1], i);
    }
  }

  lemma LinkedFree(fat: seq<nat>, fs: seq<nat>, j: nat, t: nat, c: nat)
    requires 2 <= c < |fat| && t != 0 && j <= |fs| && Within(fs, 2, |fat|) && Increasing(fs)
    requires c in fs <==> fat[c] == 0
    ensures Link(fat, fs[..j], t)[c] == 0 <==> c in fs[j..]
  {
    assert fs == fs[..j] + fs[j..];
    if c in fs[..j] {
      var i :| 0 <= i < j && fs[..j][i] == c;
      LinkEntry(fat, fs[..j], t, i);
      assert forall k :: 0 <= k < |fs[j..]| ==> fs[j..][k] == fs[j + k] > fs[i];
    } else {
      LinkOther(fat, fs[..j], t, c);
    }
  }

  /** With its first `j` free clusters linked, the free clusters of a table are the remaining ones. */
  lemma NextFree(fat: seq<nat>, fs: seq<nat>, j: nat, t: nat)
    requires 2 <= |fat| && t != 0 && fs == Frees(fat, 2) && j <= |fs|
    ensures Within(fs, 2, |fat|) && Frees(Link(fat, fs[..j], t), 2) == fs[j..]
  {
    FreesAre(fat, 2);
    var linked := Link(fat, fs[..j], t);
    FreesAre(linked, 2);
    forall c
      ensures c in Frees(linked, 2) <==> c in fs[j..]
    {
      assert c in fs[j..] ==> c in fs;
      if 2 <= c < |fat| {
        LinkedFree(fat, fs, j, t, c);
      }
    }
    SortedUnique(Frees(linked, 2), fs[j..]);
  }

  lemma {:induction false} SortedUnique(a: seq<nat>, b: seq<nat>)
    requires Increasing(a) && Increasing(b) && forall x :: x in a <==> x in b
    ensures a == b
    decreases |a|
  {
    assert |b| > 0 ==> b[0] in b;
    if a != [] {
      assert a[0] in a;
      var i :| 0 <= i < |b| && b[i] == a[0];
      var j :| 0 <= j < |a| && a[j] == b[0];
      assert a[0] == b[0];
      forall x ensures x in a[1..] <==> x in b[1..] {
        if x in a[1..] { assert x in a && x > a[0]; assert x in b; }
        if x in b[1..] { assert x in b && x > b[0]; assert x in a; }
      }
      SortedUnique(a[1..], b[1..]);
    }
  }

  lemma LinkIsChain(fat: seq<nat>, xs: seq<nat>)
    requires InRange(fat) && |xs| > 0 && Within(xs, 2, |fat|) && Increasing(xs)
    ensures InRange(Link(fat, xs, END_MARK)) && IsChain(Link(fat, xs, END_MARK), xs)
  {
    var linked := Link(fat, xs, END_MARK);
    forall i | 0 <= i < |xs|
      ensures linked[xs[i]] == if i + 1 < |xs| then xs[i + 1] else END_MARK
    {
      LinkEntry(fat, xs, END_MARK, i);
    }
    forall c | 2 <= c < |linked| && IsValidCluster(linked[c])
      ensures linked[c] < |linked|
    {
      if c in xs {
        var i :| 0 <= i < |xs| && xs[i] == c;
        LinkEntry(fat, xs, END_MARK, i);
      } else {
        LinkOther(fat, xs, END_MARK, c);
        assert IsValidCluster(fat[c]);
      }
    }
  }

  /** Linking free clusters makes a chain; freeing it gives back the table it came from. */
  lemma FreeUndoesLink(fat: seq<nat>, xs: seq<nat>)
    requires InRange(fat) && |xs| > 0 && Within(xs, 2, |fat|) && Increasing(xs)
    requires forall i :: 0 <= i < |xs| ==> fat[xs[i]] == 0
    ensures var linked := Link(fat, xs, END_MARK);
            && InRange(linked) && IsChain(linked, xs)
            && FreeChain(linked, xs[0]) == fat
  {
    var linked := Link(fat, xs, END_MARK);
    LinkIsChain(fat, xs);
    forall x: nat | x < |fat|
      ensures FreeChain(linked, xs[0])[x] == fat[x]
    {
      FreeChainOfChain(linked, xs, x);
      if x !in xs {
        LinkOther(fat, xs, END_MARK, x);
      }
    }
  }

  // ---- the allocator's searches ----

  /** The table when `fs[m - 1]` has been found once: it is not yet marked in any way. */
  ghost function FoundOnce(fat: seq<nat>, fs: seq<nat>, m: nat): (r: seq<nat>)
    requires Within(fs, 2, |fat|) && 0 < m <= |fs|
    ensures |r| == |fat|
  {
    Link(fat, fs[..m - 1], fs[m - 1])
  }

  /** The table when `fs[m - 1]` has been found twice: it is linked to itself. */
  ghost function FoundTwice(fat: seq<nat>, fs: seq<nat>, m: nat): (r: seq<nat>)
    requires Within(fs, 2, |fat|) && 0 < m <= |fs|
    ensures |r| == |fat|
  {
    Link(fat, fs[..m], fs[m - 1])
  }

  /** The table a successful allocation of `count` leaves. */
  ghost function Allocated(fat: seq<nat>, fs: seq<nat>, count: nat): (r: seq<nat>)
    requires Within(fs, 2, |fat|) && (count + 1) / 2 <= |fs|
    ensures |r| == |fat|
  {
    Link(fat, fs[..(count + 1) / 2], END_MARK)
  }

  /** The table a failed allocation leaves: every free cluster linked, the last one to itself. */
  ghost function Leaked(fat: seq<nat>, fs: seq<nat>): (r: seq<nat>)
    requires Within(fs, 2, |fat|)
    ensures |r| == |fat|
  {
    if fs == [] then fat else Link(fat, fs, fs[|fs| - 1])
  }

  lemma LinkMore(fat: seq<nat>, fs: seq<nat>, m: nat, t: nat)
    requires Within(fs, 0, |fat|) && 0 < m <= |fs|
    ensures Link(fat, fs[..m], t) == Link(fat, fs[..m - 1], fs[m - 1])[fs[m - 1] := t]
  {
    assert fs[..m][..m - 1] == fs[..m - 1];
  }

  /** Before the first search nothing has changed. */
  lemma FindFirst(fat: seq<nat>, fs: seq<nat>)
    requires Within(fs, 2, |fat|)
    ensures Allocated(fat, fs, 0) == fat
    ensures fs == [] ==> Leaked(fat, fs) == fat
    ensures fs != [] ==> FoundOnce(fat, fs, 1) == fat
  {
  }

  /** A cluster found once is still free: the next search finds it again and links it to itself. */
  lemma FindAgain(fat: seq<nat>, fs: seq<nat>, m: nat)
    requires 2 <= |fat| && fs == Frees(fat, 2) && Within(fs, 2, |fat|) && 0 < m <= |fs|
    ensures Frees(FoundOnce(fat, fs, m), 2) == fs[m - 1..]
    ensures FoundTwice(fat, fs, m) == FoundOnce(fat, fs, m)[fs[m - 1] := fs[m - 1]]
  {
    NextFree(fat, fs, m - 1, fs[m - 1]);
    LinkMore(fat, fs, m, fs[m - 1]);
  }

  /** After a cluster was found twice, the next search moves on... */
  lemma FindNext(fat: seq<nat>, fs: seq<nat>, m: nat)
    requires 2 <= |fat| && fs == Frees(fat, 2) && Within(fs, 2, |fat|) && 0 < m <= |fs|
    ensures Frees(FoundTwice(fat, fs, m), 2) == fs[m..]
    ensures m == |fs| ==> FoundTwice(fat, fs, m) == Leaked(fat, fs)
  {
    NextFree(fat, fs, m, fs[m - 1]);
    assert fs[..|fs|] == fs;
  }

  /** ... and the link it stores replaces the self-link. */
  lemma Relink(fat: seq<nat>, fs: seq<nat>, m: nat)
    requires Within(fs, 2, |fat|) && 0 < m < |fs|
    ensures FoundOnce(fat, fs, m + 1) == FoundTwice(fat, fs, m)[fs[m - 1] := fs[m]]
  {
    LinkMore(fat, fs, m, fs[m - 1]);
    LinkMore(fat, fs, m, fs[m]);
  }

  /** Whether the last cluster was found once or twice, the end mark replaces what it holds. */
  lemma EndChain(fat: seq<nat>, fs: seq<nat>, m: nat)
    requires Within(fs, 2, |fat|) && 0 < m <= |fs|
    ensures Allocated(fat, fs, 2 * m - 1) == FoundOnce(fat, fs, m)[fs[m - 1] := END_MARK]
    ensures Allocated(fat, fs, 2 * m) == FoundTwice(fat, fs, m)[fs[m - 1] := END_MARK]
  {
    LinkMore(fat, fs, m, fs[m - 1]);
    LinkMore(fat, fs, m, END_MARK);
    assert (2 * m - 1 + 1) / 2 == m == (2 * m + 1) / 2;
  }

  /** The table after `i` searches and the links stored between them. */
  ghost function Searched(fat: seq<nat>, fs: seq<nat>, i: nat): (r: seq<nat>)
    requires Within(fs, 2, |fat|) && (i + 1) / 2 <= |fs|
    ensures |r| == |fat|
  {
    if i == 0 then fat else if i % 2 == 0 then FoundTwice(fat, fs, i / 2) else FoundOnce(fat, fs, (i + 1) / 2)
  }

  /** Search `i` finds the free cluster number `i / 2`, or nothing once all are linked... */
  lemma SearchFinds(fat: seq<nat>, fs: seq<nat>, i: nat)
    requires 2 <= |fat| && fs == Frees(fat, 2) && Within(fs, 2, |fat|) && (i + 1) / 2 <= |fs|
    ensures Frees(Searched(fat, fs, i), 2) == fs[i / 2..]
    ensures i / 2 == |fs| ==> Searched(fat, fs, i) == Leaked(fat, fs)
  {
    hide Frees, FoundOnce, FoundTwice, Leaked;
    if i == 0 {
      FindFirst(fat, fs);
    } else if i % 2 == 0 {
      FindNext(fat, fs, i / 2);
    } else {
      FindAgain(fat, fs, (i + 1) / 2);
    }
  }

  /** ... and linking it to the one found before gives the table for the next search. */
  lemma SearchLinks(fat: seq<nat>, fs: seq<nat>, i: nat)
    requires 2 <= |fat| && fs == Frees(fat, 2) && Within(fs, 2, |fat|) && i / 2 < |fs|
    ensures i == 0 ==> Searched(fat, fs, i + 1) == fat
    ensures i > 0 ==> Searched(fat, fs, i + 1) == Searched(fat, fs, i)[fs[(i - 1) / 2] := fs[i / 2]]
  {
    hide Frees, FoundOnce, FoundTwice, Leaked;
    if i == 0 {
      FindFirst(fat, fs);
    } else if i % 2 == 0 {
      Relink(fat, fs, i / 2);
    } else {
      FindAgain(fat, fs, (i + 1) / 2);
    }
  }

  lemma SearchEnds(fat: seq<nat>, fs: seq<nat>, count: nat)
    requires Within(fs, 2, |fat|) && (count + 1) / 2 <= |fs|
    ensures count == 0 ==> Allocated(fat, fs, count) == Searched(fat, fs, count) == fat
    ensures count > 0 ==> Allocated(fat, fs, count) == Searched(fat, fs, count)[fs[(count - 1) / 2] := END_MARK]
  {
    hide FoundOnce, FoundTwice, Allocated;
    if count == 0 {
      FindFirst(fat, fs);
    } else if count % 2 == 0 {
      EndChain(fat, fs, count / 2);
    } else {
      EndChain(fat, fs, (count + 1) / 2);
    }
  }

  /** The allocator's law: the `(count + 1) / 2` lowest free clusters, in increasing order, as one
      chain; every other entry is unchanged and freeing the chain restores the table. */
  lemma AllocatorLaw(fat: seq<nat>, fs: seq<nat>, count: nat)
    requires InRange(fat) && 2 <= |fat| && fs == Frees(fat, 2) && 0 < count && (count + 1) / 2 <= |fs|
    ensures Within(fs, 2, |fat|)
    ensures var xs := fs[..(count + 1) / 2];
            && InRange(Allocated(fat, fs, count)) && IsChain(Allocated(fat, fs, count), xs)
            && Increasing(xs)
            && (forall c :: 0 <= c < |fat| && c !in xs ==> Allocated(fat, fs, count)[c] == fat[c])
            && (forall c :: c in xs ==> fat[c] == 0)
            && (forall c :: 2 <= c < |fat| && fat[c] == 0 && c !in xs ==> xs[|xs| - 1] < c)
            && FreeChain(Allocated(fat, fs, count), xs[0]) == fat
  {
    hide Link, FreeChain, Frees;
    FreesAre(fat, 2);
    var m := (count + 1) / 2;
    var xs := fs[..m];
    assert forall c :: c in xs ==> c in fs;
    FreeUndoesLink(fat, xs);
    forall c | 0 <= c < |fat| && c !in xs
      ensures Allocated(fat, fs, count)[c] == fat[c]
    {
      LinkOther(fat, xs, END_MARK, c);
    }
    assert forall j :: 0 <= j < m ==> fs[j] in xs;
  }
}
