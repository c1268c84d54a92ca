/** The physical page allocator: a bitmap scanned first-fit. */
module Pmm {

  const TOTAL_PAGES := 65536
  const PAGE := 4096
  const FIRST_PAGE := 512

  // ---- bits ----

  /** `1 << k`. */
  function Mask(k: nat): bv8
    requires k < 8
  {
    if k == 0 then 1 else if k == 1 then 2 else if k == 2 then 4 else if k == 3 then 8
    else if k == 4 then 16 else if k == 5 then 32 else if k == 6 then 64 else 128
  }

  predicate Bit(b: bv8, k: nat)
    requires k < 8
  {
    b & Mask(k) != 0
  }

  lemma BitAfterSet(b: bv8, j: nat, k: nat)
    requires j < 8 && k < 8
    ensures Bit(b | Mask(j), k) <==> j == k || Bit(b, k)
  {
  }

  lemma BitAfterClear(b: bv8, j: nat, k: nat)
    requires j < 8 && k < 8
    ensures Bit(b & !Mask(j), k) <==> j != k && Bit(b, k)
  {
  }

  predicate Used(bits: seq<bv8>, i: nat)
    requires |bits| == TOTAL_PAGES / 8 && i < TOTAL_PAGES
  {
    Bit(bits[i / 8], i % 8)
  }

  lemma UsedAfterSet(bits: seq<bv8>, j: nat, i: nat)
    requires |bits| == TOTAL_PAGES / 8 && i < TOTAL_PAGES && j < TOTAL_PAGES
    ensures Used(bits[j / 8 := bits[j / 8] | Mask(j % 8)], i) <==> i == j || Used(bits, i)
  {
    hide Mask, Bit;
    if i / 8 == j / 8 {
      BitAfterSet(bits[j / 8], j % 8, i % 8);
    }
  }

  lemma UsedAfterClear(bits: seq<bv8>, j: nat, i: nat)
    requires |bits| == TOTAL_PAGES / 8 && i < TOTAL_PAGES && j < TOTAL_PAGES
    ensures Used(bits[j / 8 := bits[j / 8] & !Mask(j % 8)], i) <==> i != j && Used(bits, i)
  {
    hide Mask, Bit;
    if i / 8 == j / 8 {
      BitAfterClear(bits[j / 8], j % 8, i % 8);
    }
  }

  /** The lowest free page from `i` on, or `TOTAL_PAGES`. */
  function Lowest(bits: seq<bv8>, i: nat): (p: nat)
    requires |bits| == TOTAL_PAGES / 8 && i <= TOTAL_PAGES
    ensures i <= p <= TOTAL_PAGES
    decreases TOTAL_PAGES - i
  {
    if i == TOTAL_PAGES || !Used(bits, i) then i else Lowest(bits, i + 1)
  }

  /** How many pages from `i` on are in use. */
  function CountUsed(bits: seq<bv8>, i: nat): (n: nat)
    requires |bits| == TOTAL_PAGES / 8 && i <= TOTAL_PAGES
    decreases TOTAL_PAGES - i
  {
    if i == TOTAL_PAGES then 0 else (if Used(bits, i) then 1 else 0) + CountUsed(bits, i + 1)
  }

  /** The used pages are exactly those below `n`. */
  ghost predicate Segment(bits: seq<bv8>, n: nat) {
    && |bits| == TOTAL_PAGES / 8 && FIRST_PAGE <= n <= TOTAL_PAGES
    && forall i: nat :: i < TOTAL_PAGES ==> (Used(bits, i) <==> i < n)
  }

  /** First fit: the page found is free and every page before it is in use. */
  lemma {:induction false} LowestIsFirstFit(bits: seq<bv8>, i: nat, q: nat)
    requires |bits| == TOTAL_PAGES / 8 && i <= TOTAL_PAGES && i <= q < TOTAL_PAGES
    ensures q < Lowest(bits, i) ==> Used(bits, q)
    ensures q == Lowest(bits, i) ==> !Used(bits, q)
    decreases TOTAL_PAGES - i
  {
    hide Used;
    if Used(bits, i) && i < q {
      LowestIsFirstFit(bits, i + 1, q);
    }
  }

  lemma LowestOfSegment(bits: seq<bv8>, n: nat)
    requires Segment(bits, n)
    ensures Lowest(bits, FIRST_PAGE) == n
  {
    hide Used;
    var p := Lowest(bits, FIRST_PAGE);
    if p < n {
      LowestIsFirstFit(bits, FIRST_PAGE, p);
    } else if n < p {
      LowestIsFirstFit(bits, FIRST_PAGE, n);
    }
  }

  /** No page was freed: the used pages are those below the lowest free one. */
  ghost predicate InOrder(bits: seq<bv8>) {
    |bits| == TOTAL_PAGES / 8 && Segment(bits, Lowest(bits, FIRST_PAGE))
  }

  ghost function UsedFrom(bits: seq<bv8>, i: nat): set<nat>
    requires |bits| == TOTAL_PAGES / 8
  {
    set p: nat | i <= p < TOTAL_PAGES && Used(bits, p)
  }

  /** The statistics loop counts the used pages. */
  lemma {:induction false} CountIsCardinality(bits: seq<bv8>, i: nat)
    requires |bits| == TOTAL_PAGES / 8 && i <= TOTAL_PAGES
    ensures CountUsed(bits, i) == |UsedFrom(bits, i)|
    decreases TOTAL_PAGES - i
  {
    hide Used;
    if i < TOTAL_PAGES {
      CountIsCardinality(bits, i + 1);
      if Used(bits, i) {
        assert UsedFrom(bits, i) == UsedFrom(bits, i + 1) + {i};
      } else {
        assert UsedFrom(bits, i) == UsedFrom(bits, i + 1);
      }
    }
  }

  datatype Stats = Stats(total: nat, reserved: nat, used: nat, free: int, pageSize: nat)

  class PageMap {
    const bitmap: array<bv8>

    ghost predicate Valid() {
      bitmap.Length == TOTAL_PAGES / 8
    }

    /** The pages in use. */
    ghost function Pages(): set<nat>
      requires Valid()
      reads bitmap
    {
      set i: nat | i < TOTAL_PAGES && Used(bitmap[..], i)
    }

    /** `pmm_init`: everything used, then everything from 2 MB up cleared. */
    constructor ()
      ensures Valid() && fresh(bitmap) && Segment(bitmap[..], FIRST_PAGE) && InOrder(bitmap[..])
    {
      bitmap := new bv8[TOTAL_PAGES / 8](_ => 0xFF);
      new;
      var i := FIRST_PAGE;
      while i < TOTAL_PAGES
        invariant FIRST_PAGE <= i <= TOTAL_PAGES
        invariant forall p: nat :: p < TOTAL_PAGES ==> (Used(bitmap[..], p) <==> p < FIRST_PAGE || i <= p)
      {
        Clear(i);
        i := i + 1;
      }
      LowestOfSegment(bitmap[..], FIRST_PAGE);
    }

    /** `bitmap_set`. */
    method Set(i: nat)
      requires Valid() && i < TOTAL_PAGES
      modifies bitmap
      ensures forall p: nat :: p < TOTAL_PAGES ==> (Used(bitmap[..], p) <==> p == i || old(Used(bitmap[..], p)))
    {
      hide Used;
      ghost var before := bitmap[..];
      bitmap[i / 8] := bitmap[i / 8] | Mask(i % 8);
      assert bitmap[..] == before[i / 8 := before[i / 8] | Mask(i % 8)];
      forall p: nat | p < TOTAL_PAGES
        ensures Used(bitmap[..], p) <==> p == i || Used(before, p)
      {
        UsedAfterSet(before, i, p);
      }
    }

    /** `bitmap_clear`. */
    method Clear(i: nat)
      requires Valid() && i < TOTAL_PAGES
      modifies bitmap
      ensures forall p: nat :: p < TOTAL_PAGES ==> (Used(bitmap[..], p) <==> p != i && old(Used(bitmap[..], p)))
    {
      hide Used;
      ghost var before := bitmap[..];
      bitmap[i / 8] := bitmap[i / 8] & !Mask(i % 8);
      assert bitmap[..] == before[i / 8 := before[i / 8] & !Mask(i % 8)];
      forall p: nat | p < TOTAL_PAGES
        ensures Used(bitmap[..], p) <==> p != i && Used(before, p)
      {
        UsedAfterClear(before, i, p);
      }
    }

    /** `pmm_alloc_page`: the lowest free page from 512 up, or 0. */
    method Alloc() returns (addr: nat)
      requires Valid()
      modifies bitmap
      ensures var p := old(Lowest(bitmap[..], FIRST_PAGE));
              && addr == (if p < TOTAL_PAGES then p * PAGE else 0)
              && Pages() == old(Pages()) + (if p < TOTAL_PAGES then {p} else {})
    {
      hide Used;
      var i := FIRST_PAGE;
      while i < TOTAL_PAGES
        invariant FIRST_PAGE <= i <= TOTAL_PAGES && bitmap[..] == old(bitmap[..])
        invariant Lowest(bitmap[..], FIRST_PAGE) == Lowest(bitmap[..], i)
      {
        if !Used(bitmap[..], i) {
          Set(i);
          return i * PAGE;
        }
        i := i + 1;
      }
      addr := 0;
    }

    /** `pmm_alloc_page` in a run that frees nothing: pages are handed out in order. */
    method AllocNext() returns (addr: nat)
      requires Valid() && InOrder(bitmap[..])
      modifies bitmap
      ensures var n := old(Lowest(bitmap[..], FIRST_PAGE));
              && addr == (if n < TOTAL_PAGES then n * PAGE else 0)
              && Lowest(bitmap[..], FIRST_PAGE) == (if n < TOTAL_PAGES then n + 1 else n)
      ensures InOrder(bitmap[..])
    {
      hide Used, Lowest;
      ghost var before, n := Pages(), Lowest(bitmap[..], FIRST_PAGE);
      addr := Alloc();
      assert forall i: nat :: i < TOTAL_PAGES ==> (Used(bitmap[..], i) <==> i in Pages());
      assert forall i: nat :: i < TOTAL_PAGES ==> (i in before <==> i < n);
      LowestOfSegment(bitmap[..], if n < TOTAL_PAGES then n + 1 else n);
    }

    /** `pmm_free_page`: pages below 2 MB and addresses beyond the map are ignored. */
    method Free(addr: nat)
      requires Valid()
      modifies bitmap
      ensures var p := addr / PAGE;
              Pages() == old(Pages()) - (if FIRST_PAGE <= p < TOTAL_PAGES then {p} else {})
    {
      hide Used;
      var p := addr / PAGE;
      if p >= FIRST_PAGE && p < TOTAL_PAGES {
        Clear(p);
      }
    }

    /** `pmm_get_stats`. */
    method GetStats() returns (s: Stats)
      requires Valid()
      ensures s == Stats(TOTAL_PAGES, FIRST_PAGE, CountUsed(bitmap[..], FIRST_PAGE),
                         TOTAL_PAGES - FIRST_PAGE - CountUsed(bitmap[..], FIRST_PAGE), PAGE)
    {
      hide Used;
      var used := 0;
      var i := FIRST_PAGE;
      while i < TOTAL_PAGES
        invariant FIRST_PAGE <= i <= TOTAL_PAGES && CountUsed(bitmap[..], FIRST_PAGE) == used + CountUsed(bitmap[..], i)
      {
        if Used(bitmap[..], i) {
          used := used + 1;
        }
        i := i + 1;
      }
      s := Stats(TOTAL_PAGES, FIRST_PAGE, used, TOTAL_PAGES - FIRST_PAGE - used, PAGE);
    }
  }
}
