/** Pages, stacks and the bump heap, in a run that frees no page. */
module Memory {
  import opened Pmm

  const STACK := 16384
  const WORD := 0x1_0000_0000_0000_0000

  /** The allocator state in a run without frees: the next page, and the heap's cursor and remainder. */
  datatype Mem = Mem(next: nat, cursor: nat, remaining: nat)

  /** `pmm_alloc_page` when page `next` is the lowest free one: the address, or 0, and the next free page. */
  function AllocPage(next: nat): (r: (nat, nat)) {
    if next < TOTAL_PAGES then (next * PAGE, next + 1) else (0, next)
  }

  /** Four pages, one after the other: the first one's address, or 0 if one of them is missing (the
      others are then lost). */
  function AllocStack(next: nat): (r: (nat, nat)) {
    var (a, n1) := AllocPage(next);
    var (b, n2) := AllocPage(n1);
    var (c, n3) := AllocPage(n2);
    var (d, n4) := AllocPage(n3);
    if a == 0 then (0, n1) else if b == 0 then (0, n2) else if c == 0 then (0, n3) else if d == 0 then (0, n4) else (a, n4)
  }

  /** A stack is exactly its four consecutive pages, and it is handed out iff all four exist. */
  lemma StackIsFourPages(next: nat)
    requires FIRST_PAGE <= next <= TOTAL_PAGES
    ensures AllocStack(next).0 != 0 <==> next + 4 <= TOTAL_PAGES
    ensures AllocStack(next).0 != 0 ==>
              && AllocStack(next).0 == next * PAGE && AllocStack(next).0 + STACK == (next + 4) * PAGE
              && AllocStack(next).1 == next + 4
    ensures AllocStack(next).0 == 0 ==> AllocStack(next).1 == TOTAL_PAGES
  {
  }

  function Eights(k: nat): nat {
    8 * k
  }

  ghost predicate Aligned(a: nat) {
    exists k :: a == Eights(k)
  }

  lemma AlignedIsMod(a: nat)
    ensures Aligned(a) <==> a % 8 == 0
  {
    if a % 8 == 0 {
      assert a == Eights(a / 8);
    }
  }

  lemma AlignedSums(a: nat, b: nat)
    requires Aligned(a) && Aligned(b)
    ensures Aligned(a + b) && (b <= a ==> Aligned(a - b))
  {
    var j: nat :| a == Eights(j);
    var k: nat :| b == Eights(k);
    assert a + b == Eights(j + k);
    if b <= a {
      assert a - b == Eights(j - k);
    }
  }

  lemma PagesAligned(n: nat)
    ensures Aligned(n * PAGE) && Aligned(PAGE)
  {
    assert n * PAGE == Eights(512 * n) && PAGE == Eights(512);
  }

  function Rounded(size: nat): (r: nat) {
    (if size % 8 != 0 then size + (8 - size % 8) else size) % WORD
  }

  lemma RoundedIs(size: nat)
    requires size < WORD
    ensures Rounded(size) == if size % 8 != 0 then (size + (8 - size % 8)) % WORD else size
  {
  }

  /** 64-bit subtraction. */
  function Less(a: nat, b: nat): (r: nat)
    ensures b <= a < WORD ==> r == a - b
    ensures a < b < WORD ==> r == a + WORD - b
  {
    if b <= a + WORD then (a + WORD - b) % WORD else 0
  }

  lemma RoundedSmall(size: nat)
    requires 0 < size <= PAGE
    ensures size <= Rounded(size) <= PAGE && Aligned(Rounded(size))
  {
    AlignedIsMod(Rounded(size));
  }

  /** `malloc`, with the 64-bit wrap-around of `heap_remaining`, when `page` is what the page allocator would
      give: the address or 0, the new cursor and remainder, and whether a page was asked for. */
  function Bump(cursor: nat, remaining: nat, size: nat, page: nat): (r: (nat, nat, nat, bool)) {
    if size == 0 then (0, cursor, remaining, false)
    else
      var want := Rounded(size);
      var asks := cursor == 0 || remaining < want;
      var at := if asks then page else cursor;
      if at == 0 then (0, 0, remaining, asks)
      else (at, at + want, Less(if asks then PAGE else remaining, want), asks)
  }

  /** `malloc` in a run that frees no page. */
  function Malloc(m: Mem, size: nat): (r: (nat, Mem)) {
    var (page, next) := AllocPage(m.next);
    var (a, cursor, remaining, asked) := Bump(m.cursor, m.remaining, size, page);
    (a, Mem(if asked then next else m.next, cursor, remaining))
  }

  // ---- the heap object ----

  class Heap {
    const pages: PageMap
    var cursor: nat
    var remaining: nat

    constructor (pages: PageMap)
      ensures this.pages == pages && cursor == 0 && remaining == 0
    {
      this.pages := pages;
      cursor, remaining := 0, 0;
    }

    /** `malloc`, on any page map. */
    method Alloc(size: nat) returns (addr: nat)
      requires pages.Valid() && size < WORD
      modifies this, pages.bitmap
      ensures var p := old(Lowest(pages.bitmap[..], FIRST_PAGE));
              var (a, c, r, asked) := Bump(old(cursor), old(remaining), size, if p < TOTAL_PAGES then p * PAGE else 0);
              && addr == a && cursor == c && remaining == r
              && pages.Pages() == old(pages.Pages()) + (if asked && p < TOTAL_PAGES then {p} else {})
    {
      hide Lowest, Used, Rounded, Less;
      RoundedIs(size);
      if size == 0 {
        return 0;
      }
      var want := size;
      if want % 8 != 0 {
        want := (want + (8 - want % 8)) % WORD;
      }
      if cursor == 0 || remaining < want {
        cursor := pages.Alloc();
        if cursor == 0 {
          return 0;
        }
        remaining := PAGE;
      }
      addr := cursor;
      cursor := cursor + want;
      remaining := Less(remaining, want);
    }

    /** `malloc` while no page has been freed: pages are taken in order. */
    method AllocInOrder(size: nat) returns (addr: nat)
      requires pages.Valid() && InOrder(pages.bitmap[..]) && size < WORD
      modifies this, pages.bitmap
      ensures var (a, m) := Malloc(Mem(old(Lowest(pages.bitmap[..], FIRST_PAGE)), old(cursor), old(remaining)), size);
              && addr == a && cursor == m.cursor && remaining == m.remaining
              && InOrder(pages.bitmap[..]) && Lowest(pages.bitmap[..], FIRST_PAGE) == m.next
    {
      hide Bump;
      ghost var before, n := pages.bitmap[..], Lowest(pages.bitmap[..], FIRST_PAGE);
      addr := Alloc(size);
      NextInOrder(before, pages.bitmap[..], n, pages.Pages());
    }
  }

  /** Taking the lowest free page, or none, keeps the used pages an initial segment. */
  lemma NextInOrder(before: seq<bv8>, after: seq<bv8>, n: nat, used: set<nat>)
    requires InOrder(before) && |after| == TOTAL_PAGES / 8 && n == Lowest(before, FIRST_PAGE)
    requires used == (set i: nat | i < TOTAL_PAGES && Used(after, i))
    requires used == (set i: nat | i < TOTAL_PAGES && Used(before, i)) || (n < TOTAL_PAGES && used == (set i: nat | i < TOTAL_PAGES && Used(before, i)) + {n})
    ensures InOrder(after)
    ensures Lowest(after, FIRST_PAGE) == if used == (set i: nat | i < TOTAL_PAGES && Used(before, i)) then n else n + 1
  {
    hide Used, Lowest;
    var m := if used == (set i: nat | i < TOTAL_PAGES && Used(before, i)) then n else n + 1;
    assert forall i: nat :: i < TOTAL_PAGES ==> (Used(after, i) <==> i in used);
    assert Segment(after, m);
    LowestOfSegment(after, m);
  }
}
