/** Who owns which bytes: task stacks, user stacks and heap blocks, over every run that frees no page. */
module Ownership {
  import opened Pmm
  import opened Memory
  import opened Scheduler

  datatype Block = Block(start: nat, size: nat)

  predicate Apart(a: Block, b: Block) {
    a.start + a.size <= b.start || b.start + b.size <= a.start
  }

  datatype Op = KernelTask | UserTask | Alloc(size: nat)

  /** The state after an operation and the blocks it hands out. */
  function Step(m: Mem, op: Op): (r: (seq<Block>, Mem)) {
    match op
    case KernelTask =>
      var (a, n1) := AllocStack(m.next);
      (if a == 0 then [] else [Block(a, STACK)], m.(next := n1))
    case UserTask =>
      var (a, n1) := AllocStack(m.next);
      if a == 0 then ([], m.(next := n1))
      else
        var (u, n2) := AllocPage(n1);
        (if u == 0 then [] else [Block(a, STACK), Block(u, PAGE)], m.(next := n2))
    case Alloc(size) =>
      var (a, m1) := Malloc(m, size);
      (if a == 0 then [] else [Block(a, Rounded(size))], m1)
  }

  function After(m: Mem, ops: seq<Op>): (r: (seq<Block>, Mem))
    decreases |ops|
  {
    if ops == [] then ([], m)
    else
      var (b, m1) := Step(m, ops[0]);
      var (c, m2) := After(m1, ops[1..]);
      (b + c, m2)
  }

  /** The requests the heap is made for. */
  predicate Small(op: Op) {
    op.Alloc? ==> op.size <= PAGE
  }

  /** What is left of the heap's current page. */
  function Tail(m: Mem): Block {
    Block(m.cursor, if m.cursor == 0 then 0 else m.remaining)
  }

  /** The heap's tail ends at the end of a page that has been handed out. */
  ghost predicate HeapOk(m: Mem) {
    && FIRST_PAGE <= m.next <= TOTAL_PAGES && m.remaining <= PAGE
    && (m.cursor != 0 ==>
          && FIRST_PAGE * PAGE <= m.cursor && m.cursor + m.remaining <= m.next * PAGE
          && Aligned(m.cursor) && Aligned(m.remaining))
  }

  /** Blocks handed out so far: inside the pages handed out, apart from each other and from the tail. */
  ghost predicate Disjoint(m: Mem, blocks: seq<Block>) {
    && (forall i :: 0 <= i < |blocks| ==>
          && FIRST_PAGE * PAGE <= blocks[i].start && blocks[i].start + blocks[i].size <= m.next * PAGE
          && Aligned(blocks[i].start) && Apart(blocks[i], Tail(m)))
    && (forall i, j :: 0 <= i < j < |blocks| ==> Apart(blocks[i], blocks[j]))
  }

  /** One malloc of at most a page: an 8-aligned block cut off the tail, or a fresh page. */
  lemma MallocCuts(m: Mem, size: nat)
    requires HeapOk(m) && 0 < size <= PAGE
    ensures var (a, m1) := Malloc(m, size);
            && HeapOk(m1) && Rounded(size) <= PAGE && m.next <= m1.next
            && (a == 0 ==> m1.cursor == 0)
            && (a != 0 ==>
                  && Aligned(a) && m1.cursor == a + Rounded(size) && a + Rounded(size) + m1.remaining <= m1.next * PAGE
                  && (if m.cursor != 0 && Rounded(size) <= m.remaining
                      then a == m.cursor && m1.remaining == m.remaining - Rounded(size) && m1.next == m.next
                      else a == m.next * PAGE && m1.next == m.next + 1))
  {
    hide Rounded, Less, Aligned;
    RoundedSmall(size);
    PagesAligned(m.next);
    AlignedSums(if m.cursor != 0 && Rounded(size) <= m.remaining then m.cursor else m.next * PAGE, Rounded(size));
    AlignedSums(if m.cursor != 0 && Rounded(size) <= m.remaining then m.remaining else PAGE, Rounded(size));
  }

  lemma EighthsUp(q: nat, r: nat)
    requires r < 8
    ensures (8 * q + r) % 8 == r && (8 * q + r + 7) / 8 == if r == 0 then q else q + 1
  {
  }

  /** A request, rounded up to a multiple of 8 in 64 bits. */
  lemma RoundedUp(size: nat)
    requires size < WORD
    ensures Rounded(size) == if size > WORD - 8 then 0 else 8 * ((size + 7) / 8)
  {
    hide Rounded;
    RoundedIs(size);
    var q, r := size / 8, size % 8;
    assert size == 8 * q + r;
    EighthsUp(q, r);
    WrapsAtTop(q, r);
  }

  lemma WrapsAtTop(q: nat, r: nat)
    requires 0 < r < 8 ==> 8 * q + r < WORD
    ensures 0 < r < 8 ==> (8 * q + 8) % WORD == if 8 * q + r > WORD - 8 then 0 else 8 * q + 8
    ensures r == 0 && 8 * q < WORD ==> 8 * q <= WORD - 8
  {
  }

  /** A malloc of any size but 0 succeeds exactly if the rounded request fits in what is left of the heap's page,
      or a page is left; it is then cut off there, or off the start of that page. */
  lemma MallocSucceeds(m: Mem, size: nat)
    requires HeapOk(m) && 0 < size < WORD
    ensures var (want, (a, m1)) := (if size > WORD - 8 then 0 else 8 * ((size + 7) / 8), Malloc(m, size));
            && (a != 0 <==> (m.cursor != 0 && want <= m.remaining) || m.next < 65536)
            && (m.cursor != 0 && want <= m.remaining ==> a == m.cursor && m1.next == m.next)
            && (!(m.cursor != 0 && want <= m.remaining) && m.next < 65536 ==> a == 4096 * m.next && m1.next == m.next + 1)
            && (a != 0 ==> m1.cursor == a + want)
    ensures Malloc(m, 0) == (0, m)
  {
    hide Rounded, Less, Aligned;
    RoundedUp(size);
  }

  /** Of all 64-bit requests, those whose bytes stay within the pages handed out are exactly those of at most
      a page; the largest ones, whose rounding wraps to 0, do not. */
  lemma MallocFits(m: Mem, size: nat)
    requires HeapOk(m) && 0 < size < WORD && Malloc(m, size).0 != 0
    ensures Malloc(m, size).0 + size <= Malloc(m, size).1.next * PAGE <==> size <= PAGE
  {
    hide Rounded, Less, Aligned;
    if size <= PAGE {
      RoundedSmall(size);
      MallocCuts(m, size);
    } else {
      RoundedLarge(size);
    }
  }

  lemma RoundedLarge(size: nat)
    requires PAGE < size < WORD
    ensures size <= Rounded(size) || (Rounded(size) == 0 && size > WORD - 8)
  {
    RoundedIs(size);
  }

  lemma MallocKeeps(m: Mem, size: nat, blocks: seq<Block>)
    requires HeapOk(m) && Disjoint(m, blocks) && size <= PAGE
    ensures var (b, m1) := Step(m, Alloc(size));
            HeapOk(m1) && Disjoint(m1, blocks + b)
  {
    if size > 0 {
      MallocCuts(m, size);
      hide Malloc, Rounded;
      var (a, m1) := Malloc(m, size);
      forall i | 0 <= i < |blocks|
        ensures Apart(blocks[i], Tail(m1)) && (a != 0 ==> Apart(blocks[i], Block(a, Rounded(size))))
      {
        assert Apart(blocks[i], Tail(m));
      }
    }
  }

  /** Pages handed out beyond the old limit are apart from everything before them. */
  lemma PagesKeep(m: Mem, next: nat, blocks: seq<Block>, added: seq<Block>)
    requires HeapOk(m) && Disjoint(m, blocks) && m.next <= next <= TOTAL_PAGES
    requires forall i :: 0 <= i < |added| ==>
               m.next * PAGE <= added[i].start && added[i].start + added[i].size <= next * PAGE && Aligned(added[i].start)
    requires forall i, j :: 0 <= i < j < |added| ==> Apart(added[i], added[j])
    ensures HeapOk(m.(next := next)) && Disjoint(m.(next := next), blocks + added)
  {
    var m1, all := m.(next := next), blocks + added;
    forall i | 0 <= i < |all|
      ensures FIRST_PAGE * PAGE <= all[i].start && all[i].start + all[i].size <= next * PAGE
      ensures Aligned(all[i].start) && Apart(all[i], Tail(m1))
    {
      if i >= |blocks| {
        assert all[i] == added[i - |blocks|];
      }
    }
    forall i, j | 0 <= i < j < |all|
      ensures Apart(all[i], all[j])
    {
      if i >= |blocks| {
        assert all[i] == added[i - |blocks|] && all[j] == added[j - |blocks|];
      } else if j >= |blocks| {
        assert all[i] == blocks[i] && all[j] == added[j - |blocks|];
      }
    }
  }

  /** A new task's blocks are the next pages, in order: four for its stack, one more for a user stack. */
  lemma TaskBlocks(m: Mem, user: bool)
    requires FIRST_PAGE <= m.next <= TOTAL_PAGES
    ensures var (b, m1) := Step(m, if user then UserTask else KernelTask);
            && m1 == m.(next := m1.next) && m.next <= m1.next <= TOTAL_PAGES
            && (b == []
                || (!user && m1.next == m.next + 4 && b == [Block(m.next * PAGE, STACK)])
                || (user && m1.next == m.next + 5 && b == [Block(m.next * PAGE, STACK), Block((m.next + 4) * PAGE, PAGE)]))
  {
    hide AllocStack;
    StackIsFourPages(m.next);
  }

  lemma BlocksInOrder(first: nat, last: nat, user: bool, b: seq<Block>)
    requires || b == []
             || (!user && last == first + 4 && b == [Block(first * PAGE, STACK)])
             || (user && last == first + 5 && b == [Block(first * PAGE, STACK), Block((first + 4) * PAGE, PAGE)])
    ensures forall i :: 0 <= i < |b| ==>
              first * PAGE <= b[i].start && b[i].start + b[i].size <= last * PAGE && Aligned(b[i].start)
    ensures forall i, j :: 0 <= i < j < |b| ==> Apart(b[i], b[j])
  {
    hide Aligned;
    PagesAligned(first);
    PagesAligned(first + 4);
  }

  lemma TaskKeeps(m: Mem, user: bool, blocks: seq<Block>)
    requires HeapOk(m) && Disjoint(m, blocks)
    ensures var (b, m1) := Step(m, if user then UserTask else KernelTask);
            HeapOk(m1) && Disjoint(m1, blocks + b)
  {
    hide Step, Disjoint;
    TaskBlocks(m, user);
    var (b, m1) := Step(m, if user then UserTask else KernelTask);
    hide Apart;
    BlocksInOrder(m.next, m1.next, user, b);
    PagesKeep(m, m1.next, blocks, b);
  }

  lemma StepKeeps(m: Mem, op: Op, blocks: seq<Block>)
    requires HeapOk(m) && Disjoint(m, blocks) && Small(op)
    ensures HeapOk(Step(m, op).1) && Disjoint(Step(m, op).1, blocks + Step(m, op).0)
  {
    hide Step, HeapOk, Disjoint;
    match op {
      case KernelTask => TaskKeeps(m, false, blocks);
      case UserTask => TaskKeeps(m, true, blocks);
      case Alloc(size) => MallocKeeps(m, size, blocks);
    }
  }

  lemma {:induction false} RunKeeps(m: Mem, ops: seq<Op>, blocks: seq<Block>)
    requires HeapOk(m) && Disjoint(m, blocks) && forall i :: 0 <= i < |ops| ==> Small(ops[i])
    ensures HeapOk(After(m, ops).1) && Disjoint(After(m, ops).1, blocks + After(m, ops).0)
    decreases |ops|
  {
    hide Step, HeapOk, Disjoint, Small;
    if ops == [] {
      assert blocks + [] == blocks;
    } else {
      var (b, m1) := Step(m, ops[0]);
      StepKeeps(m, ops[0], blocks);
      RunKeeps(m1, ops[1..], blocks + b);
      assert blocks + b + After(m1, ops[1..]).0 == blocks + After(m, ops).0;
    }
  }

  /** From boot, every run of task creations and small mallocs hands out pairwise disjoint, aligned
      blocks between 2 MB and 256 MB. */
  lemma OwnershipFromBoot(ops: seq<Op>)
    requires forall i :: 0 <= i < |ops| ==> Small(ops[i])
    ensures var blocks := After(Mem(FIRST_PAGE, 0, 0), ops).0;
            && (forall i :: 0 <= i < |blocks| ==>
                  0x20_0000 <= blocks[i].start && blocks[i].start + blocks[i].size <= 0x1000_0000 && Aligned(blocks[i].start))
            && (forall i, j :: 0 <= i < j < |blocks| ==> Apart(blocks[i], blocks[j]))
  {
    hide After, Small;
    RunKeeps(Mem(FIRST_PAGE, 0, 0), ops, []);
    assert [] + After(Mem(FIRST_PAGE, 0, 0), ops).0 == After(Mem(FIRST_PAGE, 0, 0), ops).0;
  }

  // ---- the same blocks, as the scheduler and malloc hand them out ----

  /** The page operation of a task creation: none without a vacant slot. */
  function TaskOps(m: Machine, code: Code): (ops: seq<Op>) {
    if FreeSlot(m.tasks, 0) == -1 then [] else [if code.UserCode? then UserTask else KernelTask]
  }

  /** The blocks a task owns: its kernel stack, and its user stack if it is a user task. */
  function TaskBlocksOf(t: Task): (blocks: seq<Block>) {
    [Block(Less(t.stackTop, STACK), STACK)] + if t.isUser then [Block(t.userBottom, PAGE)] else []
  }

  /** A creation takes exactly the pages of that operation, succeeds exactly when it hands out blocks, and
      these are then the new task's stacks. */
  lemma CreateIsStep(m: Machine, code: Code, cursor: nat, remaining: nat)
    requires FIRST_PAGE <= m.next <= TOTAL_PAGES
    ensures var (blocks, mem) := After(Mem(m.next, cursor, remaining), TaskOps(m, code));
            var (id, r) := Create(m, code);
            && mem == Mem(r.next, cursor, remaining)
            && (id != -1 <==> blocks != [])
            && (id != -1 ==>
                  var t := r.tasks[FreeSlot(m.tasks, 0)];
                  && t.stackTop >= STACK && blocks == TaskBlocksOf(t)
                  && (t.isUser <==> code.UserCode?) && (t.isUser ==> t.userTop == t.userBottom + PAGE))
  {
    hide AllocStack;
    StackIsFourPages(m.next);
    var ops := TaskOps(m, code);
    if ops != [] {
      assert ops[1..] == [];
      assert forall b: seq<Block> :: b + [] == b;
    }
  }

  /** What kernel code asks for. */
  datatype Request = NewTask(code: Code) | NewBlock(size: nat)

  /** Serving requests on one machine and one heap: the blocks handed out, in order, and what is left. */
  function Serve(m: Machine, cursor: nat, remaining: nat, requests: seq<Request>): (r: (seq<Block>, Machine))
    decreases |requests|
  {
    if requests == [] then ([], m)
    else
      match requests[0]
      case NewTask(code) =>
        var (id, m1) := Create(m, code);
        var (rest, end) := Serve(m1, cursor, remaining, requests[1..]);
        ((if id == -1 then [] else TaskBlocksOf(m1.tasks[FreeSlot(m.tasks, 0)])) + rest, end)
      case NewBlock(size) =>
        var (a, mem) := Malloc(Mem(m.next, cursor, remaining), size);
        var (rest, end) := Serve(m.(next := mem.next), mem.cursor, mem.remaining, requests[1..]);
        ((if a == 0 then [] else [Block(a, Rounded(size))]) + rest, end)
  }

  /** The page operations of the requests. */
  function OpsOf(m: Machine, cursor: nat, remaining: nat, requests: seq<Request>): (ops: seq<Op>)
    decreases |requests|
  {
    if requests == [] then []
    else
      match requests[0]
      case NewTask(code) => TaskOps(m, code) + OpsOf(Create(m, code).1, cursor, remaining, requests[1..])
      case NewBlock(size) =>
        var mem := Malloc(Mem(m.next, cursor, remaining), size).1;
        [Alloc(size)] + OpsOf(m.(next := mem.next), mem.cursor, mem.remaining, requests[1..])
  }

  lemma {:induction false} AfterSplit(m: Mem, a: seq<Op>, b: seq<Op>)
    ensures var (x, m1) := After(m, a);
            var (y, m2) := After(m1, b);
            After(m, a + b) == (x + y, m2)
    decreases |a|
  {
    hide Step;
    if a == [] {
      assert a + b == b;
      assert forall y: seq<Block> :: [] + y == y;
    } else {
      AfterSplit(Step(m, a[0]).1, a[1..], b);
      assert (a + b)[1..] == a[1..] + b;
      var (x, m1) := After(m, a);
      assert Step(m, a[0]).0 + (After(Step(m, a[0]).1, a[1..]).0 + After(m1, b).0) == x + After(m1, b).0;
    }
  }

  lemma NextBounded(m: Mem, op: Op)
    requires FIRST_PAGE <= m.next <= TOTAL_PAGES
    ensures m.next <= Step(m, op).1.next <= TOTAL_PAGES
  {
    hide AllocStack;
    StackIsFourPages(m.next);
  }

  /** Serving requests hands out exactly the blocks of their page operations. */
  lemma {:induction false} ServeIsAfter(m: Machine, cursor: nat, remaining: nat, requests: seq<Request>)
    requires FIRST_PAGE <= m.next <= TOTAL_PAGES
    ensures Serve(m, cursor, remaining, requests).0
            == After(Mem(m.next, cursor, remaining), OpsOf(m, cursor, remaining, requests)).0
    decreases |requests|
  {
    hide Step, Create, TaskOps, Malloc, Rounded, After, TaskBlocksOf;
    if requests == [] {
      NoOps(Mem(m.next, cursor, remaining));
    } else {
      var mem := Mem(m.next, cursor, remaining);
      match requests[0] {
        case NewTask(code) =>
          CreateIsStep(m, code, cursor, remaining);
          CreateBounded(m, code, cursor, remaining);
          AfterSplit(mem, TaskOps(m, code), OpsOf(Create(m, code).1, cursor, remaining, requests[1..]));
          ServeIsAfter(Create(m, code).1, cursor, remaining, requests[1..]);
        case NewBlock(size) =>
          var next := Malloc(mem, size).1;
          AllocIsStep(mem, size);
          AfterSplit(mem, [Alloc(size)], OpsOf(m.(next := next.next), next.cursor, next.remaining, requests[1..]));
          ServeIsAfter(m.(next := next.next), next.cursor, next.remaining, requests[1..]);
      }
    }
  }

  lemma NoOps(m: Mem)
    ensures After(m, []) == ([], m)
  {
  }

  lemma CreateBounded(m: Machine, code: Code, cursor: nat, remaining: nat)
    requires FIRST_PAGE <= m.next <= TOTAL_PAGES
    ensures FIRST_PAGE <= Create(m, code).1.next <= TOTAL_PAGES
  {
    hide AllocStack;
    StackIsFourPages(m.next);
  }

  lemma AllocIsStep(m: Mem, size: nat)
    requires FIRST_PAGE <= m.next <= TOTAL_PAGES
    ensures var (a, m1) := Malloc(m, size);
            && After(m, [Alloc(size)]) == (if a == 0 then [] else [Block(a, Rounded(size))], m1)
            && FIRST_PAGE <= m1.next <= TOTAL_PAGES
  {
    hide Malloc, Rounded;
    NextBounded(m, Alloc(size));
    assert [Alloc(size)][1..] == [];
    assert forall b: seq<Block> :: b + [] == b;
  }

  lemma {:induction false} OpsSmall(m: Machine, cursor: nat, remaining: nat, requests: seq<Request>)
    requires forall i :: 0 <= i < |requests| && requests[i].NewBlock? ==> requests[i].size <= PAGE
    ensures forall i :: 0 <= i < |OpsOf(m, cursor, remaining, requests)| ==> Small(OpsOf(m, cursor, remaining, requests)[i])
    decreases |requests|
  {
    hide Create, Malloc, FreeSlot;
    if requests != [] {
      match requests[0] {
        case NewTask(code) => OpsSmall(Create(m, code).1, cursor, remaining, requests[1..]);
        case NewBlock(size) =>
          var mem := Malloc(Mem(m.next, cursor, remaining), size).1;
          OpsSmall(m.(next := mem.next), mem.cursor, mem.remaining, requests[1..]);
      }
    }
  }

  /** From boot, whatever tasks the scheduler creates and whatever blocks of at most a page malloc cuts, in any
      order: all stacks and blocks are pairwise disjoint, aligned, and between 2 MB and 256 MB. */
  lemma SystemOwnership(m: Machine, requests: seq<Request>)
    requires m.next == FIRST_PAGE
    requires forall i :: 0 <= i < |requests| && requests[i].NewBlock? ==> requests[i].size <= PAGE
    ensures var blocks := Serve(m, 0, 0, requests).0;
            && (forall i :: 0 <= i < |blocks| ==>
                  0x20_0000 <= blocks[i].start && blocks[i].start + blocks[i].size <= 0x1000_0000 && Aligned(blocks[i].start))
            && (forall i, j :: 0 <= i < j < |blocks| ==> Apart(blocks[i], blocks[j]))
  {
    hide Serve, OpsOf, After, Small, Aligned, Apart;
    OpsSmall(m, 0, 0, requests);
    ServeIsAfter(m, 0, 0, requests);
    OwnershipFromBoot(OpsOf(m, 0, 0, requests));
  }
}
