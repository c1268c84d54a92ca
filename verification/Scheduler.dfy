/** Task slots, the round-robin scheduler and the context switch, as functions on the machine's state
    and as the methods that update that state in place. */
module Scheduler {
  import opened Pmm
  import opened Memory

  const MAX_TASKS := 8

  datatype Status = Unused | Ready | Running | Blocked | Dead

  /** A register file: the registers a switch saves, the stack pointer and the program counter. */
  datatype Context = Context(r15: nat, r14: nat, r13: nat, r12: nat, rbx: nat, rbp: nat, rsp: nat, rip: nat)

  datatype Task = Task(ctx: Context, status: Status, id: nat, stackTop: nat, userBottom: nat, userTop: nat,
                       userEntry: nat, isUser: bool, ticks: nat, name: string)

  /** The scheduler's variables, the processor, memory as 8-byte words, and the lowest free page. */
  datatype Machine = Machine(tasks: seq<Task>, current: int, nextId: nat, tss: nat, cpu: Context,
                             mem: map<nat, nat>, next: nat)

  /** What a new task is called and runs; a user task starts in the kernel's bootstrap routine. */
  datatype Code = KernelCode(name: string, entry: nat) | UserCode(name: string, entry: nat, bootstrap: nat)

  const NO_CONTEXT := Context(0, 0, 0, 0, 0, 0, 0, 0)
  const NO_TASK := Task(NO_CONTEXT, Unused, 0, 0, 0, 0, 0, false, 0, "")

  predicate Formed(m: Machine) {
    |m.tasks| == MAX_TASKS && -1 <= m.current < MAX_TASKS
  }

  // ---- searching the slots ----

  /** The slot `i` places after `start`, going round. */
  function Slot(start: nat, i: nat): (s: nat)
    requires start < MAX_TASKS && i < MAX_TASKS
    ensures s == (start + i) % MAX_TASKS
  {
    if start + i < MAX_TASKS then start + i else start + i - MAX_TASKS
  }

  function ReadyFrom(tasks: seq<Task>, start: nat, i: nat): (s: int)
    requires |tasks| == MAX_TASKS && start < MAX_TASKS && i <= MAX_TASKS
    ensures -1 <= s < MAX_TASKS && (s >= 0 ==> tasks[s].status == Ready)
    decreases MAX_TASKS - i
  {
    if i == MAX_TASKS then -1
    else if tasks[Slot(start, i)].status == Ready then Slot(start, i)
    else ReadyFrom(tasks, start, i + 1)
  }

  lemma ReadyFromStep(tasks: seq<Task>, start: nat, i: nat)
    requires |tasks| == MAX_TASKS && start < MAX_TASKS && i <= MAX_TASKS
    ensures i == MAX_TASKS ==> ReadyFrom(tasks, start, i) == -1
    ensures i < MAX_TASKS ==>
              var s := (start + i) % MAX_TASKS;
              ReadyFrom(tasks, start, i) == if tasks[s].status == Ready then s else ReadyFrom(tasks, start, i + 1)
  {
  }

  /** Round robin: the first READY slot after the current one, or -1. */
  function NextReady(tasks: seq<Task>, current: int): (s: int)
    requires |tasks| == MAX_TASKS && -1 <= current < MAX_TASKS
    ensures -1 <= s < MAX_TASKS && (s >= 0 ==> tasks[s].status == Ready)
  {
    ReadyFrom(tasks, if current + 1 == MAX_TASKS then 0 else current + 1, 0)
  }

  predicate Vacant(t: Task) {
    t.status == Unused || t.status == Dead
  }

  /** The first vacant slot from `i` on, or -1. */
  function FreeSlot(tasks: seq<Task>, i: nat): (s: int)
    requires i <= |tasks|
    ensures s == -1 || (i <= s < |tasks| && Vacant(tasks[s]))
    ensures s == -1 ==> forall j :: i <= j < |tasks| ==> !Vacant(tasks[j])
    ensures s >= 0 ==> forall j :: i <= j < s ==> !Vacant(tasks[j])
    decreases |tasks| - i
  {
    if i == |tasks| then -1 else if Vacant(tasks[i]) then i else FreeSlot(tasks, i + 1)
  }

  /** The first READY slot from `i` on, or -1. */
  function FirstReady(tasks: seq<Task>, i: nat): (s: int)
    requires i <= |tasks|
    ensures s == -1 || (i <= s < |tasks| && tasks[s].status == Ready)
    ensures s == -1 ==> forall j :: i <= j < |tasks| ==> tasks[j].status != Ready
    ensures s >= 0 ==> forall j :: i <= j < s ==> tasks[j].status != Ready
    decreases |tasks| - i
  {
    if i == |tasks| then -1 else if tasks[i].status == Ready then i else FirstReady(tasks, i + 1)
  }

  // ---- creating tasks ----

  /** Fill in the first frame and context of the task in `slot`, and make it runnable. */
  function Launch(m: Machine, slot: nat, t: Task, rip: nat): (r: Machine)
    requires slot < |m.tasks|
  {
    var sp := Less(t.stackTop, 8);
    m.(tasks := m.tasks[slot := t.(ctx := Context(0, 0, 0, 0, 0, sp, sp, rip), status := Ready)],
       mem := m.mem[sp := rip])
  }

  /** A name cut to the 31 characters there is room for. */
  function Cut(name: string): (r: string)
    ensures |r| <= 31 && r <= name
  {
    if |name| <= 31 then name else name[..31]
  }

  /** The fields set before any page is asked for. */
  function Claimed(t: Task, id: nat, code: Code): (r: Task) {
    var u := t.(id := id, status := Unused, ticks := 0, name := Cut(code.name));
    if code.UserCode? then u.(isUser := true, userEntry := code.entry) else u
  }

  /** `scheduler_create_task` and `scheduler_create_user_task`: the new task's id or -1, and the machine after. */
  function Create(m: Machine, code: Code): (r: (int, Machine))
    ensures |r.1.tasks| == |m.tasks| && r.1.current == m.current
  {
    var slot := FreeSlot(m.tasks, 0);
    if slot == -1 then (-1, m)
    else
      var t := Claimed(m.tasks[slot], m.nextId, code);
      var (bottom, n) := AllocStack(m.next);
      var m1 := m.(tasks := m.tasks[slot := t], nextId := m.nextId + 1, next := n);
      if bottom == 0 then (-1, m1)
      else
        match code
        case KernelCode(_, entry) =>
          (m.nextId as int, Launch(m1, slot, t.(stackTop := bottom + STACK, userBottom := 0, userTop := 0, userEntry := 0,
                                         isUser := false), entry))
        case UserCode(_, _, bootstrap) =>
          var (u, n2) := AllocPage(n);
          var t2 := t.(stackTop := bottom + STACK);
          if u == 0 then (-1, m1.(tasks := m.tasks[slot := t2], next := n2))
          else (m.nextId as int, Launch(m1.(next := n2), slot, t2.(userBottom := u, userTop := u + PAGE), bootstrap))
  }

  // ---- switching ----

  function Word(mem: map<nat, nat>, a: nat): nat {
    if a in mem then mem[a] else 0
  }

  /** `context_switch` once called: save into slot `o`, load from slot `n`, put rip on the new stack, return. */
  function Switch(m: Machine, o: nat, n: nat): (r: Machine)
    requires o < |m.tasks| && n < |m.tasks|
  {
    var tasks := m.tasks[o := m.tasks[o].(ctx := m.cpu.(rip := Word(m.mem, m.cpu.rsp)))];
    var c := tasks[n].ctx;
    var mem := m.mem[c.rsp := c.rip];
    m.(tasks := tasks, mem := mem, cpu := c.(rsp := (c.rsp + 8) % WORD, rip := Word(mem, c.rsp)))
  }

  /** The call instruction: push the return address. */
  function Call(m: Machine, ra: nat): (r: Machine) {
    var sp := Less(m.cpu.rsp, 8);
    m.(cpu := m.cpu.(rsp := sp), mem := m.mem[sp := ra])
  }

  function Counted(m: Machine): (r: Machine)
    requires Formed(m)
    ensures Formed(r)
  {
    if m.current < 0 then m
    else m.(tasks := m.tasks[m.current := m.tasks[m.current].(ticks := m.tasks[m.current].ticks + 1)])
  }

  function MarkRunning(m: Machine, n: nat): (r: Machine)
    requires Formed(m) && n < MAX_TASKS
    ensures Formed(r)
  {
    var tasks := if m.current < 0 then m.tasks else m.tasks[m.current := m.tasks[m.current].(status := Ready)];
    m.(current := n, tasks := tasks[n := tasks[n].(status := Running)], tss := tasks[n].stackTop)
  }

  /** `scheduler_tick`; `ra` is the return address its call of `context_switch` would push. */
  function Tick(m: Machine, ra: nat): (r: Machine)
    requires Formed(m)
    ensures Formed(r)
  {
    var m1 := Counted(m);
    var n := NextReady(m1.tasks, m.current);
    if n == -1 || n == m.current then m1
    else if m.current < 0 then MarkRunning(m1, n)
    else Switch(Call(MarkRunning(m1, n), ra), m.current, n)
  }

  /** Every RUNNING task is made READY. */
  function Demoted(tasks: seq<Task>): (r: seq<Task>)
    ensures |r| == |tasks|
    ensures forall i :: 0 <= i < |tasks| ==>
              r[i] == if tasks[i].status == Running then tasks[i].(status := Ready) else tasks[i]
  {
    seq(|tasks|, i requires 0 <= i < |tasks| =>
      if tasks[i].status == Running then tasks[i].(status := Ready) else tasks[i])
  }

  /** `scheduler_start`: false if no slot is READY, otherwise the first READY slot's context is entered. */
  function Start(m: Machine): (r: (bool, Machine))
    requires Formed(m)
    ensures Formed(r.1)
  {
    var n := FirstReady(m.tasks, 0);
    if n == -1 then (false, m.(current := -1))
    else
      var tasks := Demoted(m.tasks);
      (true, m.(current := n, tasks := tasks[n := tasks[n].(status := Running)], tss := tasks[n].stackTop,
                cpu := tasks[n].ctx))
  }

  // ---- the methods ----

  class Kernel {
    const tasks: array<Task>
    const pages: PageMap
    var current: int
    var nextId: nat
    var tss: nat
    var cpu: Context
    var mem: map<nat, nat>

    ghost predicate Valid()
      reads this, tasks, pages.bitmap
    {
      && tasks.Length == MAX_TASKS && -1 <= current < MAX_TASKS
      && pages.Valid() && InOrder(pages.bitmap[..])
    }

    ghost function State(): (m: Machine)
      requires Valid()
      reads this, tasks, pages.bitmap
    {
      Machine(tasks[..], current, nextId, tss, cpu, mem, Lowest(pages.bitmap[..], FIRST_PAGE))
    }

    /** `scheduler_init`, over the page map that `pmm_init` has just set up. */
    constructor (pages: PageMap, cpu: Context, mem: map<nat, nat>)
      requires pages.Valid() && Segment(pages.bitmap[..], FIRST_PAGE)
      ensures Valid() && fresh(tasks) && this.pages == pages
      ensures State() == Machine(seq(MAX_TASKS, _ => NO_TASK), -1, 0, 0, cpu, mem, FIRST_PAGE)
    {
      this.pages := pages;
      tasks := new Task[MAX_TASKS](_ => NO_TASK);
      current, nextId, tss := -1, 0, 0;
      this.cpu, this.mem := cpu, mem;
      LowestOfSegment(pages.bitmap[..], FIRST_PAGE);
    }

    /** `find_next_ready_task`. */
    method FindNextReady() returns (idx: int)
      requires Valid()
      ensures idx == NextReady(tasks[..], current)
    {
      hide InOrder, Lowest, ReadyFrom;
      var start := (current + 1) % MAX_TASKS;
      var i := 0;
      while i < MAX_TASKS
        invariant 0 <= i <= MAX_TASKS
        invariant NextReady(tasks[..], current) == ReadyFrom(tasks[..], start, i)
      {
        ReadyFromStep(tasks[..], start, i);
        idx := (start + i) % MAX_TASKS;
        if tasks[idx].status == Ready {
          return;
        }
        i := i + 1;
      }
      ReadyFromStep(tasks[..], start, i);
      idx := -1;
    }

    /** The slot search both creators begin with. */
    method FindFreeSlot() returns (slot: int)
      requires Valid()
      ensures slot == FreeSlot(tasks[..], 0)
    {
      hide InOrder, Lowest;
      slot := 0;
      while slot < MAX_TASKS
        invariant 0 <= slot <= MAX_TASKS && FreeSlot(tasks[..], 0) == FreeSlot(tasks[..], slot)
      {
        if tasks[slot].status == Unused || tasks[slot].status == Dead {
          return;
        }
        slot := slot + 1;
      }
      slot := -1;
    }

    method TakePage() returns (addr: nat)
      requires Valid()
      modifies pages.bitmap
      ensures Valid() && (addr, State().next) == AllocPage(old(State().next))
    {
      hide InOrder, Lowest;
      addr := pages.AllocNext();
    }

    /** The four `pmm_alloc_page` calls for a kernel stack. */
    method TakeStack() returns (bottom: nat)
      requires Valid()
      modifies pages.bitmap
      ensures Valid() && (bottom, State().next) == AllocStack(old(State().next))
    {
      hide InOrder, Lowest;
      ghost var first := State().next;
      bottom := TakePage();
      if bottom == 0 {
        return;
      }
      var p := 1;
      while p < 4
        invariant Valid() && 1 <= p <= 4 && bottom == AllocPage(first).0 && first + p == State().next <= TOTAL_PAGES
      {
        var page := TakePage();
        if page == 0 {
          return 0;
        }
        p := p + 1;
      }
    }

    /** The loop that copies a task's name. */
    method CopyName(slot: nat, name: string)
      requires Valid() && slot < MAX_TASKS
      modifies tasks
      ensures Valid() && tasks[..] == old(tasks[..])[slot := old(tasks[slot]).(name := Cut(name))]
    {
      hide InOrder, Lowest;
      ghost var before := tasks[..];
      var i := 0;
      var copied := "";
      while i < |name| && i < 31
        invariant 0 <= i <= |name| && i <= 31 && copied == name[..i]
      {
        copied := copied + [name[i]];
        i := i + 1;
      }
      assert copied == Cut(name);
      tasks[slot] := tasks[slot].(name := copied);
      assert tasks[..] == before[slot := before[slot].(name := copied)];
    }

    /** `scheduler_create_task`. */
    method CreateTask(name: string, entry: nat) returns (id: int)
      requires Valid()
      modifies this`nextId, this`mem, tasks, pages.bitmap
      ensures Valid() && (id, State()) == Create(old(State()), KernelCode(name, entry))
    {
      hide InOrder, Lowest, AllocStack, FreeSlot;
      var slot := FindFreeSlot();
      if slot == -1 {
        return -1;
      }
      tasks[slot] := tasks[slot].(id := nextId, status := Unused, ticks := 0);
      nextId := nextId + 1;
      CopyName(slot, name);
      var bottom := TakeStack();
      if bottom == 0 {
        assert tasks[..] == Create(old(State()), KernelCode(name, entry)).1.tasks;
        return -1;
      }
      tasks[slot] := tasks[slot].(stackTop := bottom + STACK, userBottom := 0, userTop := 0, userEntry := 0, isUser := false);
      var sp := Less(tasks[slot].stackTop, 8);
      mem := mem[sp := entry];
      tasks[slot] := tasks[slot].(ctx := Context(0, 0, 0, 0, 0, sp, sp, entry));
      tasks[slot] := tasks[slot].(status := Ready);
      id := tasks[slot].id;
      assert tasks[..] == Create(old(State()), KernelCode(name, entry)).1.tasks;
    }

    /** `scheduler_create_user_task`. */
    method CreateUserTask(name: string, entry: nat, bootstrap: nat) returns (id: int)
      requires Valid()
      modifies this`nextId, this`mem, tasks, pages.bitmap
      ensures Valid() && (id, State()) == Create(old(State()), UserCode(name, entry, bootstrap))
    {
      hide InOrder, Lowest, AllocStack, FreeSlot;
      var slot := FindFreeSlot();
      if slot == -1 {
        return -1;
      }
      tasks[slot] := tasks[slot].(id := nextId, status := Unused, ticks := 0, isUser := true, userEntry := entry);
      nextId := nextId + 1;
      CopyName(slot, name);
      var bottom := TakeStack();
      if bottom == 0 {
        assert tasks[..] == Create(old(State()), UserCode(name, entry, bootstrap)).1.tasks;
        return -1;
      }
      tasks[slot] := tasks[slot].(stackTop := bottom + STACK);
      var user := TakePage();
      if user == 0 {
        assert tasks[..] == Create(old(State()), UserCode(name, entry, bootstrap)).1.tasks;
        return -1;
      }
      tasks[slot] := tasks[slot].(userBottom := user, userTop := user + PAGE);
      var sp := Less(tasks[slot].stackTop, 8);
      mem := mem[sp := bootstrap];
      tasks[slot] := tasks[slot].(ctx := Context(0, 0, 0, 0, 0, sp, sp, bootstrap));
      tasks[slot] := tasks[slot].(status := Ready);
      id := tasks[slot].id;
      assert tasks[..] == Create(old(State()), UserCode(name, entry, bootstrap)).1.tasks;
    }

    /** `context_switch`, instruction by instruction. */
    method ContextSwitch(o: nat, n: nat)
      requires Valid() && o < MAX_TASKS && n < MAX_TASKS
      modifies this`cpu, this`mem, tasks
      ensures Valid() && State() == Switch(old(State()), o, n)
    {
      hide InOrder, Lowest;
      tasks[o] := tasks[o].(ctx := tasks[o].ctx.(r15 := cpu.r15, r14 := cpu.r14, r13 := cpu.r13, r12 := cpu.r12,
                                                 rbx := cpu.rbx, rbp := cpu.rbp));
      tasks[o] := tasks[o].(ctx := tasks[o].ctx.(rsp := cpu.rsp));
      var rax := Word(mem, cpu.rsp);
      tasks[o] := tasks[o].(ctx := tasks[o].ctx.(rip := rax));

      cpu := cpu.(r15 := tasks[n].ctx.r15, r14 := tasks[n].ctx.r14, r13 := tasks[n].ctx.r13, r12 := tasks[n].ctx.r12,
                  rbx := tasks[n].ctx.rbx, rbp := tasks[n].ctx.rbp);
      cpu := cpu.(rsp := tasks[n].ctx.rsp);
      rax := tasks[n].ctx.rip;
      mem := mem[cpu.rsp := rax];
      cpu := cpu.(rip := Word(mem, cpu.rsp), rsp := (cpu.rsp + 8) % WORD);
    }

    /** `scheduler_tick`, called by the timer and by `scheduler_yield`. */
    method OnTick(ra: nat)
      requires Valid()
      modifies this`current, this`tss, this`cpu, this`mem, tasks
      ensures Valid() && State() == Tick(old(State()), ra)
    {
      hide InOrder, Lowest, NextReady, Switch;
      if current >= 0 {
        tasks[current] := tasks[current].(ticks := tasks[current].ticks + 1);
      }
      assert State() == Counted(old(State()));
      var n := FindNextReady();
      if n == -1 || n == current {
        return;
      }
      var o := current;
      current := n;
      if o >= 0 {
        tasks[o] := tasks[o].(status := Ready);
      }
      tasks[n] := tasks[n].(status := Running);
      tss := tasks[n].stackTop;
      assert State() == MarkRunning(Counted(old(State())), n);
      if o >= 0 {
        var sp := Less(cpu.rsp, 8);
        cpu, mem := cpu.(rsp := sp), mem[sp := ra];
        ContextSwitch(o, n);
      }
    }

    /** `scheduler_start` with `scheduler_start_first_task`. */
    method OnStart() returns (started: bool)
      requires Valid()
      modifies this`current, this`tss, this`cpu, tasks
      ensures Valid() && (started, State()) == Start(old(State()))
    {
      hide InOrder, Lowest;
      current := -1;
      var n := 0;
      while n < MAX_TASKS && tasks[n].status != Ready
        invariant 0 <= n <= MAX_TASKS && FirstReady(tasks[..], 0) == FirstReady(tasks[..], n)
      {
        n := n + 1;
      }
      if n == MAX_TASKS {
        return false;
      }
      ghost var before := tasks[..];
      var i := 0;
      while i < MAX_TASKS
        invariant 0 <= i <= MAX_TASKS
        invariant forall j :: 0 <= j < MAX_TASKS ==> tasks[j] == if j < i then Demoted(before)[j] else before[j]
      {
        if tasks[i].status == Running {
          tasks[i] := tasks[i].(status := Ready);
        }
        i := i + 1;
      }
      assert tasks[..] == Demoted(before);
      current := n;
      tasks[n] := tasks[n].(status := Running);
      tss := tasks[n].stackTop;
      cpu := tasks[n].ctx;
      started := true;
    }
  }
}
