/** A task does not notice being switched away: over every run in which tasks keep to their own registers
    and stacks, a suspended task resumes exactly where its call of `context_switch` left off. */
module Switching {
  import opened Pmm
  import opened Memory
  import opened Scheduler
  import opened Scheduling

  // ---- stacks ----

  /** `a` is a word of the task's 16 KB stack. */
  predicate InStack(t: Task, a: int) {
    t.stackTop <= a + STACK && a + 8 <= t.stackTop && a >= 0 && a % 8 == 0
  }

  predicate StackOk(t: Task, next: nat) {
    FIRST_PAGE * PAGE + STACK <= t.stackTop <= next * PAGE && t.stackTop % 8 == 0
  }

  predicate StacksApart(t: Task, u: Task) {
    t.stackTop + STACK <= u.stackTop || u.stackTop + STACK <= t.stackTop
  }

  /** The saved stack pointer is in the task's own stack and points at the saved program counter. */
  predicate Parked(t: Task, mem: map<nat, nat>) {
    InStack(t, t.ctx.rsp) && t.ctx.rsp in mem && mem[t.ctx.rsp] == t.ctx.rip
  }

  /** The processor is on the task's stack, with room for a return address. */
  predicate OnStack(t: Task, cpu: Context) {
    InStack(t, cpu.rsp - 8)
  }

  ghost predicate SameStack(t: Task, mem: map<nat, nat>, mem': map<nat, nat>) {
    forall a: nat :: InStack(t, a) ==> (a in mem <==> a in mem') && (a in mem ==> mem[a] == mem'[a])
  }

  ghost predicate Stacks(m: Machine) {
    && |m.tasks| == MAX_TASKS && FIRST_PAGE <= m.next <= TOTAL_PAGES
    && (forall i :: 0 <= i < MAX_TASKS && Active(m.tasks[i]) ==> StackOk(m.tasks[i], m.next))
    && (forall i, j :: 0 <= i < j < MAX_TASKS && Active(m.tasks[i]) && Active(m.tasks[j]) ==> StacksApart(m.tasks[i], m.tasks[j]))
    && (forall i :: 0 <= i < MAX_TASKS && m.tasks[i].status == Ready ==> Parked(m.tasks[i], m.mem))
  }

  /** The state between two events once the scheduler has started. */
  ghost predicate Isolated(m: Machine) {
    Safe(m) && Stacks(m) && OnStack(m.tasks[m.current], m.cpu)
  }

  /** The running task may change its registers and any memory except other tasks' stacks. */
  ghost predicate Legal(m: Machine, e: Event)
    requires Formed(m)
  {
    e.Work? ==>
      && m.current >= 0 && OnStack(m.tasks[m.current], e.cpu)
      && forall i :: 0 <= i < MAX_TASKS && i != m.current && Active(m.tasks[i]) ==> SameStack(m.tasks[i], m.mem, e.mem)
  }

  ghost predicate LegalRun(m: Machine, run: seq<Event>)
    requires Formed(m)
    decreases |run|
  {
    run != [] ==> Legal(m, run[0]) && LegalRun(Step(m, run[0]), run[1..])
  }

  // ---- one switch ----

  /** The caller's registers as saved: just after the call pushed its return address. */
  function Saved(cpu: Context, ra: nat): Context
    requires cpu.rsp >= 8
  {
    cpu.(rsp := cpu.rsp - 8, rip := ra)
  }

  /** The registers once `context_switch` has returned on a saved context. */
  function Returned(c: Context): Context {
    c.(rsp := c.rsp + 8)
  }

  lemma OnStackMeans(t: Task, cpu: Context, next: nat)
    requires StackOk(t, next) && next <= TOTAL_PAGES && OnStack(t, cpu)
    ensures cpu.rsp >= 8 && Less(cpu.rsp, 8) == cpu.rsp - 8
  {
  }

  lemma WordsApart(t: Task, u: Task, a: nat)
    requires StacksApart(t, u) && InStack(t, a)
    ensures !InStack(u, a)
  {
  }

  /** The whole of a switch: the only memory word that changes is the pushed return address, on the old
      task's own stack; writing rip to the new stack's top changes nothing. */
  lemma SwitchIs(m: Machine, o: nat, n: nat, ra: nat)
    requires |m.tasks| == MAX_TASKS && o < MAX_TASKS && n < MAX_TASKS && o != n && m.next <= TOTAL_PAGES
    requires StackOk(m.tasks[o], m.next) && StackOk(m.tasks[n], m.next) && StacksApart(m.tasks[o], m.tasks[n])
    requires OnStack(m.tasks[o], m.cpu) && Parked(m.tasks[n], m.mem)
    ensures m.cpu.rsp >= 8
    ensures var r := Switch(Call(m, ra), o, n);
            && r.cpu == Returned(m.tasks[n].ctx)
            && r.mem == m.mem[m.cpu.rsp - 8 := ra]
            && r.tasks == m.tasks[o := m.tasks[o].(ctx := Saved(m.cpu, ra))]
            && r == m.(cpu := r.cpu, mem := r.mem, tasks := r.tasks)
  {
    OnStackMeans(m.tasks[o], m.cpu, m.next);
    WordsApart(m.tasks[n], m.tasks[o], m.tasks[n].ctx.rsp);
    var mem := m.mem[m.cpu.rsp - 8 := ra];
    var c := m.tasks[n].ctx;
    assert mem[c.rsp := c.rip] == mem;
  }

  /** A tick that moves on, in terms of the state before it. */
  lemma TickIs(m: Machine, ra: nat)
    requires Isolated(m) && Moves(m)
    ensures m.cpu.rsp >= 8
    ensures var (o, n, r) := (m.current, NextReady(m.tasks, m.current), Tick(m, ra));
            && n != o && m.tasks[n].status == Ready && r.current == n
            && r.cpu == Returned(m.tasks[n].ctx)
            && r.mem == m.mem[m.cpu.rsp - 8 := ra]
            && r.tasks == m.tasks[o := m.tasks[o].(ticks := m.tasks[o].ticks + 1, status := Ready, ctx := Saved(m.cpu, ra))]
                                 [n := m.tasks[n].(status := Running)]
            && r.next == m.next
  {
    hide ReadyFrom, Switch, Call, StackOk, Parked, OnStack, StacksApart;
    var o, n := m.current, NextReady(m.tasks, m.current);
    SearchSeesStatus(m.tasks, Counted(m).tasks, if o + 1 == MAX_TASKS then 0 else o + 1, 0);
    var m2 := MarkRunning(Counted(m), n);
    MarkedStacks(m, m2, o, n);
    SwitchIs(m2, o, n, ra);
  }

  lemma MarkedStacks(m: Machine, m2: Machine, o: nat, n: nat)
    requires Isolated(m) && o == m.current && n < MAX_TASKS && m.tasks[n].status == Ready && n != o
    requires m2 == MarkRunning(Counted(m), n)
    ensures StackOk(m2.tasks[o], m2.next) && StackOk(m2.tasks[n], m2.next) && StacksApart(m2.tasks[o], m2.tasks[n])
    ensures OnStack(m2.tasks[o], m2.cpu) && Parked(m2.tasks[n], m2.mem)
  {
    assert Active(m.tasks[o]) && Active(m.tasks[n]);
    assert StacksApart(m.tasks[if o < n then o else n], m.tasks[if o < n then n else o]);
  }

  // ---- what every event keeps ----

  /** A write into one stack leaves the others alone. */
  lemma ForeignWrite(t: Task, u: Task, mem: map<nat, nat>, a: nat, w: nat)
    requires StacksApart(t, u) && InStack(t, a)
    ensures SameStack(u, mem, mem[a := w])
    ensures Parked(u, mem) ==> Parked(u, mem[a := w])
  {
    WordsApart(t, u, a);
  }

  lemma ApartIn(m: Machine, i: nat, j: nat)
    requires Stacks(m) && i < MAX_TASKS && j < MAX_TASKS && i != j && Active(m.tasks[i]) && Active(m.tasks[j])
    ensures StacksApart(m.tasks[i], m.tasks[j])
  {
    assert StacksApart(m.tasks[if i < j then i else j], m.tasks[if i < j then j else i]);
  }

  lemma TickKeeps(m: Machine, ra: nat)
    requires Isolated(m)
    ensures Isolated(Tick(m, ra))
  {
    hide Tick, NextReady, StackOk, StacksApart;
    var r := Tick(m, ra);
    TickOutline(m, ra);
    StepSafe(m, Timer(ra));
    if Moves(m) {
      TickIs(m, ra);
      ParkedAfterTick(m, ra);
      StacksMoved(m, r);
    } else {
      TickStays(m, ra);
      StacksMoved(m, r);
    }
  }

  lemma TickStays(m: Machine, ra: nat)
    requires Formed(m) && !Moves(m)
    ensures var r := Tick(m, ra);
            && r.cpu == m.cpu && r.mem == m.mem && r.next == m.next
            && forall i :: 0 <= i < MAX_TASKS ==> r.tasks[i].ctx == m.tasks[i].ctx
  {
    hide ReadyFrom;
    SearchSeesStatus(m.tasks, Counted(m).tasks, if m.current + 1 == MAX_TASKS then 0 else m.current + 1, 0);
  }

  lemma ParkedAfterTick(m: Machine, ra: nat)
    requires Isolated(m) && Moves(m)
    ensures var r := Tick(m, ra);
            && OnStack(r.tasks[r.current], r.cpu)
            && forall i :: 0 <= i < MAX_TASKS && r.tasks[i].status == Ready ==> Parked(r.tasks[i], r.mem)
  {
    hide Tick, NextReady, StackOk, StacksApart;
    var r, o := Tick(m, ra), m.current;
    TickIs(m, ra);
    forall i | 0 <= i < MAX_TASKS && r.tasks[i].status == Ready
      ensures Parked(r.tasks[i], r.mem)
    {
      if i != o {
        ApartIn(m, o, i);
        ForeignWrite(m.tasks[o], m.tasks[i], m.mem, m.cpu.rsp - 8, ra);
      }
    }
  }

  /** The stack layout only depends on which slots are active, on their stack tops and on the page limit. */
  lemma StacksMoved(m: Machine, r: Machine)
    requires Stacks(m) && |r.tasks| == MAX_TASKS && m.next <= r.next <= TOTAL_PAGES
    requires forall i :: 0 <= i < MAX_TASKS ==>
               (Active(r.tasks[i]) ==> Active(m.tasks[i])) && r.tasks[i].stackTop == m.tasks[i].stackTop
    requires forall i :: 0 <= i < MAX_TASKS && r.tasks[i].status == Ready ==> Parked(r.tasks[i], r.mem)
    ensures Stacks(r)
  {
    hide Parked;
    forall i, j | 0 <= i < j < MAX_TASKS && Active(r.tasks[i]) && Active(r.tasks[j])
      ensures StacksApart(r.tasks[i], r.tasks[j])
    {
      ApartIn(m, i, j);
    }
  }

  /** A created task: the next four pages as its stack, parked at its first instruction. */
  lemma CreateIs(m: Machine, code: Code)
    requires Formed(m) && FIRST_PAGE <= m.next <= TOTAL_PAGES && Create(m, code).0 != -1
    ensures var (slot, r) := (FreeSlot(m.tasks, 0), Create(m, code).1);
            && slot >= 0 && m.next + 4 <= r.next <= TOTAL_PAGES
            && r.tasks[slot].status == Ready && r.tasks[slot].stackTop == (m.next + 4) * PAGE
            && r.tasks[slot].ctx == Fresh(r.tasks[slot].stackTop, code)
            && r.mem == m.mem[r.tasks[slot].stackTop - 8 := First(code)]
  {
    hide AllocStack;
    StackIsFourPages(m.next);
  }

  /** The first instruction a new task executes. */
  function First(code: Code): nat {
    if code.UserCode? then code.bootstrap else code.entry
  }

  function Fresh(top: nat, code: Code): Context
    requires top >= 8
  {
    Context(0, 0, 0, 0, 0, top - 8, top - 8, First(code))
  }

  lemma CreateNext(m: Machine, code: Code)
    requires Formed(m) && FIRST_PAGE <= m.next <= TOTAL_PAGES
    ensures m.next <= Create(m, code).1.next <= TOTAL_PAGES
  {
    hide AllocStack;
    StackIsFourPages(m.next);
  }

  lemma NewStackApart(t: Task, u: Task, next: nat)
    requires StackOk(t, next) && u.stackTop == (next + 4) * PAGE
    ensures StacksApart(u, t) && StacksApart(t, u)
  {
  }

  lemma TopOfPage(top: nat, n: nat)
    requires top == n * PAGE && n > 0
    ensures top % 8 == 0 && (top - 8) % 8 == 0
  {
    assert top == 8 * (512 * n) && top - 8 == 8 * (512 * n - 1);
  }

  lemma NewStackParked(t: Task, next: nat, mem: map<nat, nat>)
    requires FIRST_PAGE <= next && t.stackTop == (next + 4) * PAGE && t.ctx.rsp == t.stackTop - 8
    ensures Parked(t, mem[t.stackTop - 8 := t.ctx.rip]) && StackOk(t, next + 4)
  {
    TopOfPage(t.stackTop, next + 4);
  }

  lemma CreateKeepsStacks(m: Machine, code: Code)
    requires Formed(m) && Stacks(m)
    ensures Stacks(Create(m, code).1)
  {
    hide Create, Parked, StackOk, StacksApart, FreeSlot;
    var (id, r) := Create(m, code);
    CreateOutline(m, code);
    CreateNext(m, code);
    var slot := FreeSlot(m.tasks, 0);
    if id == -1 {
      StacksKept(m, r, slot, First(code));
    } else {
      CreateIs(m, code);
      NewStackParked(r.tasks[slot], m.next, m.mem);
      StacksKept(m, r, slot, First(code));
      NewcomerFits(m, r, slot);
    }
  }

  /** The stacks of all slots but one, after an event that touched only that slot and its stack. */
  lemma StacksKept(m: Machine, r: Machine, slot: int, w: nat)
    requires Stacks(m) && |r.tasks| == MAX_TASKS && m.next <= r.next
    requires forall i :: 0 <= i < MAX_TASKS && i != slot ==> r.tasks[i] == m.tasks[i]
    requires || r.mem == m.mem
             || (0 <= slot < MAX_TASKS && r.tasks[slot].stackTop == (m.next + 4) * PAGE
                 && r.mem == m.mem[r.tasks[slot].stackTop - 8 := w])
    ensures forall i :: 0 <= i < MAX_TASKS && i != slot && Active(r.tasks[i]) ==> StackOk(r.tasks[i], r.next)
    ensures forall i, j :: 0 <= i < j < MAX_TASKS && i != slot && j != slot && Active(r.tasks[i]) && Active(r.tasks[j]) ==>
              StacksApart(r.tasks[i], r.tasks[j])
    ensures forall i :: 0 <= i < MAX_TASKS && i != slot && r.tasks[i].status == Ready ==> Parked(r.tasks[i], r.mem)
    ensures forall i :: 0 <= i < MAX_TASKS && i != slot && Active(r.tasks[i]) ==> SameStack(r.tasks[i], m.mem, r.mem)
  {
    hide StacksApart;
    forall i | 0 <= i < MAX_TASKS && i != slot && Active(r.tasks[i])
      ensures (r.tasks[i].status == Ready ==> Parked(r.tasks[i], r.mem)) && SameStack(r.tasks[i], m.mem, r.mem)
    {
      if r.mem != m.mem {
        NewStackApart(m.tasks[i], r.tasks[slot], m.next);
        assert InStack(r.tasks[slot], r.tasks[slot].stackTop - 8);
        ForeignWrite(r.tasks[slot], m.tasks[i], m.mem, r.tasks[slot].stackTop - 8, w);
      }
    }
  }

  lemma NewcomerFits(m: Machine, r: Machine, slot: nat)
    requires Stacks(m) && |r.tasks| == MAX_TASKS && m.next + 4 <= r.next <= TOTAL_PAGES && slot < MAX_TASKS
    requires forall i :: 0 <= i < MAX_TASKS && i != slot ==> r.tasks[i] == m.tasks[i]
    requires r.tasks[slot].stackTop == (m.next + 4) * PAGE && Parked(r.tasks[slot], r.mem) && StackOk(r.tasks[slot], m.next + 4)
    requires forall i :: 0 <= i < MAX_TASKS && i != slot && Active(r.tasks[i]) ==> StackOk(r.tasks[i], r.next)
    requires forall i, j :: 0 <= i < j < MAX_TASKS && i != slot && j != slot && Active(r.tasks[i]) && Active(r.tasks[j]) ==>
               StacksApart(r.tasks[i], r.tasks[j])
    requires forall i :: 0 <= i < MAX_TASKS && i != slot && r.tasks[i].status == Ready ==> Parked(r.tasks[i], r.mem)
    ensures Stacks(r)
  {
    hide Parked, StacksApart;
    forall i | 0 <= i < MAX_TASKS && i != slot && Active(r.tasks[i])
      ensures StacksApart(r.tasks[i], r.tasks[slot]) && StacksApart(r.tasks[slot], r.tasks[i])
    {
      NewStackApart(m.tasks[i], r.tasks[slot], m.next);
    }
  }

  lemma CreateKeeps(m: Machine, code: Code)
    requires Isolated(m)
    ensures Isolated(Create(m, code).1)
  {
    hide Create, Stacks;
    CreateKeepsStacks(m, code);
    CreateOutline(m, code);
    StepSafe(m, NewTask(code));
  }

  lemma WorkKeeps(m: Machine, cpu: Context, mem: map<nat, nat>)
    requires Isolated(m) && Legal(m, Work(cpu, mem))
    ensures Isolated(m.(cpu := cpu, mem := mem))
  {
    hide StacksApart, StackOk;
    forall i | 0 <= i < MAX_TASKS && m.tasks[i].status == Ready
      ensures Parked(m.tasks[i], mem)
    {
      assert SameStack(m.tasks[i], m.mem, mem);
    }
  }

  lemma StepKeeps(m: Machine, e: Event)
    requires Isolated(m) && Legal(m, e)
    ensures Isolated(Step(m, e))
  {
    hide Tick, Create, Legal;
    match e {
      case Timer(ra) => TickKeeps(m, ra);
      case NewTask(code) => CreateKeeps(m, code);
      case TakePage => StacksMoved(m, Step(m, e));
      case Work(cpu, mem) => WorkKeeps(m, cpu, mem);
    }
  }

  lemma {:induction false} RunKeeps(m: Machine, run: seq<Event>)
    requires Formed(m) && Isolated(m) && LegalRun(m, run)
    ensures Isolated(After(m, run))
    decreases |run|
  {
    hide Step, Isolated, Legal;
    if run != [] {
      StepKeeps(m, run[0]);
      RunKeeps(Step(m, run[0]), run[1..]);
    }
  }

  // ---- sleeping and waking ----

  /** The last event of the run, and no earlier one, makes slot `i` current. */
  ghost predicate Wakes(m: Machine, run: seq<Event>, i: nat)
    requires Formed(m)
    decreases |run|
  {
    && run != []
    && (if |run| == 1 then Step(m, run[0]).current == i
        else Step(m, run[0]).current != i && Wakes(Step(m, run[0]), run[1..], i))
  }

  /** While a task waits, nothing of it changes. */
  lemma SleepKeeps(m: Machine, e: Event, i: nat)
    requires Isolated(m) && Legal(m, e) && i < MAX_TASKS && m.tasks[i].status == Ready
    requires Step(m, e).current != i
    ensures Step(m, e).tasks[i] == m.tasks[i] && SameStack(m.tasks[i], m.mem, Step(m, e).mem)
  {
    hide Tick, Create, NextReady, StackOk, StacksApart, Parked, InStack;
    match e {
      case Timer(ra) =>
        if Moves(m) {
          TickIs(m, ra);
          ApartIn(m, m.current, i);
          ForeignWrite(m.tasks[m.current], m.tasks[i], m.mem, m.cpu.rsp - 8, ra);
        } else {
          TickStays(m, ra);
          TickOutline(m, ra);
          TickOthers(m, ra, i);
        }
      case NewTask(code) => CreateSpares(m, code, i);
      case _ =>
    }
  }

  lemma TickOthers(m: Machine, ra: nat, i: nat)
    requires Formed(m) && !Moves(m) && i < MAX_TASKS && i != m.current
    ensures Tick(m, ra).tasks[i] == m.tasks[i]
  {
    hide ReadyFrom;
    SearchSeesStatus(m.tasks, Counted(m).tasks, if m.current + 1 == MAX_TASKS then 0 else m.current + 1, 0);
  }

  lemma CreateSpares(m: Machine, code: Code, i: nat)
    requires Isolated(m) && i < MAX_TASKS && m.tasks[i].status == Ready
    ensures var r := Create(m, code).1;
            r.tasks[i] == m.tasks[i] && SameStack(m.tasks[i], m.mem, r.mem)
  {
    hide Create, StackOk, StacksApart, Parked, SameStack;
    var (id, r) := Create(m, code);
    CreateOutline(m, code);
    CreateNext(m, code);
    if id != -1 {
      CreateIs(m, code);
    }
    StacksKept(m, r, FreeSlot(m.tasks, 0), First(code));
  }

  lemma SameStackChains(t: Task, u: Task, a: map<nat, nat>, b: map<nat, nat>, c: map<nat, nat>)
    requires t.stackTop == u.stackTop && SameStack(t, a, b) && SameStack(u, b, c)
    ensures SameStack(t, a, c)
  {
  }

  lemma Wake(m: Machine, e: Event, i: nat)
    requires Isolated(m) && i < MAX_TASKS && m.tasks[i].status == Ready && Step(m, e).current == i
    ensures Step(m, e).cpu == Returned(m.tasks[i].ctx) && SameStack(m.tasks[i], m.mem, Step(m, e).mem)
    ensures Step(m, e).tasks[i].stackTop == m.tasks[i].stackTop
  {
    hide Tick, Create, NextReady, StackOk, StacksApart, Parked, InStack;
    if e.Timer? {
      TickOutline(m, e.ra);
      TickIs(m, e.ra);
      ApartIn(m, m.current, i);
      ForeignWrite(m.tasks[m.current], m.tasks[i], m.mem, m.cpu.rsp - 8, e.ra);
    }
  }

  /** However long it waits, a READY task wakes with the context it was left with, its stack untouched. */
  lemma {:induction false} SleeperWakes(m: Machine, run: seq<Event>, i: nat)
    requires Formed(m) && Isolated(m) && LegalRun(m, run) && i < MAX_TASKS && m.tasks[i].status == Ready && Wakes(m, run, i)
    ensures After(m, run).cpu == Returned(m.tasks[i].ctx) && SameStack(m.tasks[i], m.mem, After(m, run).mem)
    decreases |run|
  {
    hide Step, Isolated, Legal, SameStack;
    var r := Step(m, run[0]);
    if |run| == 1 {
      Wake(m, run[0], i);
      assert After(r, run[1..]) == r;
    } else {
      SleepKeeps(m, run[0], i);
      StepKeeps(m, run[0]);
      SleeperWakes(r, run[1..], i);
      SameStackChains(m.tasks[i], r.tasks[i], m.mem, r.mem, After(m, run).mem);
    }
  }

  /** A task that a tick switched away finds, when its turn comes again, every register as it was before
      the call of `context_switch`, the stack pointer included; it continues after that call, and no word
      of its stack at or above the stack pointer has changed. */
  lemma Transparent(m: Machine, ra: nat, run: seq<Event>)
    requires Isolated(m) && Moves(m) && LegalRun(Tick(m, ra), run) && Wakes(Tick(m, ra), run, m.current)
    ensures var r := After(Tick(m, ra), run);
            && r.cpu == m.cpu.(rip := ra)
            && forall a: nat :: InStack(m.tasks[m.current], a) && a >= m.cpu.rsp ==>
                 (a in m.mem <==> a in r.mem) && (a in m.mem ==> m.mem[a] == r.mem[a])
  {
    hide Tick, NextReady, Stacks, After, LegalRun, Wakes, InStack;
    var o, t := m.current, Tick(m, ra);
    TickIs(m, ra);
    TickKeeps(m, ra);
    SleeperWakes(t, run, o);
    assert t.tasks[o].ctx == Saved(m.cpu, ra);
    SameFrom(m, t, After(t, run), ra);
  }

  lemma SameFrom(m: Machine, t: Machine, r: Machine, ra: nat)
    requires Formed(m) && m.current >= 0 && m.cpu.rsp >= 8 && t.mem == m.mem[m.cpu.rsp - 8 := ra]
    requires |t.tasks| == MAX_TASKS && t.tasks[m.current].stackTop == m.tasks[m.current].stackTop
    requires SameStack(t.tasks[m.current], t.mem, r.mem)
    ensures forall a: nat :: InStack(m.tasks[m.current], a) && a >= m.cpu.rsp ==>
              (a in m.mem <==> a in r.mem) && (a in m.mem ==> m.mem[a] == r.mem[a])
  {
  }

  /** A task created while others run starts at its first instruction, on top of its own empty stack. */
  lemma FreshStart(m: Machine, code: Code, run: seq<Event>)
    requires Isolated(m) && Create(m, code).0 != -1
    requires LegalRun(Create(m, code).1, run) && Wakes(Create(m, code).1, run, FreeSlot(m.tasks, 0))
    ensures var top := Create(m, code).1.tasks[FreeSlot(m.tasks, 0)].stackTop;
            && top >= 8 && top == (m.next + 4) * PAGE
            && After(Create(m, code).1, run).cpu == Fresh(top, code).(rsp := top)
  {
    hide Create, After, LegalRun, Wakes;
    CreateIs(m, code);
    CreateKeeps(m, code);
    SleeperWakes(Create(m, code).1, run, FreeSlot(m.tasks, 0));
  }

  // ---- from boot ----

  /** Before the start, with the tasks of `codes` created: they sit in the first slots, in order, each parked
      at its own first instruction; nothing runs, and hardly a page is gone. */
  ghost predicate Booted(m: Machine, codes: seq<Code>) {
    && Formed(m) && m.current == -1 && Stacks(m) && m.next <= FIRST_PAGE + 5 * MAX_TASKS
    && (|codes| < MAX_TASKS ==> m.next <= FIRST_PAGE + 5 * |codes|)
    && forall i :: 0 <= i < MAX_TASKS ==>
         && m.tasks[i].ticks == 0
         && (i < |codes| ==>
               m.tasks[i].status == Ready && m.tasks[i].stackTop >= 8 && m.tasks[i].ctx == Fresh(m.tasks[i].stackTop, codes[i]))
         && (i >= |codes| ==> m.tasks[i].status == Unused)
  }

  function Created(m: Machine, codes: seq<Code>): (r: Machine)
    requires Formed(m)
    ensures Formed(r)
    decreases |codes|
  {
    if codes == [] then m else Created(Create(m, codes[0]).1, codes[1..])
  }

  /** The machine `pmm_init` and `scheduler_init` leave. */
  function Initial(cpu: Context, mem: map<nat, nat>): (m: Machine)
    ensures Formed(m)
  {
    Machine(seq(MAX_TASKS, _ => NO_TASK), -1, 0, 0, cpu, mem, FIRST_PAGE)
  }

  lemma CreateSucceeds(m: Machine, code: Code)
    requires Formed(m) && FreeSlot(m.tasks, 0) >= 0 && FIRST_PAGE <= m.next && m.next + 5 <= TOTAL_PAGES
    ensures Create(m, code).0 != -1 && Create(m, code).1.next <= m.next + 5
    ensures Create(m, code).1.tasks[FreeSlot(m.tasks, 0)].ticks == 0
  {
    hide AllocStack;
    StackIsFourPages(m.next);
  }

  lemma NextSlot(m: Machine, done: seq<Code>)
    requires Formed(m) && forall i :: 0 <= i < MAX_TASKS ==> (m.tasks[i].status == if i < |done| then Ready else Unused)
    ensures FreeSlot(m.tasks, 0) == if |done| < MAX_TASKS then |done| else -1
  {
    hide FreeSlot;
    var s := FreeSlot(m.tasks, 0);
    if s >= 0 {
      assert Vacant(m.tasks[s]);
    }
    if |done| < MAX_TASKS {
      assert Vacant(m.tasks[|done|]);
    }
  }

  lemma CreateKeepsBooted(m: Machine, done: seq<Code>, code: Code)
    requires Booted(m, done)
    ensures Booted(Create(m, code).1, done + [code])
  {
    hide Create, Stacks, FreeSlot;
    CreateKeepsStacks(m, code);
    CreateOutline(m, code);
    BootPages(m);
    NextSlot(m, done);
    if |done| < MAX_TASKS {
      CreateSucceeds(m, code);
      CreateIs(m, code);
    } else {
      FullTable(m, code);
    }
  }

  lemma FullTable(m: Machine, code: Code)
    requires FreeSlot(m.tasks, 0) == -1
    ensures Create(m, code) == (-1, m)
  {
  }

  lemma BootPages(m: Machine)
    requires Stacks(m)
    ensures FIRST_PAGE <= m.next <= TOTAL_PAGES
  {
  }

  lemma {:induction false} CreatedBooted(m: Machine, done: seq<Code>, codes: seq<Code>)
    requires Formed(m) && Booted(m, done)
    ensures Booted(Created(m, codes), done + codes)
    decreases |codes|
  {
    hide Booted, Create;
    if codes == [] {
      assert done + codes == done;
    } else {
      CreateKeepsBooted(m, done, codes[0]);
      CreatedBooted(Create(m, codes[0]).1, done + [codes[0]], codes[1..]);
      assert done + [codes[0]] + codes[1..] == done + codes;
    }
  }

  /** However many tasks are created at boot, the first eight get their slots, in order. */
  lemma BootedByCreating(cpu: Context, mem: map<nat, nat>, codes: seq<Code>)
    ensures Booted(Created(Initial(cpu, mem), codes), codes)
  {
    hide Created;
    assert Booted(Initial(cpu, mem), []);
    CreatedBooted(Initial(cpu, mem), [], codes);
    assert [] + codes == codes;
  }

  /** `scheduler_start_first_task` enters the task created first, at the first instruction its creator gave,
      on its own stack; the others are still parked at theirs. */
  lemma StartEnters(m: Machine, codes: seq<Code>)
    requires Booted(m, codes) && codes != []
    ensures Start(m).0 && Isolated(Start(m).1)
    ensures var r := Start(m).1;
            && r.current == 0 && m.tasks[0].stackTop >= 8 && r.cpu == Fresh(m.tasks[0].stackTop, codes[0])
            && forall i :: 0 < i < MAX_TASKS ==> r.tasks[i] == m.tasks[i]
  {
    hide StacksApart, InStack;
    StartSafe(m);
    assert m.tasks[0].status == Ready;
    var r := Start(m).1;
    assert FirstReady(m.tasks, 0) == 0;
    StacksMoved(m, r);
    assert Active(r.tasks[0]);
    FirstOnStack(r.tasks[0], m.next, r.cpu, codes[0]);
  }

  lemma FirstOnStack(t: Task, next: nat, cpu: Context, code: Code)
    requires StackOk(t, next) && t.stackTop >= 8 && cpu == Fresh(t.stackTop, code)
    ensures OnStack(t, cpu)
  {
  }

  /** From `pmm_init` and `scheduler_init`: any tasks are created, the scheduler starts, and anything legal
      happens. One task runs, on its own stack, and all others are parked on theirs. */
  lemma FromBoot(cpu: Context, mem: map<nat, nat>, codes: seq<Code>, run: seq<Event>)
    requires codes != [] && LegalRun(Start(Created(Initial(cpu, mem), codes)).1, run)
    ensures Start(Created(Initial(cpu, mem), codes)).0
    ensures Isolated(After(Start(Created(Initial(cpu, mem), codes)).1, run))
  {
    hide Start, Created, After, LegalRun, Isolated;
    BootedByCreating(cpu, mem, codes);
    StartEnters(Created(Initial(cpu, mem), codes), codes);
    RunKeeps(Start(Created(Initial(cpu, mem), codes)).1, run);
  }

  /** The task created first starts at the first instruction its creator gave it, one word below the top of
      its stack. */
  lemma FirstBootTask(cpu: Context, mem: map<nat, nat>, codes: seq<Code>)
    requires codes != []
    ensures var m := Created(Initial(cpu, mem), codes);
            && Start(m).0 && m.tasks[0].stackTop >= 8
            && Start(m).1.cpu.rip == First(codes[0]) && Start(m).1.cpu.rsp == m.tasks[0].stackTop - 8
  {
    hide Start, Created, Isolated;
    BootedByCreating(cpu, mem, codes);
    StartEnters(Created(Initial(cpu, mem), codes), codes);
  }

  /** Every other task created at boot starts, when its turn comes, at the first instruction its own creator
      gave it, on top of its stack. */
  lemma LaterBootTask(cpu: Context, mem: map<nat, nat>, codes: seq<Code>, run: seq<Event>, i: nat)
    requires 0 < i < |codes| && i < MAX_TASKS
    requires LegalRun(Start(Created(Initial(cpu, mem), codes)).1, run) && Wakes(Start(Created(Initial(cpu, mem), codes)).1, run, i)
    ensures var m := Created(Initial(cpu, mem), codes);
            && m.tasks[i].stackTop >= 8
            && After(Start(m).1, run).cpu == Fresh(m.tasks[i].stackTop, codes[i]).(rsp := m.tasks[i].stackTop)
  {
    hide Start, Created, After, LegalRun, Wakes, Isolated;
    BootedByCreating(cpu, mem, codes);
    StartEnters(Created(Initial(cpu, mem), codes), codes);
    SleeperWakes(Start(Created(Initial(cpu, mem), codes)).1, run, i);
  }

  /** Nothing in this kernel ticks before the start. If a caller did: one task created, one tick, a start, a
      second task created and one tick more make two slots RUNNING. */
  lemma TwoRunning(cpu: Context, mem: map<nat, nat>, a: Code, b: Code, ra: nat, rb: nat)
    ensures var started := Start(Tick(Created(Initial(cpu, mem), [a]), ra));
            && !started.0 && Create(started.1, b).0 != -1
            && var r := Tick(Create(started.1, b).1, rb);
               r.tasks[0].status == Running && r.tasks[1].status == Running
  {
    hide Tick, Start, Create, Created, Stacks, NextReady, FreeSlot;
    var m := Created(Initial(cpu, mem), [a]);
    BootedByCreating(cpu, mem, [a]);
    BootPages(m);
    TickOutline(m, ra);
    var t := Tick(m, ra);
    NearestInTurn(m.tasks, m.current, 0);
    EarlyTick(m, ra);
    var s := FailedStart(t);
    FreeIsOne(s);
    CreateSucceeds(s, b);
    CreateOutline(s, b);
    var c := Create(s, b).1;
    CreatedReady(s, b);
    StrayRunning(c, rb, 0);
    TickOutline(c, rb);
    NearestInTurn(c.tasks, c.current, 1);
  }

  lemma FailedStart(t: Machine) returns (s: Machine)
    requires Formed(t) && !Start(t).0
    ensures s == Start(t).1 == t.(current := -1)
  {
    s := Start(t).1;
  }

  lemma FreeIsOne(s: Machine)
    requires Formed(s) && s.tasks[0].status == Running && s.tasks[1].status == Unused
    ensures FreeSlot(s.tasks, 0) == 1
  {
    assert !Vacant(s.tasks[0]) && Vacant(s.tasks[1]);
  }

  lemma CreatedReady(s: Machine, b: Code)
    requires Formed(s) && FIRST_PAGE <= s.next && s.next + 5 <= TOTAL_PAGES && FreeSlot(s.tasks, 0) == 1
    ensures Create(s, b).1.tasks[1].status == Ready
  {
    hide AllocStack;
    StackIsFourPages(s.next);
  }
}
