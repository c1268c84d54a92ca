/** What round robin promises over whole runs: one running task, bounded waiting and balanced tick counts. */
module Scheduling {
  import opened Memory
  import opened Scheduler

  /** One event: a timer tick or yield, a task creation, a page taken by other kernel code, or the
      running code changing registers and memory. */
  datatype Event = Timer(ra: nat) | NewTask(code: Code) | TakePage | Work(cpu: Context, mem: map<nat, nat>)

  function Step(m: Machine, e: Event): (r: Machine)
    requires Formed(m)
    ensures Formed(r)
  {
    match e
    case Timer(ra) => Tick(m, ra)
    case NewTask(code) => Create(m, code).1
    case TakePage => m.(next := AllocPage(m.next).1)
    case Work(cpu, mem) => m.(cpu := cpu, mem := mem)
  }

  function After(m: Machine, run: seq<Event>): (r: Machine)
    requires Formed(m)
    ensures Formed(r)
    decreases |run|
  {
    if run == [] then m else After(Step(m, run[0]), run[1..])
  }

  function Timers(run: seq<Event>): (n: nat) {
    if run == [] then 0 else (if run[0].Timer? then 1 else 0) + Timers(run[1..])
  }

  // ---- the search ----

  /** How many places after `c` slot `s` comes, going round; `MAX_TASKS` for `c` itself. */
  function Distance(c: int, s: nat): (d: int)
    requires -1 <= c < MAX_TASKS && s < MAX_TASKS
    ensures 1 <= d <= MAX_TASKS
  {
    if s > c then s - c else s + MAX_TASKS - c
  }

  lemma {:induction false} ReadyFromIsNearest(tasks: seq<Task>, c: int, i: nat, s: nat)
    requires |tasks| == MAX_TASKS && -1 <= c < MAX_TASKS && s < MAX_TASKS && i < Distance(c, s)
    requires tasks[s].status == Ready
    ensures var n := ReadyFrom(tasks, if c + 1 == MAX_TASKS then 0 else c + 1, i);
            n >= 0 && Distance(c, n) <= Distance(c, s)
    decreases MAX_TASKS - i
  {
    var start := if c + 1 == MAX_TASKS then 0 else c + 1;
    if tasks[Slot(start, i)].status != Ready {
      assert s == Slot(start, Distance(c, s) - 1);
      ReadyFromIsNearest(tasks, c, i + 1, s);
    }
  }

  /** The search finds the READY slot that comes first in turn, and fails only if there is none. */
  lemma NearestInTurn(tasks: seq<Task>, c: int, s: nat)
    requires |tasks| == MAX_TASKS && -1 <= c < MAX_TASKS && s < MAX_TASKS
    requires tasks[s].status == Ready
    ensures NextReady(tasks, c) >= 0 && Distance(c, NextReady(tasks, c)) <= Distance(c, s)
  {
    hide ReadyFrom;
    ReadyFromIsNearest(tasks, c, 0, s);
  }

  lemma {:induction false} SearchSeesStatus(a: seq<Task>, b: seq<Task>, start: nat, i: nat)
    requires |a| == |b| == MAX_TASKS && start < MAX_TASKS && i <= MAX_TASKS
    requires forall j :: 0 <= j < MAX_TASKS ==> a[j].status == b[j].status
    ensures ReadyFrom(a, start, i) == ReadyFrom(b, start, i)
    decreases MAX_TASKS - i
  {
    if i < MAX_TASKS {
      SearchSeesStatus(a, b, start, i + 1);
    }
  }

  // ---- one tick ----

  predicate Moves(m: Machine)
    requires Formed(m)
  {
    NextReady(m.tasks, m.current) != -1 && NextReady(m.tasks, m.current) != m.current
  }

  /** What a tick does to the scheduler's own fields. */
  lemma TickOutline(m: Machine, ra: nat)
    requires Formed(m)
    ensures var (r, n) := (Tick(m, ra), NextReady(m.tasks, m.current));
            && r.current == (if Moves(m) then n else m.current)
            && r.tss == (if Moves(m) then m.tasks[n].stackTop else m.tss)
            && r.nextId == m.nextId && r.next == m.next
            && forall i :: 0 <= i < MAX_TASKS ==>
                 && r.tasks[i].stackTop == m.tasks[i].stackTop
                 && r.tasks[i].ticks == m.tasks[i].ticks + (if i == m.current then 1 else 0)
                 && r.tasks[i].status == (if !Moves(m) then m.tasks[i].status
                                          else if i == n then Running
                                          else if i == m.current then Ready
                                          else m.tasks[i].status)
  {
    hide ReadyFrom;
    SearchSeesStatus(m.tasks, Counted(m).tasks, if m.current + 1 == MAX_TASKS then 0 else m.current + 1, 0);
  }

  // ---- one running task ----

  /** Exactly one slot is RUNNING, it is the current one, and interrupts use its stack. */
  ghost predicate Safe(m: Machine) {
    && Formed(m) && m.current >= 0
    && (forall i :: 0 <= i < MAX_TASKS ==> (m.tasks[i].status == Running <==> i == m.current))
    && m.tss == m.tasks[m.current].stackTop
  }

  /** Creating a task touches one vacant slot only, and leaves it vacant or READY. */
  lemma CreateOutline(m: Machine, code: Code)
    requires Formed(m)
    ensures var (id, r) := Create(m, code);
            && r.tss == m.tss && r.cpu == m.cpu
            && (forall i :: 0 <= i < MAX_TASKS && r.tasks[i] != m.tasks[i] ==>
                  i == FreeSlot(m.tasks, 0) && (r.tasks[i].status == Ready <==> id != -1) && (id == -1 ==> r.tasks[i].status == Unused))
            && (id == -1 ==> r.mem == m.mem)
  {
    hide AllocStack;
  }

  /** Whatever happened before, a start that finds a READY slot leaves exactly one task running. */
  lemma StartSafe(m: Machine)
    requires Formed(m)
    ensures Start(m).0 <==> exists i :: 0 <= i < MAX_TASKS && m.tasks[i].status == Ready
    ensures Start(m).0 ==> Safe(Start(m).1)
  {
  }

  lemma StepSafe(m: Machine, e: Event)
    requires Safe(m)
    ensures Safe(Step(m, e))
  {
    hide Tick, Create, NextReady;
    match e {
      case Timer(ra) => TickOutline(m, ra);
      case NewTask(code) => CreateOutline(m, code);
      case _ =>
    }
  }

  lemma {:induction false} RunSafe(m: Machine, run: seq<Event>)
    requires Safe(m)
    ensures Safe(After(m, run))
    decreases |run|
  {
    hide Step;
    if run != [] {
      StepSafe(m, run[0]);
      RunSafe(Step(m, run[0]), run[1..]);
    }
  }

  /** After a successful start, whatever ran before it and whatever runs after it. */
  lemma OneRunning(m: Machine, run: seq<Event>)
    requires Formed(m) && exists i :: 0 <= i < MAX_TASKS && m.tasks[i].status == Ready
    ensures Safe(After(Start(m).1, run))
  {
    hide Start, After;
    StartSafe(m);
    RunSafe(Start(m).1, run);
  }

  /** A tick before the start takes a READY task away: the start then succeeds only if another is left. */
  lemma EarlyTick(m: Machine, ra: nat)
    requires Formed(m) && m.current == -1
    ensures Start(Tick(m, ra)).0 <==>
            exists i, j :: 0 <= i < j < MAX_TASKS && m.tasks[i].status == Ready && m.tasks[j].status == Ready
  {
    hide Tick, NextReady, Start;
    var n, r := NextReady(m.tasks, m.current), Tick(m, ra);
    TickOutline(m, ra);
    StartSafe(r);
    if i :| 0 <= i < MAX_TASKS && m.tasks[i].status == Ready {
      NearestInTurn(m.tasks, m.current, i);
      if i != n {
        assert r.tasks[i].status == Ready;
        assert m.tasks[if i < n then i else n].status == Ready && m.tasks[if i < n then n else i].status == Ready;
      }
    }
    if i, j :| 0 <= i < j < MAX_TASKS && m.tasks[i].status == Ready && m.tasks[j].status == Ready {
      assert r.tasks[if i == n then j else i].status == Ready;
    }
    if i :| 0 <= i < MAX_TASKS && r.tasks[i].status == Ready {
      assert m.tasks[i].status == Ready && i != n && m.tasks[n].status == Ready;
      assert m.tasks[if i < n then i else n].status == Ready && m.tasks[if i < n then n else i].status == Ready;
    }
  }

  lemma {:induction false} MoreTicks(m: Machine, run: seq<Event>)
    requires Formed(m) && Safe(m) && forall i :: 0 <= i < |run| ==> run[i].Timer?
    ensures Safe(After(m, run))
    ensures AnyReady(After(m, run)) <==> AnyReady(m)
    decreases |run|
  {
    hide Tick, Safe, AnyReady;
    if run != [] {
      StepSafe(m, run[0]);
      TickKeepsReady(m, run[0].ra);
      MoreTicks(Tick(m, run[0].ra), run[1..]);
    }
  }

  ghost predicate AnyReady(m: Machine) {
    exists i :: 0 <= i < |m.tasks| && m.tasks[i].status == Ready
  }

  lemma TickKeepsReady(m: Machine, ra: nat)
    requires Safe(m)
    ensures AnyReady(Tick(m, ra)) <==> AnyReady(m)
  {
    hide Tick, NextReady;
    var r := Tick(m, ra);
    TickOutline(m, ra);
    if Moves(m) {
      assert r.tasks[m.current].status == Ready;
    } else {
      if i :| 0 <= i < MAX_TASKS && r.tasks[i].status == Ready {
        assert m.tasks[i].status == Ready;
      }
      if i :| 0 <= i < MAX_TASKS && m.tasks[i].status == Ready {
        assert r.tasks[i].status == Ready;
      }
    }
  }

  /** However many ticks come before the start, it succeeds exactly when at least two slots were READY. */
  lemma EarlyTicks(m: Machine, ra: nat, run: seq<Event>)
    requires Formed(m) && m.current == -1 && forall i :: 0 <= i < MAX_TASKS ==> m.tasks[i].status != Running
    requires forall i :: 0 <= i < |run| ==> run[i].Timer?
    ensures Start(After(Tick(m, ra), run)).0 <==>
            exists i, j :: 0 <= i < j < MAX_TASKS && m.tasks[i].status == Ready && m.tasks[j].status == Ready
  {
    hide Tick, NextReady, Start;
    EarlyTick(m, ra);
    StartSafe(Tick(m, ra));
    StartSafe(After(Tick(m, ra), run));
    TickOutline(m, ra);
    if Moves(m) {
      MoreTicks(Tick(m, ra), run);
    } else {
      forall i | 0 <= i < MAX_TASKS
        ensures m.tasks[i].status != Ready
      {
        if m.tasks[i].status == Ready {
          NearestInTurn(m.tasks, m.current, i);
        }
      }
      IdleTicks(Tick(m, ra), run);
    }
  }

  /** With no task READY and none current, ticks change nothing that matters. */
  lemma {:induction false} IdleTicks(m: Machine, run: seq<Event>)
    requires Formed(m) && m.current == -1 && !AnyReady(m) && forall i :: 0 <= i < |run| ==> run[i].Timer?
    ensures !AnyReady(After(m, run))
    decreases |run|
  {
    hide Tick, NextReady;
    if run != [] {
      TickOutline(m, run[0].ra);
      IdleTicks(Tick(m, run[0].ra), run[1..]);
    }
  }

  /** After such a failed start the task stays RUNNING with no current task; the next tick makes two RUNNING
      slots exactly when a slot is READY. */
  lemma StrayRunning(m: Machine, ra: nat, stray: nat)
    requires Formed(m) && m.current == -1 && stray < MAX_TASKS
    requires forall i :: 0 <= i < MAX_TASKS ==> (m.tasks[i].status == Running <==> i == stray)
    ensures Tick(m, ra).tasks[stray].status == Running
    ensures (exists i :: 0 <= i < MAX_TASKS && i != stray && Tick(m, ra).tasks[i].status == Running)
            <==> exists s :: 0 <= s < MAX_TASKS && m.tasks[s].status == Ready
  {
    hide Tick, NextReady;
    TickOutline(m, ra);
    if s :| 0 <= s < MAX_TASKS && m.tasks[s].status == Ready {
      NearestInTurn(m.tasks, m.current, s);
      assert Tick(m, ra).tasks[NextReady(m.tasks, m.current)].status == Running;
    }
  }

  // ---- bounded waiting ----

  /** Every tick brings a waiting task's turn closer, if it does not make it the current one. */
  lemma TickAdvances(m: Machine, ra: nat, s: nat)
    requires Safe(m) && s < MAX_TASKS && m.tasks[s].status == Ready
    ensures var r := Tick(m, ra);
            || r.current == s
            || (r.current >= 0 && r.tasks[s].status == Ready && Distance(r.current, s) < Distance(m.current, s))
  {
    hide Tick, NextReady;
    TickOutline(m, ra);
    NearestInTurn(m.tasks, m.current, s);
  }

  lemma StepWaits(m: Machine, e: Event, s: nat)
    requires Safe(m) && s < MAX_TASKS && m.tasks[s].status == Ready
    ensures var r := Step(m, e);
            || r.current == s
            || (r.tasks[s].status == Ready && r.current >= 0
                && Distance(r.current, s) + (if e.Timer? then 1 else 0) <= Distance(m.current, s))
  {
    hide Tick, Create;
    match e {
      case Timer(ra) => TickAdvances(m, ra, s);
      case NewTask(code) => CreateOutline(m, code);
      case _ =>
    }
  }

  /** A READY task becomes current within as many ticks as it is places away, at most seven, whatever
      else happens, task creations included. */
  lemma {:induction false} BoundedWaiting(m: Machine, run: seq<Event>, s: nat)
    requires Safe(m) && s < MAX_TASKS && m.tasks[s].status == Ready
    requires Timers(run) >= Distance(m.current, s)
    ensures Distance(m.current, s) <= MAX_TASKS - 1
    ensures exists k :: 0 <= k <= |run| && After(m, run[..k]).current == s && Timers(run[..k]) <= Distance(m.current, s)
    decreases |run|
  {
    hide Step, Safe;
    SafeCurrent(m, s);
    assert run != [];
    var r := Step(m, run[0]);
    StepWaits(m, run[0], s);
    StepSafe(m, run[0]);
    if r.current == s {
      assert run[..1] == [run[0]];
      ServedNow(m, run, s);
    } else {
      BoundedWaiting(r, run[1..], s);
      var k :| 0 <= k <= |run[1..]| && After(r, run[1..][..k]).current == s && Timers(run[1..][..k]) <= Distance(r.current, s);
      ServedLater(m, run, s, k);
    }
  }

  lemma SafeCurrent(m: Machine, s: nat)
    requires Safe(m) && s < MAX_TASKS && m.tasks[s].status == Ready
    ensures Formed(m) && 0 <= m.current != s && Distance(m.current, s) < MAX_TASKS
  {
  }

  lemma ServedNow(m: Machine, run: seq<Event>, s: nat)
    requires Formed(m) && run != [] && Step(m, run[0]).current == s
    ensures After(m, run[..1]).current == s && Timers(run[..1]) <= 1
  {
    hide Step;
    assert run[..1] == [run[0]] && run[..1][1..] == [];
    assert After(m, run[..1]) == After(Step(m, run[0]), []);
  }

  lemma ServedLater(m: Machine, run: seq<Event>, s: nat, k: nat)
    requires Formed(m) && run != [] && k <= |run| - 1
    ensures After(m, run[..k + 1]) == After(Step(m, run[0]), run[1..][..k])
    ensures Timers(run[..k + 1]) == (if run[0].Timer? then 1 else 0) + Timers(run[1..][..k])
  {
    hide Step;
    assert run[..k + 1][1..] == run[1..][..k] && run[..k + 1][0] == run[0];
  }

  /** The bound is met exactly when every other slot is taken: each tick then moves on by one slot. */
  lemma FullTableMovesByOne(m: Machine, ra: nat)
    requires Safe(m) && forall i :: 0 <= i < MAX_TASKS && i != m.current ==> m.tasks[i].status == Ready
    ensures var r := Tick(m, ra);
            && r.current == (m.current + 1) % MAX_TASKS
            && forall i :: 0 <= i < MAX_TASKS && i != r.current ==> r.tasks[i].status == Ready
  {
    hide Tick, NextReady;
    TickOutline(m, ra);
    var s := if m.current + 1 == MAX_TASKS then 0 else m.current + 1;
    NearestInTurn(m.tasks, m.current, s);
    assert Distance(m.current, s) == 1;
  }

  // ---- tick balance ----

  predicate Active(t: Task) {
    t.status == Ready || t.status == Running
  }

  /** Tasks before the current slot are one tick ahead of the rest. */
  ghost predicate Balanced(tasks: seq<Task>, current: int, q: nat) {
    forall i :: 0 <= i < |tasks| && Active(tasks[i]) ==> tasks[i].ticks == q + (if i < current then 1 else 0)
  }

  ghost predicate Even(m: Machine) {
    exists q: nat :: Balanced(m.tasks, m.current, q)
  }

  function TickSum(tasks: seq<Task>): (n: nat) {
    if tasks == [] then 0 else tasks[0].ticks + TickSum(tasks[1..])
  }

  lemma {:induction false} SumAfterTick(a: seq<Task>, b: seq<Task>, c: int)
    requires |a| == |b| && c < |a|
    requires forall i :: 0 <= i < |a| ==> b[i].ticks == a[i].ticks + (if i == c then 1 else 0)
    ensures TickSum(b) == TickSum(a) + (if c >= 0 then 1 else 0)
    decreases |a|
  {
    if a != [] {
      SumAfterTick(a[1..], b[1..], if c == 0 then -1 else c - 1);
    }
  }

  lemma TickKeepsBalance(m: Machine, ra: nat)
    requires Safe(m) && Even(m)
    ensures Even(Tick(m, ra)) && TickSum(Tick(m, ra).tasks) == TickSum(m.tasks) + 1
  {
    hide Tick, NextReady;
    TickOutline(m, ra);
    var r, c := Tick(m, ra), m.current;
    SumAfterTick(m.tasks, r.tasks, c);
    forall i | 0 <= i < MAX_TASKS && m.tasks[i].status == Ready
      ensures Moves(m) && Distance(c, r.current) <= Distance(c, i)
    {
      NearestInTurn(m.tasks, c, i);
    }
    var q: nat :| Balanced(m.tasks, c, q);
    assert Balanced(r.tasks, r.current, if r.current > c then q else q + 1);
  }

  lemma {:induction false} RunKeepsBalance(m: Machine, run: seq<Event>)
    requires Formed(m) && Safe(m) && Even(m) && forall i :: 0 <= i < |run| ==> !run[i].NewTask?
    ensures Even(After(m, run)) && TickSum(After(m, run).tasks) == TickSum(m.tasks) + Timers(run)
    decreases |run|
  {
    hide Tick, Safe, Balanced, TickSum;
    if run != [] {
      StepSafe(m, run[0]);
      if run[0].Timer? {
        TickKeepsBalance(m, run[0].ra);
      }
      RunKeepsBalance(Step(m, run[0]), run[1..]);
    }
  }

  lemma {:induction false} SumOfZeros(tasks: seq<Task>)
    requires forall i :: 0 <= i < |tasks| ==> tasks[i].ticks == 0
    ensures TickSum(tasks) == 0
  {
    if tasks != [] {
      SumOfZeros(tasks[1..]);
    }
  }

  /** No ticks before the start, no creations after it: the counts add up to the number of ticks, and no
      two tasks' counts differ by more than one. */
  lemma TickBalance(m: Machine, run: seq<Event>)
    requires Formed(m) && Start(m).0 && forall i :: 0 <= i < |run| ==> !run[i].NewTask?
    requires forall i :: 0 <= i < MAX_TASKS ==> m.tasks[i].status != Running && m.tasks[i].ticks == 0
    ensures var tasks := After(Start(m).1, run).tasks;
            && TickSum(tasks) == Timers(run)
            && forall i, j :: 0 <= i < MAX_TASKS && 0 <= j < MAX_TASKS && Active(tasks[i]) && Active(tasks[j]) ==>
                 tasks[i].ticks <= tasks[j].ticks + 1
  {
    hide After, TickSum;
    var r := Start(m).1;
    StartSafe(m);
    SumOfZeros(r.tasks);
    assert Balanced(r.tasks, r.current, 0);
    RunKeepsBalance(r, run);
  }

  // ---- what a creation records ----

  /** A creation takes the first slot whose task is unused or dead, and only fails for want of one or of pages;
      the slot records the creator's name, as far as 31 characters, the next id, and for user code its entry. */
  lemma CreateRecords(m: Machine, code: Code)
    requires Formed(m)
    ensures var (id, r) := Create(m, code);
            && ((forall i :: 0 <= i < MAX_TASKS ==> m.tasks[i].status !in {Unused, Dead}) ==> id == -1 && r == m)
            && forall s :: 0 <= s < MAX_TASKS && m.tasks[s].status in {Unused, Dead}
                           && (forall i :: 0 <= i < s ==> m.tasks[i].status !in {Unused, Dead}) ==>
                 var t := r.tasks[s];
                 && r.nextId == m.nextId + 1 && t.id == m.nextId && t.ticks == 0
                 && (id != -1 ==> id == m.nextId)
                 && (if |code.name| <= 31 then t.name == code.name else |t.name| == 31 && t.name <= code.name)
                 && (code.UserCode? ==> t.isUser && t.userEntry == code.entry)
                 && (code.KernelCode? && id != -1 ==> !t.isUser && t.userEntry == 0 && t.userTop == 0 && t.userBottom == 0)
  {
    hide AllocStack;
  }

  /** It succeeds exactly if there is such a slot and four pages are left, five for user code. */
  lemma CreateNeeds(m: Machine, code: Code)
    requires Formed(m) && 512 <= m.next <= 65536
    ensures Create(m, code).0 != -1
            <==> (exists s :: 0 <= s < MAX_TASKS && m.tasks[s].status in {Unused, Dead})
                 && m.next + (if code.UserCode? then 5 else 4) <= 65536
  {
    hide AllocStack;
    StackIsFourPages(m.next);
  }

  /** Creations that succeed one after the other return successive ids. */
  lemma SuccessiveIds(m: Machine, a: Code, b: Code)
    requires Formed(m) && Create(m, a).0 != -1 && Create(Create(m, a).1, b).0 != -1
    ensures Create(m, a).0 == m.nextId && Create(Create(m, a).1, b).0 == m.nextId + 1
  {
    hide AllocStack;
  }

  // ---- what stays as it was ----

  /** A tick allocates nothing and counts no ids; it touches registers and memory only by switching from one
      task to another. */
  lemma TickFrame(m: Machine, ra: nat)
    requires Formed(m)
    ensures var r := Tick(m, ra);
            && r.nextId == m.nextId && r.next == m.next
            && (m.current < 0 || r.current == m.current ==> r.cpu == m.cpu && r.mem == m.mem)
            && forall i :: 0 <= i < MAX_TASKS ==>
                 && r.tasks[i].id == m.tasks[i].id && r.tasks[i].name == m.tasks[i].name && r.tasks[i].isUser == m.tasks[i].isUser
                 && r.tasks[i].stackTop == m.tasks[i].stackTop && r.tasks[i].userEntry == m.tasks[i].userEntry
                 && (i != m.current || r.current == m.current ==> r.tasks[i].ctx == m.tasks[i].ctx)
  {
    hide ReadyFrom;
    SearchSeesStatus(m.tasks, Counted(m).tasks, if m.current + 1 == MAX_TASKS then 0 else m.current + 1, 0);
  }

  /** A start touches neither memory nor ids nor pages, and of the tasks their states only; if it fails, nothing
      but the current task. */
  lemma StartFrame(m: Machine)
    requires Formed(m)
    ensures var (ok, r) := Start(m);
            && r.mem == m.mem && r.nextId == m.nextId && r.next == m.next
            && (!ok ==> r == m.(current := -1))
            && (ok ==> r.cpu == m.tasks[r.current].ctx)
            && forall i :: 0 <= i < MAX_TASKS ==> r.tasks[i] == m.tasks[i].(status := r.tasks[i].status)
  {
  }

  /** A creation touches neither the processor nor the TSS nor the other slots, and of memory one word at most. */
  lemma CreateFrame(m: Machine, code: Code)
    requires Formed(m)
    ensures var (id, r) := Create(m, code);
            && r.cpu == m.cpu && r.current == m.current && r.tss == m.tss
            && (id == -1 ==> r.mem == m.mem)
            && forall i :: 0 <= i < MAX_TASKS && i != FreeSlot(m.tasks, 0) ==> r.tasks[i] == m.tasks[i]
  {
    hide AllocStack, FreeSlot;
  }
}
