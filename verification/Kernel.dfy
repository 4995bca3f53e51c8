// One processor as a state machine: ticks, scheduling, wait queues, semaphores, fork, exit and the disk
// queue. System calls and handlers run with interrupts off, so each event is one step.
module Kernel {
  import opened Common
  import opened Cfs
  import opened Queueing

  const IDLE := 0

  /** The wait queues that sleep_on and wakeup are used with. */
  datatype Channel = Keyboard | ChildExit(parent: nat)

  datatype Machine = Machine(tasks: map<nat, Facts>, parent: map<nat, nat>, cpu: Cpu<nat>,
                             waits: map<Channel, seq<nat>>, semaphores: map<nat, Semaphore<nat>>, disk: Requests<nat>)

  datatype Event =
    | Tick
    | Reschedule
    | SleepOn(c: Channel)
    | InterruptibleSleepOn(c: Channel)
    | Wakeup(c: Channel, mask: set<Status>)
    | Up(s: nat)
    | Down(s: nat)
    | Fork(child: nat)
    | Exit
    | Submit
    | DiskDone

  // ---- the events

  function Fact(k: Machine): Facts
    requires k.cpu.current in k.tasks
  {
    k.tasks[k.cpu.current]
  }

  function WithCurrent(k: Machine, f: Facts): Machine {
    k.(tasks := k.tasks[k.cpu.current := f])
  }

  /** The accounting half of HPET_handler. */
  function Ticked(k: Machine): (r: Machine)
    requires k.cpu.current in k.tasks
    ensures r.tasks.Keys == k.tasks.Keys && r.cpu.slice < k.cpu.slice
  {
    var f := Fact(k);
    var d := if f.priority == 0 || f.priority == 1 then 1 else 2;
    var slice := k.cpu.slice - d;
    WithCurrent(k, f.(vrun := f.vrun + d, need := f.need || slice <= 0)).(cpu := k.cpu.(slice := slice))
  }

  /** schedule(): the flag is cleared, then the next task is chosen. */
  ghost function Rescheduled(k: Machine): (r: Machine)
    requires Scheduling(k)
    ensures r.tasks.Keys == k.tasks.Keys && (r.cpu.slice > k.cpu.slice ==> k.cpu.slice == 0)
  {
    var c := WithCurrent(k, Fact(k).(need := false));
    assert Ready(c.cpu, c.tasks, IDLE) by { SameOrder(k.cpu.queue, k.tasks, c.tasks); }
    c.(cpu := Schedule(c.cpu, c.tasks, IDLE))
  }

  ghost function Blocked(k: Machine, s: Status): (r: Machine)
    requires k.cpu.current in k.tasks
    ensures r.tasks.Keys == k.tasks.Keys && r.cpu == k.cpu
  {
    WithCurrent(k, Fact(k).(status := s))
  }

  /** wakeup_process, and the same three lines in __up and end_request. */
  ghost function Woken(k: Machine, t: nat): (r: Machine)
    requires k.cpu.current in k.tasks && t in k.tasks
    requires forall i :: 0 <= i < |k.cpu.queue| ==> k.cpu.queue[i] in k.tasks
    ensures r.tasks.Keys == k.tasks.Keys && r.cpu.slice == k.cpu.slice
  {
    var tasks := k.tasks[t := k.tasks[t].(status := Running)];
    var cpu := Put(k.cpu, tasks, IDLE, t);
    k.(tasks := tasks[k.cpu.current := tasks[k.cpu.current].(need := true)], cpu := cpu)
  }

  function Waiters(w: map<Channel, seq<nat>>, c: Channel): seq<nat> {
    if c in w then w[c] else []
  }

  ghost function WokenFrom(k: Machine, c: Channel, mask: set<Status>): (r: Machine)
    requires Scheduling(k) && forall i :: 0 <= i < |Waiters(k.waits, c)| ==> Waiters(k.waits, c)[i] in k.tasks
    ensures r.tasks.Keys == k.tasks.Keys && r.cpu.slice == k.cpu.slice
  {
    var w := Waiters(k.waits, c);
    if w == [] || k.tasks[w[0]].status !in mask then k
    else Woken(k.(waits := k.waits[c := w[1..]]), w[0])
  }

  /** When an event can happen: the idle task never blocks or exits, and an interrupt of the disk needs a request. */
  ghost predicate Enabled(k: Machine, e: Event) {
    match e
    case Tick => true
    case Reschedule => true
    case SleepOn(c) => k.cpu.current != IDLE && (c == Keyboard || c == ChildExit(k.cpu.current))
    case InterruptibleSleepOn(c) => k.cpu.current != IDLE && (c == Keyboard || c == ChildExit(k.cpu.current))
    case Wakeup(_, mask) => mask <= {Interruptible, Uninterruptible}
    case Up(s) => s in k.semaphores
    case Down(s) => s in k.semaphores && (k.semaphores[s].counter > 0 || k.cpu.current != IDLE)
    case Fork(child) => child !in k.tasks
    case Exit => k.cpu.current != IDLE && k.cpu.current in k.parent
    case Submit => k.cpu.current != IDLE
    case DiskDone => k.disk.busy.Some?
  }

  // ---- the invariant

  /** What schedule() needs: the queue is in order, and everyone in it is known. */
  ghost predicate Scheduling(k: Machine) {
    Ready(k.cpu, k.tasks, IDLE)
  }

  lemma SameOrder(q: seq<nat>, m: map<nat, Facts>, n: map<nat, Facts>)
    requires Sorted(q, m) && forall i :: 0 <= i < |q| ==> q[i] in n && n[q[i]].vrun == m[q[i]].vrun
    ensures Sorted(q, n)
  {}

  datatype Place = OnCpu | Queued | Sleeping(c: Channel) | OnSemaphore(s: nat) | AtDisk | Dead | Idling

  /** Where a task is that is not to run. */
  ghost predicate OffAt(k: Machine, t: nat, p: Place) {
    match p
    case Sleeping(c) => t in Waiters(k.waits, c)
    case OnSemaphore(s) => s in k.semaphores && t in k.semaphores[s].wait
    case AtDisk => k.disk.busy == Some(t) || t in k.disk.waiting
    case Dead => t in k.tasks && k.tasks[t].status == Zombie
    case _ => false
  }

  ghost predicate At(k: Machine, t: nat, p: Place) {
    match p
    case OnCpu => t == k.cpu.current
    case Queued => t in k.cpu.queue
    case Idling => t == IDLE && t != k.cpu.current
    case _ => OffAt(k, t, p)
  }

  /** h gives the one place of each task that is off the processor. */
  ghost predicate Placed(k: Machine, h: map<nat, Place>) {
    forall t: nat, p: Place :: OffAt(k, t, p) <==> t in h && h[t] == p
  }

  ghost predicate Asleep(k: Machine, ids: set<nat>) {
    forall t: nat :: t in ids <==> t in k.tasks && k.tasks[t].status != Running
  }

  /** Any other task that is to run is in the queue, or is the idle task. */
  ghost predicate Runnable(k: Machine) {
    && IDLE in k.tasks && k.tasks[IDLE].status == Running
    && forall t: nat :: t != k.cpu.current ==>
         (t in k.tasks && k.tasks[t].status == Running <==> t == IDLE || t in k.cpu.queue)
  }

  /** No list holds a task twice, and a task waits for its own children only. */
  ghost predicate Lists(w: map<Channel, seq<nat>>, semaphores: map<nat, Semaphore<nat>>, d: Requests<nat>) {
    && (forall c: Channel :: Distinct(Waiters(w, c)))
    && (forall t: nat, p: nat :: t in Waiters(w, ChildExit(p)) ==> t == p)
    && (forall s :: s in semaphores ==> Distinct(semaphores[s].wait) && Counted(semaphores[s]))
    && Distinct(d.waiting) && (d.busy.Some? ==> d.busy.value !in d.waiting) && InOrder(d)
  }

  ghost predicate Core(k: Machine, h: map<nat, Place>) {
    && Scheduling(k) && Runnable(k) && Placed(k, h) && Asleep(k, h.Keys)
    && Lists(k.waits, k.semaphores, k.disk) && k.cpu.slice <= 12
  }

  /** While nothing asks for a change, the current task leads no queued task by more than it has used of its slice. */
  ghost predicate Lag(k: Machine)
    requires Scheduling(k)
  {
    !k.tasks[k.cpu.current].need ==>
      forall t :: t in k.cpu.queue ==>
        k.tasks[k.cpu.current].vrun <= k.tasks[t].vrun + (if k.cpu.slice > 0 then 12 - k.cpu.slice else 0)
  }

  ghost predicate Whole(k: Machine) {
    && (exists h :: Core(k, h)) && Scheduling(k)
    && k.tasks[k.cpu.current].status == Running && Lag(k)
  }

  // ---- the two building blocks of every event

  /** Changing only vrun, priority or the flag of the current task. */
  lemma CurrentTouched(k: Machine, h: map<nat, Place>, f: Facts)
    requires Core(k, h) && f.status == k.tasks[k.cpu.current].status
    ensures Core(WithCurrent(k, f), h)
  {
    SameOrder(k.cpu.queue, k.tasks, WithCurrent(k, f).tasks);
    SamePlaces(k, WithCurrent(k, f), h);
  }

  lemma SamePlaces(k: Machine, r: Machine, h: map<nat, Place>)
    requires Placed(k, h) && r.waits == k.waits && r.semaphores == k.semaphores && r.disk == k.disk
    requires forall t :: t in r.tasks && r.tasks[t].status == Zombie <==> t in k.tasks && k.tasks[t].status == Zombie
    ensures Placed(r, h)
  {
    forall t: nat, p: Place ensures OffAt(r, t, p) <==> OffAt(k, t, p) {}
  }

  lemma IsWhole(k: Machine, h: map<nat, Place>)
    requires Core(k, h) && k.tasks[k.cpu.current].status == Running && Lag(k)
    ensures Whole(k)
  {}

  /** schedule() leaves a current task that is to run, and has run no longer than any in the queue. */
  lemma RescheduledKeeps(k: Machine, h: map<nat, Place>)
    requires Core(k, h)
    ensures Core(Rescheduled(k), h) && Whole(Rescheduled(k))
  {
    hide Sorted, Distinct, Placed, Lists, OffAt, Schedule;
    var f := Fact(k).(need := false);
    var c, r := WithCurrent(k, f), Rescheduled(k);
    CurrentTouched(k, h, f);
    Chosen(c);
    SamePlaces(c, r, h);
    IsWhole(r, h);
  }

  /** Which task that is, by the time the tasks have run. */
  lemma RescheduledByTime(k: Machine)
    requires Scheduling(k)
    ensures forall t <- k.cpu.queue :: t in k.tasks
    ensures ByTime(k.cpu, k.tasks, IDLE, Rescheduled(k).cpu)
  {
    var c := WithCurrent(k, Fact(k).(need := false));
    SameOrder(k.cpu.queue, k.tasks, c.tasks);
    hide Ready, Schedule;
    ScheduleByTime(c.cpu, c.tasks, IDLE);
  }

  lemma Chosen(c: Machine)
    requires Scheduling(c) && Runnable(c) && c.cpu.slice <= 12
    ensures var r := c.(cpu := Schedule(c.cpu, c.tasks, IDLE));
      Scheduling(r) && Runnable(r) && r.cpu.slice <= 12 && r.tasks[r.cpu.current].status == Running && Lag(r)
  {
    hide Sorted, Distinct, Put;
    ScheduleKeeps(c.cpu, c.tasks, IDLE);
    var r := c.(cpu := Schedule(c.cpu, c.tasks, IDLE));
    ShareBounds(c.tasks[Next(c.cpu, IDLE)].priority, r.cpu.count);
  }

  /** r is k with task t made ready to run: one status, the flag of the current task, and the queue differ. */
  ghost predicate Raised(k: Machine, t: nat, r: Machine)
    requires k.cpu.current in k.tasks
  {
    && Scheduling(r) && r.tasks.Keys == k.tasks.Keys && r.cpu.current == k.cpu.current && r.cpu.slice == k.cpu.slice
    && (forall u: nat :: u in k.tasks ==> r.tasks[u].status == if u == t then Running else k.tasks[u].status)
    && (forall u: nat :: u in r.cpu.queue <==> u in k.cpu.queue || u == t)
    && Fact(r) == Fact(k).(need := true)
    && r.waits == k.waits && r.semaphores == k.semaphores && r.disk == k.disk && r.parent == k.parent
  }

  lemma WokenRaised(k: Machine, t: nat)
    requires Scheduling(k) && t in k.tasks && t !in k.cpu.queue && t != IDLE && t != k.cpu.current
    ensures forall i :: 0 <= i < |k.cpu.queue| ==> k.cpu.queue[i] in k.tasks
    ensures Raised(k, t, Woken(k, t))
  {
    hide Sorted, Distinct;
    Members(k.cpu.queue, k.tasks);
    var tasks := k.tasks[t := k.tasks[t].(status := Running)];
    var r := Woken(k, t);
    SameOrder(k.cpu.queue, k.tasks, tasks);
    PutKeeps(k.cpu, tasks, IDLE, t);
    SameOrder(r.cpu.queue, tasks, r.tasks);
  }

  lemma RaisedKeeps(k: Machine, h: map<nat, Place>, t: nat, r: Machine)
    requires Scheduling(k) && Runnable(k) && Placed(k, h) && Asleep(k, h.Keys + {t}) && t !in h && t != k.cpu.current
    requires Lists(k.waits, k.semaphores, k.disk) && k.cpu.slice <= 12 && Raised(k, t, r)
    ensures Core(r, h) && Lag(r)
  {
    assert t in h.Keys + {t};
    assert !OffAt(k, t, Dead);
    hide Sorted, Distinct, Lists, Ready;
    SamePlaces(k, r, h);
  }

  /** wakeup_process on a task that has been taken off its list: h no longer has it. */
  lemma WokenKeeps(k: Machine, h: map<nat, Place>, t: nat)
    requires Scheduling(k) && Runnable(k) && Placed(k, h) && Asleep(k, h.Keys + {t}) && t !in h && t != k.cpu.current
    requires Lists(k.waits, k.semaphores, k.disk) && k.cpu.slice <= 12
    ensures t in k.tasks && (forall i :: 0 <= i < |k.cpu.queue| ==> k.cpu.queue[i] in k.tasks)
    ensures Core(Woken(k, t), h) && Lag(Woken(k, t)) && Raised(k, t, Woken(k, t))
  {
    assert t in h.Keys + {t};
    WokenRaised(k, t);
    hide Sorted, Distinct, Lists, Ready, Woken, Raised, Placed, Core;
    RaisedKeeps(k, h, t, Woken(k, t));
  }

  /** k1 is k with the current task, now off the processor, on one list more. */
  ghost predicate Joined(k: Machine, k1: Machine, p: Place) {
    && k1.parent == k.parent && k1.cpu == k.cpu && k.cpu.current in k.tasks
    && (exists s :: s != Running && k1.tasks == Blocked(k, s).tasks && (s == Zombie <==> p == Dead))
    && Lists(k1.waits, k1.semaphores, k1.disk)
    && forall t: nat, q: Place :: OffAt(k1, t, q) <==> OffAt(k, t, q) || (t == k.cpu.current && q == p)
  }

  lemma JoinedKeeps(k: Machine, h: map<nat, Place>, k1: Machine, p: Place)
    requires Core(k, h) && k.tasks[k.cpu.current].status == Running && k.cpu.current != IDLE && Joined(k, k1, p)
    ensures Core(k1, h[k.cpu.current := p])
  {
    hide Sorted, Distinct, Lists, OffAt;
    SameOrder(k.cpu.queue, k.tasks, k1.tasks);
  }

  /** k1 is k with task t taken off the one list it is on. */
  ghost predicate Left(k: Machine, k1: Machine, t: nat, p: Place) {
    && k1.tasks == k.tasks && k1.parent == k.parent && k1.cpu == k.cpu
    && Lists(k1.waits, k1.semaphores, k1.disk)
    && forall u: nat, q: Place :: OffAt(k1, u, q) <==> OffAt(k, u, q) && !(u == t && q == p)
  }

  lemma LeftKeeps(k: Machine, h: map<nat, Place>, k1: Machine, t: nat)
    requires Core(k, h) && t in h && Left(k, k1, t, h[t]) && t != k.cpu.current
    ensures t in k1.tasks && Scheduling(k1) && (forall i :: 0 <= i < |k1.cpu.queue| ==> k1.cpu.queue[i] in k1.tasks)
    ensures var r := Woken(k1, t);
      Core(r, h - {t}) && Lag(r) && r.cpu.current == k.cpu.current && Fact(r) == Fact(k).(need := true)
  {
    hide Sorted, Distinct, Lists, OffAt;
    assert (h - {t}).Keys + {t} == h.Keys;
    WokenKeeps(k1, h - {t}, t);
  }

  // ---- each list, when it is joined and when it is left

  function OnChannel(k: Machine, c: Channel): Machine {
    k.(waits := k.waits[c := Waiters(k.waits, c) + [k.cpu.current]])
  }

  function OffChannel(k: Machine, c: Channel): Machine
    requires Waiters(k.waits, c) != []
  {
    k.(waits := k.waits[c := Waiters(k.waits, c)[1..]])
  }

  lemma ChannelGrows(w: map<Channel, seq<nat>>, semaphores: map<nat, Semaphore<nat>>, d: Requests<nat>, c: Channel,
      t: nat)
    requires Lists(w, semaphores, d) && t !in Waiters(w, c) && (c == Keyboard || c == ChildExit(t))
    ensures Lists(w[c := Waiters(w, c) + [t]], semaphores, d)
  {
    hide Counted, InOrder;
    var v := w[c := Waiters(w, c) + [t]];
    forall e: Channel ensures Waiters(v, e) == if e == c then Waiters(w, c) + [t] else Waiters(w, e) {}
  }

  lemma JoinsChannel(k: Machine, h: map<nat, Place>, c: Channel, s: Status)
    requires Core(k, h) && Fact(k).status == Running && (c == Keyboard || c == ChildExit(k.cpu.current))
    requires s == Interruptible || s == Uninterruptible
    ensures Joined(k, OnChannel(Blocked(k, s), c), Sleeping(c))
  {
    var k1 := OnChannel(Blocked(k, s), c);
    assert !OffAt(k, k.cpu.current, Sleeping(c)) && !OffAt(k, k.cpu.current, Dead);
    ChannelGrows(k.waits, k.semaphores, k.disk, c, k.cpu.current);
    hide Placed, Asleep, Runnable, Ready, Core, Lists;
    forall d: Channel
      ensures Waiters(k1.waits, d) == if d == c then Waiters(k.waits, c) + [k.cpu.current] else Waiters(k.waits, d) {}
    assert k1.tasks == Blocked(k, s).tasks;
  }

  lemma LeavesChannel(k: Machine, h: map<nat, Place>, c: Channel)
    requires Core(k, h) && Waiters(k.waits, c) != []
    ensures var t := Waiters(k.waits, c)[0];
      t in h && h[t] == Sleeping(c) && Left(k, OffChannel(k, c), t, Sleeping(c))
  {
    hide Counted, InOrder, Sorted;
    var w := Waiters(k.waits, c);
    var t, k1 := w[0], OffChannel(k, c);
    assert OffAt(k, t, Sleeping(c));
    forall d: Channel ensures Waiters(k1.waits, d) == if d == c then w[1..] else Waiters(k.waits, d) {}
    TailDistinct(w);
  }

  function Asked(k: Machine, s: nat): Machine
    requires s in k.semaphores
  {
    k.(semaphores := k.semaphores[s := Downed(k.semaphores[s], k.cpu.current)])
  }

  function Granted(k: Machine, s: nat): Machine
    requires s in k.semaphores
  {
    k.(semaphores := k.semaphores[s := Upped(k.semaphores[s])])
  }

  lemma JoinsSemaphore(k: Machine, h: map<nat, Place>, s: nat)
    requires Core(k, h) && Fact(k).status == Running && s in k.semaphores && k.semaphores[s].counter == 0
    ensures Joined(k, Asked(Blocked(k, Uninterruptible), s), OnSemaphore(s))
  {
    hide InOrder, Sorted;
    var k1, m := Asked(Blocked(k, Uninterruptible), s), k.semaphores[s];
    assert !OffAt(k, k.cpu.current, OnSemaphore(s)) && !OffAt(k, k.cpu.current, Dead);
    hide Placed, Asleep, Runnable, Ready, Core;
    DownKeepsCount(m, k.cpu.current);
    assert k1.tasks == Blocked(k, Uninterruptible).tasks;
  }

  lemma LeavesSemaphore(k: Machine, h: map<nat, Place>, s: nat)
    requires Core(k, h) && s in k.semaphores && k.semaphores[s].wait != []
    ensures var t := k.semaphores[s].wait[0];
      t in h && h[t] == OnSemaphore(s) && Left(k, Granted(k, s), t, OnSemaphore(s))
  {
    hide InOrder, Sorted;
    var m := k.semaphores[s];
    var t, k1 := m.wait[0], Granted(k, s);
    assert OffAt(k, t, OnSemaphore(s));
    TailDistinct(m.wait);
    UpKeepsCount(m);
  }

  lemma JoinsDisk(k: Machine, h: map<nat, Place>)
    requires Core(k, h) && Fact(k).status == Running
    ensures var b := Blocked(k, Uninterruptible);
      Joined(k, b.(disk := Added(k.disk, k.cpu.current)), AtDisk)
  {
    hide Counted, Sorted;
    var k1 := Blocked(k, Uninterruptible).(disk := Added(k.disk, k.cpu.current));
    assert !OffAt(k, k.cpu.current, AtDisk) && !OffAt(k, k.cpu.current, Dead);
    hide Placed, Asleep, Runnable, Ready, Core;
    assert k1.tasks == Blocked(k, Uninterruptible).tasks;
  }

  lemma LeavesDisk(k: Machine, h: map<nat, Place>)
    requires Core(k, h) && k.disk.busy.Some?
    ensures k.disk.busy.value in h && h[k.disk.busy.value] == AtDisk
    ensures Left(k, k.(disk := Ended(k.disk)), k.disk.busy.value, AtDisk)
  {
    hide Counted, Sorted;
    var d := k.disk;
    assert OffAt(k, d.busy.value, AtDisk);
    if d.waiting != [] { TailDistinct(d.waiting); }
    assert d.waiting != [] ==> d.waiting == [d.waiting[0]] + d.waiting[1..];
  }

  // ---- the transition system

  lemma Listed(k: Machine)
    requires exists h :: Core(k, h)
    ensures forall t: nat, p: Place :: OffAt(k, t, p) ==> t in k.tasks
    ensures forall c: Channel, i :: 0 <= i < |Waiters(k.waits, c)| ==> Waiters(k.waits, c)[i] in k.tasks
    ensures forall s :: s in k.semaphores && k.semaphores[s].wait != [] ==> k.semaphores[s].wait[0] in k.tasks
    ensures k.disk.busy.Some? ==> k.disk.busy.value in k.tasks
    ensures k.disk.count == |k.disk.waiting| && forall i :: 0 <= i < |k.cpu.queue| ==> k.cpu.queue[i] in k.tasks
  {
    hide Counted;
    var h :| Core(k, h);
    forall c: Channel, i | 0 <= i < |Waiters(k.waits, c)| ensures Waiters(k.waits, c)[i] in k.tasks {
      assert OffAt(k, Waiters(k.waits, c)[i], Sleeping(c));
    }
    forall s | s in k.semaphores && k.semaphores[s].wait != [] ensures k.semaphores[s].wait[0] in k.tasks {
      assert OffAt(k, k.semaphores[s].wait[0], OnSemaphore(s));
    }
    if k.disk.busy.Some? { assert OffAt(k, k.disk.busy.value, AtDisk); }
  }

  lemma BlockedSchedules(k: Machine, s: Status)
    requires Scheduling(k)
    ensures Scheduling(Blocked(k, s))
  {
    SameOrder(k.cpu.queue, k.tasks, Blocked(k, s).tasks);
  }

  /** The new task is a copy of the current one, with priority 2 and a wait queue of its own. */
  ghost function Copied(k: Machine, child: nat): Machine
    requires k.cpu.current in k.tasks
  {
    k.(tasks := k.tasks[child := Facts(Fact(k).vrun, 2, Uninterruptible, Fact(k).need)],
       parent := k.parent[child := k.cpu.current], waits := k.waits[ChildExit(child) := []])
  }

  /** sleep_on and interruptible_sleep_on. */
  ghost function SleptOn(k: Machine, c: Channel, how: Status): Machine
    requires Whole(k)
  {
    BlockedSchedules(k, how);
    Rescheduled(OnChannel(Blocked(k, how), c))
  }

  ghost function After(k: Machine, e: Event): Machine
    requires Whole(k) && Enabled(k, e)
  {
    Listed(k);
    BlockedSchedules(k, Uninterruptible);
    match e
    case Tick => Ticked(k)
    case Reschedule => Rescheduled(k)
    case SleepOn(c) => SleptOn(k, c, Uninterruptible)
    case InterruptibleSleepOn(c) => SleptOn(k, c, Interruptible)
    case Wakeup(c, mask) => WokenFrom(k, c, mask)
    case Up(s) =>
      var m := k.semaphores[s];
      if m.wait == [] then Granted(k, s) else Woken(Granted(k, s), m.wait[0])
    case Down(s) =>
      var m := k.semaphores[s];
      if m.counter > 0 then Asked(k, s) else Rescheduled(Asked(Blocked(k, Uninterruptible), s))
    case Fork(child) => Woken(Copied(k, child), child)
    case Exit => Exited(k)
    case Submit => Rescheduled(Blocked(k, Uninterruptible).(disk := Added(k.disk, k.cpu.current)))
    case DiskDone => Woken(k.(disk := Ended(k.disk)), k.disk.busy.value)
  }

  /** do_exit: a zombie is left, its parent is told, and another task runs. */
  ghost function Exited(k: Machine): Machine
    requires Whole(k) && k.cpu.current in k.parent && k.cpu.current != IDLE
  {
    ExitTells(k);
    Rescheduled(WokenFrom(Blocked(k, Zombie), ChildExit(k.parent[k.cpu.current]), {Interruptible}))
  }

  lemma DeadJoins(k: Machine, h: map<nat, Place>)
    requires Core(k, h) && Fact(k).status == Running && k.cpu.current != IDLE
    ensures Core(Blocked(k, Zombie), h[k.cpu.current := Dead])
  {
    var b := Blocked(k, Zombie);
    assert b.tasks == Blocked(k, Zombie).tasks;
    JoinedKeeps(k, h, b, Dead);
  }

  /** wakeup takes the first of a channel, if it sleeps in the way that is asked for. */
  lemma WokenFromKeeps(k: Machine, h: map<nat, Place>, c: Channel, mask: set<Status>)
    requires Core(k, h) && mask <= {Interruptible, Uninterruptible}
    requires Fact(k).status == Running || (k.cpu.current in h && h[k.cpu.current] == Dead)
    ensures forall i :: 0 <= i < |Waiters(k.waits, c)| ==> Waiters(k.waits, c)[i] in k.tasks
    ensures exists g :: Core(WokenFrom(k, c, mask), g)
    ensures var r := WokenFrom(k, c, mask);
      r == k || (r.cpu.current == k.cpu.current && Fact(r) == Fact(k).(need := true) && Lag(r))
  {
    hide Lists, Sorted, Distinct;
    Listed(k);
    var w := Waiters(k.waits, c);
    if w != [] && k.tasks[w[0]].status in mask {
      LeavesChannel(k, h, c);
      assert w[0] in h.Keys;
      LeftKeeps(k, h, OffChannel(k, c), w[0]);
      assert Core(WokenFrom(k, c, mask), h - {w[0]});
    } else {
      assert Core(WokenFrom(k, c, mask), h);
    }
  }

  lemma ExitTells(k: Machine)
    requires Whole(k) && k.cpu.current in k.parent && k.cpu.current != IDLE
    ensures var z := Blocked(k, Zombie);
      && Scheduling(z)
      && (forall i :: 0 <= i < |Waiters(z.waits, ChildExit(k.parent[k.cpu.current]))| ==>
            Waiters(z.waits, ChildExit(k.parent[k.cpu.current]))[i] in z.tasks)
      && exists g :: Core(WokenFrom(z, ChildExit(k.parent[k.cpu.current]), {Interruptible}), g)
  {
    var h :| Core(k, h);
    DeadJoins(k, h);
    WokenFromKeeps(Blocked(k, Zombie), h[k.cpu.current := Dead], ChildExit(k.parent[k.cpu.current]), {Interruptible});
  }

  lemma TickKeeps(k: Machine)
    requires Whole(k)
    ensures Whole(Ticked(k))
  {
    hide Sorted, Distinct, Lists, Placed, Asleep, Runnable, OffAt;
    var h :| Core(k, h);
    var d := if Fact(k).priority == 0 || Fact(k).priority == 1 then 1 else 2;
    var f := Fact(k).(vrun := Fact(k).vrun + d, need := Fact(k).need || k.cpu.slice - d <= 0);
    CurrentTouched(k, h, f);
    SliceTouched(WithCurrent(k, f), h, k.cpu.slice - d);
    IsWhole(Ticked(k), h);
  }

  lemma SliceTouched(k: Machine, h: map<nat, Place>, slice: int)
    requires Core(k, h) && slice <= 12
    ensures Core(k.(cpu := k.cpu.(slice := slice)), h)
  {
    hide Sorted, Distinct, Lists;
    SamePlaces(k, k.(cpu := k.cpu.(slice := slice)), h);
  }

  /** Blocking on a list, then giving up the processor. */
  lemma SleepKeeps(k: Machine, h: map<nat, Place>, k1: Machine, p: Place)
    requires Core(k, h) && Fact(k).status == Running && k.cpu.current != IDLE && Joined(k, k1, p)
    ensures Scheduling(k1) && Whole(Rescheduled(k1))
  {
    hide Joined, Lists, Placed, Sorted, Distinct;
    JoinedKeeps(k, h, k1, p);
    RescheduledKeeps(k1, h[k.cpu.current := p]);
  }

  /** Taking a task off its list, and waking it. */
  lemma WakeKeeps(k: Machine, h: map<nat, Place>, k1: Machine, t: nat)
    requires Core(k, h) && Fact(k).status == Running && t in h && Left(k, k1, t, h[t])
    ensures t in k1.tasks && Scheduling(k1) && (forall i :: 0 <= i < |k1.cpu.queue| ==> k1.cpu.queue[i] in k1.tasks)
    ensures Whole(Woken(k1, t))
  {
    hide Left, Lists, Placed, Sorted, Distinct, Woken;
    assert t in h.Keys;
    LeftKeeps(k, h, k1, t);
    IsWhole(Woken(k1, t), h - {t});
  }

  lemma CopiedPlaces(k: Machine, h: map<nat, Place>, child: nat)
    requires Core(k, h) && child !in k.tasks
    ensures var c := Copied(k, child);
      Placed(c, h) && Lists(c.waits, c.semaphores, c.disk) && child !in h
  {
    hide Counted, InOrder, Sorted;
    var c, w := Copied(k, child), Waiters(k.waits, ChildExit(child));
    assert w != [] ==> w[0] in w;
    assert child !in h.Keys;
    assert forall p: Place :: !OffAt(k, child, p);
    assert forall t: nat :: t in w ==> t == child && OffAt(k, t, Sleeping(ChildExit(child)));
    assert forall d: Channel :: Waiters(c.waits, d) == Waiters(k.waits, d);
    forall t: nat, p: Place ensures OffAt(c, t, p) <==> OffAt(k, t, p) {
      if p == Dead { assert OffAt(c, t, p) <==> OffAt(k, t, p); }
    }
  }

  lemma ForkKeeps(k: Machine, child: nat)
    requires Whole(k) && child !in k.tasks
    ensures forall i :: 0 <= i < |k.cpu.queue| ==> k.cpu.queue[i] in k.tasks
    ensures Whole(Woken(Copied(k, child), child))
  {
    hide Placed, Lists;
    var h :| Core(k, h);
    var c := Copied(k, child);
    Members(k.cpu.queue, k.tasks);
    SameOrder(k.cpu.queue, k.tasks, c.tasks);
    CopiedPlaces(k, h, child);
    WokenKeeps(c, h, child);
    IsWhole(Woken(c, child), h);
  }

  /** Every event keeps the invariant. */
  lemma StepKeeps(k: Machine, e: Event)
    requires Whole(k) && Enabled(k, e)
    ensures Whole(After(k, e))
  {
    var h :| Core(k, h);
    match e
    case Tick => TickKeeps(k);
    case Reschedule => RescheduledKeeps(k, h);
    case SleepOn(c) =>
      JoinsChannel(k, h, c, Uninterruptible);
      SleepKeeps(k, h, OnChannel(Blocked(k, Uninterruptible), c), Sleeping(c));
    case InterruptibleSleepOn(c) =>
      JoinsChannel(k, h, c, Interruptible);
      SleepKeeps(k, h, OnChannel(Blocked(k, Interruptible), c), Sleeping(c));
    case Wakeup(c, mask) =>
      WokenFromKeeps(k, h, c, mask);
    case Up(s) => UpKeeps(k, h, s);
    case Down(s) => DownKeeps(k, h, s);
    case Fork(child) => ForkKeeps(k, child);
    case Exit =>
      ExitTells(k);
      var z := WokenFrom(Blocked(k, Zombie), ChildExit(k.parent[k.cpu.current]), {Interruptible});
      var g :| Core(z, g);
      RescheduledKeeps(z, g);
    case Submit =>
      JoinsDisk(k, h);
      SleepKeeps(k, h, Blocked(k, Uninterruptible).(disk := Added(k.disk, k.cpu.current)), AtDisk);
    case DiskDone =>
      LeavesDisk(k, h);
      WakeKeeps(k, h, k.(disk := Ended(k.disk)), k.disk.busy.value);
  }

  lemma UpKeeps(k: Machine, h: map<nat, Place>, s: nat)
    requires Whole(k) && Core(k, h) && s in k.semaphores
    ensures Whole(After(k, Up(s)))
  {
    var m := k.semaphores[s];
    if m.wait == [] {
      UpKeepsCount(m);
      CountKeeps(k, h, s, Upped(m));
    } else {
      LeavesSemaphore(k, h, s);
      WakeKeeps(k, h, Granted(k, s), m.wait[0]);
    }
  }

  lemma DownKeeps(k: Machine, h: map<nat, Place>, s: nat)
    requires Whole(k) && Core(k, h) && Enabled(k, Down(s))
    ensures Whole(After(k, Down(s)))
  {
    var m := k.semaphores[s];
    var t := k.cpu.current;
    assert Counted(m);
    if m.counter > 0 {
      DownKeepsCount(m, t);
      CountKeeps(k, h, s, Downed(m, t));
    } else {
      JoinsSemaphore(k, h, s);
      SleepKeeps(k, h, Asked(Blocked(k, Uninterruptible), s), OnSemaphore(s));
    }
  }

  lemma CountKeeps(k: Machine, h: map<nat, Place>, s: nat, m: Semaphore<nat>)
    requires Whole(k) && Core(k, h) && s in k.semaphores && Counted(m) && m.wait == k.semaphores[s].wait
    ensures Whole(k.(semaphores := k.semaphores[s := m]))
  {
    hide Sorted, Distinct, InOrder;
    var r := k.(semaphores := k.semaphores[s := m]);
    forall t: nat, p: Place ensures OffAt(r, t, p) <==> OffAt(k, t, p) {}
    IsWhole(r, h);
  }

  /** The events can happen one after the other. */
  ghost predicate Legal(k: Machine, es: seq<Event>)
    decreases |es|
  {
    Whole(k) && (es == [] || (Enabled(k, es[0]) && Legal(After(k, es[0]), es[1..])))
  }

  ghost function Run(k: Machine, es: seq<Event>): Machine
    requires Legal(k, es)
    decreases |es|
  {
    if es == [] then k else Run(After(k, es[0]), es[1..])
  }

  // ---- what holds over whole runs

  /** The start: the idle task runs, nothing is queued, and the slice is 4. */
  ghost function Boot(initial: map<nat, nat>): Machine {
    Machine(map[IDLE := Facts(0, 2, Running, false)], map[], Cpu(IDLE, [], 1, FULL_SLICE), map[],
            map s | s in initial :: Semaphore(initial[s], [], initial[s], 0, [], []), Requests(None, [], 0, [], []))
  }

  lemma BootIsWhole(initial: map<nat, nat>)
    ensures Whole(Boot(initial))
  {
    var k := Boot(initial);
    var h: map<nat, Place> := map[];
    forall t: nat, p: Place ensures !OffAt(k, t, p) {}
    assert Placed(k, h) && Asleep(k, {}) && Scheduling(k) && Runnable(k);
    hide Placed, Asleep, Scheduling, Runnable;
    assert Core(k, h);
  }

  lemma {:induction false} RunKeeps(k: Machine, es: seq<Event>)
    requires Legal(k, es)
    ensures Whole(Run(k, es))
    decreases |es|
  {
    if es != [] { RunKeeps(After(k, es[0]), es[1..]); }
  }

  /** Any event that can happen after a run extends it: the invariant never stands in its way. */
  lemma {:induction false} RunExtends(k: Machine, es: seq<Event>, e: Event)
    requires Legal(k, es) && Whole(Run(k, es)) && Enabled(Run(k, es), e)
    ensures Legal(k, es + [e]) && Run(k, es + [e]) == After(Run(k, es), e)
    decreases |es|
  {
    hide Whole, After, Enabled;
    if es == [] {
      StepKeeps(k, e);
      assert es + [e] == [e] && [e][1..] == [];
      assert Legal(After(k, e), []);
    } else {
      RunExtends(After(k, es[0]), es[1..], e);
      assert (es + [e])[1..] == es[1..] + [e];
    }
  }

  /** In every reachable state each task is in one place and one only, and stands once in the list it is in. */
  lemma OnePlaceEach(k: Machine, es: seq<Event>, t: nat)
    requires Legal(k, es) && t in Run(k, es).tasks
    ensures var r := Run(k, es);
      && (exists p :: At(r, t, p))
      && (forall p, q :: At(r, t, p) && At(r, t, q) ==> p == q)
      && Distinct(r.cpu.queue) && (forall c :: Distinct(Waiters(r.waits, c)))
      && (forall s :: s in r.semaphores ==> Distinct(r.semaphores[s].wait))
      && Distinct((if r.disk.busy.Some? then [r.disk.busy.value] else []) + r.disk.waiting)
      && (At(r, t, Queued) ==> r.tasks[t].status == Running && t != IDLE)
  {
    RunKeeps(k, es);
    PlaceOf(Run(k, es), t);
    OnceEach(Run(k, es));
  }

  lemma OnceEach(r: Machine)
    requires Whole(r)
    ensures (forall c :: Distinct(Waiters(r.waits, c)))
              && (forall s :: s in r.semaphores ==> Distinct(r.semaphores[s].wait))
    ensures Distinct((if r.disk.busy.Some? then [r.disk.busy.value] else []) + r.disk.waiting)
  {
    hide Sorted, Placed, Asleep, Runnable;
    var h :| Core(r, h);
  }

  lemma PlaceOf(r: Machine, t: nat)
    requires Whole(r) && t in r.tasks
    ensures exists p :: At(r, t, p)
    ensures forall p, q :: At(r, t, p) && At(r, t, q) ==> p == q
    ensures Distinct(r.cpu.queue) && (At(r, t, Queued) ==> r.tasks[t].status == Running && t != IDLE)
  {
    hide Sorted, Lists;
    var h :| Core(r, h);
    assert t in h.Keys <==> r.tasks[t].status != Running;
    if t in h {
      assert OffAt(r, t, h[t]);
      assert At(r, t, h[t]);
    } else {
      assert At(r, t, OnCpu) || At(r, t, Queued) || At(r, t, Idling);
    }
    forall p, q | At(r, t, p) && At(r, t, q) ensures p == q {
      assert OffAt(r, t, p) ==> t in h && h[t] == p;
      assert OffAt(r, t, q) ==> t in h && h[t] == q;
    }
  }

  /** No event loses a task; only fork makes one. */
  lemma {:induction false} TasksStay(k: Machine, es: seq<Event>)
    requires Legal(k, es)
    ensures forall t :: t in k.tasks ==> t in Run(k, es).tasks
    ensures (forall i :: 0 <= i < |es| ==> !es[i].Fork?) ==> Run(k, es).tasks.Keys == k.tasks.Keys
    decreases |es|
  {
    if es != [] {
      StepStays(k, es[0]);
      TasksStay(After(k, es[0]), es[1..]);
    }
  }

  lemma StepStays(k: Machine, e: Event)
    requires Whole(k) && Enabled(k, e)
    ensures After(k, e).tasks.Keys == k.tasks.Keys + (if e.Fork? then {e.child} else {})
  {
    Listed(k);
    assert k.cpu.current in k.tasks;
    hide Whole, Core, Lag, Rescheduled, Woken, WokenFrom, Blocked, Ticked, Waiters;
  }

  /** The semaphore laws, and the order of the disk requests, at any time. */
  lemma CountsAgree(k: Machine, es: seq<Event>, s: nat)
    requires Legal(k, es) && s in Run(k, es).semaphores
    ensures Counted(Run(k, es).semaphores[s]) && InOrder(Run(k, es).disk)
    ensures Run(k, es).cpu.count == |Run(k, es).cpu.queue| + 1 && Run(k, es).cpu.slice <= 12
  {
    RunKeeps(k, es);
    var h :| Core(Run(k, es), h);
  }

  /** A tick from a state that asks for no change leaves the current task at most 13 ahead. */
  lemma TickLag(k: Machine, t: nat)
    requires Whole(k) && !Fact(k).need && t in k.cpu.queue
    ensures t in Ticked(k).tasks && Fact(Ticked(k)).vrun <= Ticked(k).tasks[t].vrun + 13
  {
    Members(k.cpu.queue, k.tasks);
  }

  /** A slice that has gone below zero is never given out again, whatever happens. */
  lemma {:induction false} NegativeSliceStays(k: Machine, es: seq<Event>)
    requires Legal(k, es) && k.cpu.slice < 0
    ensures Run(k, es).cpu.slice <= k.cpu.slice
    decreases |es|
  {
    if es != [] {
      StepSlice(k, es[0]);
      NegativeSliceStays(After(k, es[0]), es[1..]);
    }
  }

  // ---- a run that loses its slice

  /** n tasks of priority 2 are queued behind the idle task, and nobody has run. */
  ghost predicate Lined(k: Machine, n: nat) {
    && k.cpu.current == IDLE && k.cpu.slice == FULL_SLICE && |k.cpu.queue| == n
    && IDLE in k.tasks && forall t :: t in k.tasks ==> k.tasks[t].vrun == 0 && k.tasks[t].priority == 2
  }

  lemma CopyLines(k: Machine, n: nat, child: nat)
    requires Lined(k, n) && child !in k.tasks && forall i :: 0 <= i < |k.cpu.queue| ==> k.cpu.queue[i] in k.tasks
    ensures var r := Woken(Copied(k, child), child);
      Lined(r, n + 1) && r.tasks.Keys == k.tasks.Keys + {child}
  {
    hide Insert;
  }

  lemma ForkLines(k: Machine, n: nat, child: nat)
    requires Whole(k) && Lined(k, n) && child !in k.tasks
    ensures Lined(After(k, Fork(child)), n + 1)
    ensures After(k, Fork(child)).tasks.Keys == k.tasks.Keys + {child}
  {
    Listed(k);
    hide Lined, Woken;
    CopyLines(k, n, child);
  }

  /** A tick of a task of priority 2 takes 2 off the slice. */
  lemma TickTakesTwo(k: Machine)
    requires Whole(k) && Fact(k).priority == 2
    ensures Whole(Ticked(k)) && Ticked(k).cpu == k.cpu.(slice := k.cpu.slice - 2)
    ensures Fact(Ticked(k)).priority == 2 && Fact(Ticked(k)).vrun == Fact(k).vrun + 2
    ensures forall t :: t in k.tasks && t != k.cpu.current ==> Ticked(k).tasks[t] == k.tasks[t]
  {
    TickKeeps(k);
    hide Whole;
  }

  /** With three tasks of priority 2 in turn a slice of 3 is given out. */
  lemma OddShare(k: Machine)
    requires Whole(k) && k.cpu.current == IDLE && k.cpu.slice == 0 && |k.cpu.queue| == 3 && k.tasks[IDLE].vrun > 0
    requires forall t :: t in k.tasks && t != IDLE ==> k.tasks[t].vrun == 0 && k.tasks[t].priority == 2
    ensures var r := Rescheduled(k);
      Whole(r) && r.cpu.slice == 3 && r.cpu.current != IDLE && Fact(r).priority == 2
  {
    var h :| Core(k, h);
    Members(k.cpu.queue, k.tasks);
    RescheduledKeeps(k, h);
    hide Whole, Core;
    var t := k.cpu.queue[0];
    assert t in k.cpu.queue && t != IDLE;
  }

  /** One event more: where the run is then. */
  lemma OneMore(k: Machine, es: seq<Event>, e: Event)
    requires Legal(k, es) && Enabled(Run(k, es), e)
    ensures Whole(Run(k, es)) && Legal(k, es + [e]) && Run(k, es + [e]) == After(Run(k, es), e)
              && Whole(Run(k, es + [e]))
  {
    RunKeeps(k, es);
    RunExtends(k, es, e);
    StepKeeps(Run(k, es), e);
  }

  lemma Nothing(k: Machine)
    requires Whole(k)
    ensures Legal(k, []) && Run(k, []) == k
  {}

  lemma Forked(k: Machine)
    requires Whole(k) && Lined(k, 0) && k.tasks.Keys == {IDLE}
    ensures var es := [] + [Fork(1)] + [Fork(2)] + [Fork(3)];
      Legal(k, es) && Whole(Run(k, es)) && Lined(Run(k, es), 3)
  {
    hide Whole, Lined, After, Run, Legal;
    Nothing(k);
    ForkLines(k, 0, 1);
    OneMore(k, [], Fork(1));
    var k1 := After(k, Fork(1));
    ForkLines(k1, 1, 2);
    OneMore(k, [] + [Fork(1)], Fork(2));
    ForkLines(After(k1, Fork(2)), 2, 3);
    OneMore(k, [] + [Fork(1)] + [Fork(2)], Fork(3));
  }

  /** What the two ticks and schedule() leave: a task of priority 2 with a slice of 3. */
  lemma OddSlice(k: Machine)
    requires Whole(k) && Lined(k, 3)
    ensures var r := Ticked(Ticked(k));
      && Whole(Ticked(k)) && Whole(r) && Scheduling(r) && Whole(Rescheduled(r))
      && Rescheduled(r).cpu.slice == 3 && Fact(Rescheduled(r)).priority == 2
  {
    LinedFacts(k, 3);
    TickTakesTwo(k);
    TickTakesTwo(Ticked(k));
    hide Lined;
    OddShare(Ticked(Ticked(k)));
  }

  lemma LinedFacts(k: Machine, n: nat)
    requires Whole(k) && Lined(k, n)
    ensures Fact(k).priority == 2 && Fact(k).vrun == 0 && k.cpu.current == IDLE && |k.cpu.queue| == n
              && k.cpu.slice == 4
    ensures forall t :: t in k.tasks && t != IDLE ==> k.tasks[t].vrun == 0 && k.tasks[t].priority == 2
  {}

  lemma TickedOn(k: Machine, es: seq<Event>)
    requires Legal(k, es)
    ensures Whole(Run(k, es)) && Legal(k, es + [Tick]) && Run(k, es + [Tick]) == Ticked(Run(k, es))
              && Whole(Run(k, es + [Tick]))
  {
    OneMore(k, es, Tick);
  }

  lemma RescheduledOn(k: Machine, es: seq<Event>)
    requires Legal(k, es)
    ensures Whole(Run(k, es)) && Legal(k, es + [Reschedule]) && Run(k, es + [Reschedule]) == Rescheduled(Run(k, es))
  {
    OneMore(k, es, Reschedule);
  }

  /** Three forks, two ticks that use up the first slice, a schedule(), and two ticks more. */
  function LosingRun(): seq<Event> {
    [] + [Fork(1)] + [Fork(2)] + [Fork(3)] + [Tick] + [Tick] + [Reschedule] + [Tick] + [Tick]
  }

  /** From the start, that run takes the slice below zero; whatever comes then, it stays there. */
  lemma SliceIsLost(initial: map<nat, nat>, es: seq<Event>)
    ensures Legal(Boot(initial), LosingRun()) && Run(Boot(initial), LosingRun()).cpu.slice == -1
    ensures Legal(Run(Boot(initial), LosingRun()), es) ==> Run(Run(Boot(initial), LosingRun()), es).cpu.slice < 0
  {
    var k := Boot(initial);
    BootIsWhole(initial);
    assert Lined(k, 0) && k.tasks.Keys == {IDLE};
    hide Boot, Whole, Lined, Run, Legal, Ticked, Rescheduled;
    Forked(k);
    var f := [] + [Fork(1)] + [Fork(2)] + [Fork(3)];
    OddSlice(Run(k, f));
    TickedOn(k, f);
    TickedOn(k, f + [Tick]);
    RescheduledOn(k, f + [Tick] + [Tick]);
    var r := Rescheduled(Ticked(Ticked(Run(k, f))));
    TickTakesTwo(r);
    TickTakesTwo(Ticked(r));
    TickedOn(k, f + [Tick] + [Tick] + [Reschedule]);
    TickedOn(k, f + [Tick] + [Tick] + [Reschedule] + [Tick]);
    if Legal(Run(k, LosingRun()), es) { NegativeSliceStays(Run(k, LosingRun()), es); }
  }

  /** Only a schedule() at exactly zero raises the slice. */
  lemma StepSlice(k: Machine, e: Event)
    requires Whole(k) && Enabled(k, e)
    ensures After(k, e).cpu.slice > k.cpu.slice ==> k.cpu.slice == 0
  {
    Listed(k);
    hide Whole, Core, Lag, Rescheduled, Woken, WokenFrom, Blocked, Ticked, Waiters;
  }

  // ---- what an event is for

  lemma SleptAs(k: Machine, c: Channel, how: Status)
    requires Whole(k)
    ensures k.cpu.current in k.tasks && Scheduling(k) && Scheduling(OnChannel(Blocked(k, how), c))
    ensures var t, r := k.cpu.current, Rescheduled(OnChannel(Blocked(k, how), c));
      && t in r.tasks && r.tasks[t].status == how && Waiters(r.waits, c) == Waiters(k.waits, c) + [t]
  {
    hide Lag, Schedule, Sorted, Distinct;
    BlockedSchedules(k, how);
  }

  /** A task that sleeps by sleep_on is last in the list, and a wakeup of interruptible sleepers leaves it there. */
  lemma SleepIsDeep(k: Machine, c: Channel)
    requires Whole(k) && Enabled(k, SleepOn(c))
    ensures var t, r := k.cpu.current, After(k, SleepOn(c));
      && t in r.tasks && r.tasks[t].status == Uninterruptible && Waiters(r.waits, c) == Waiters(k.waits, c) + [t]
      && Whole(r) && (Waiters(k.waits, c) == [] ==> After(r, Wakeup(c, {Interruptible})) == r)
  {
    hide Whole, Core, Lag, Rescheduled, Blocked, OnChannel;
    StepKeeps(k, SleepOn(c));
    SleptAs(k, c, Uninterruptible);
    if Waiters(k.waits, c) == [] { WakesNobody(After(k, SleepOn(c)), c, {Interruptible}); }
  }

  lemma WakesNobody(k: Machine, c: Channel, mask: set<Status>)
    requires Whole(k) && mask <= {Interruptible, Uninterruptible}
    requires forall t <- Waiters(k.waits, c) :: t in k.tasks && k.tasks[t].status !in mask
    ensures After(k, Wakeup(c, mask)) == k
  {
    hide Core, Lag, Woken;
    Listed(k);
  }

  /** One that sleeps by interruptible_sleep_on, alone, is to run again after such a wakeup. */
  lemma InterruptibleWakes(k: Machine, c: Channel)
    requires Whole(k) && Enabled(k, InterruptibleSleepOn(c)) && Waiters(k.waits, c) == []
    ensures Whole(After(k, InterruptibleSleepOn(c)))
    ensures var t, r := k.cpu.current, After(After(k, InterruptibleSleepOn(c)), Wakeup(c, {Interruptible}));
      t in r.tasks && r.tasks[t].status == Running && t in r.cpu.queue && Waiters(r.waits, c) == []
  {
    hide Whole, Core, Lag, Rescheduled, Woken, Blocked, OnChannel;
    StepKeeps(k, InterruptibleSleepOn(c));
    SleptAs(k, c, Interruptible);
    var r := After(k, InterruptibleSleepOn(c));
    StepKeeps(r, Wakeup(c, {Interruptible}));
    WakesFirst(r, c, {Interruptible});
  }

  lemma WakesFirst(k: Machine, c: Channel, mask: set<Status>)
    requires Whole(k) && mask <= {Interruptible, Uninterruptible} && Waiters(k.waits, c) != []
    requires Waiters(k.waits, c)[0] in k.tasks && k.tasks[Waiters(k.waits, c)[0]].status in mask
    ensures var t, r := Waiters(k.waits, c)[0], After(k, Wakeup(c, mask));
      && t in r.tasks && r.tasks[t].status == Running && t in r.cpu.queue
      && Waiters(r.waits, c) == Waiters(k.waits, c)[1..]
  {
    hide Sorted, Distinct, Lists, Asleep, Lag, Put;
    Listed(k);
    var h :| Core(k, h);
    var t := Waiters(k.waits, c)[0];
    LeavesChannel(k, h, c);
    PlaceOf(k, t);
    assert At(k, t, Sleeping(c));
    var b := OffChannel(k, c);
    WokenRaised(b, t);
  }

  /** do_exit leaves a zombie, and readies the parent exactly if that waits for its children interruptibly. */
  lemma ExitWakesParent(k: Machine)
    requires Whole(k) && Enabled(k, Exit)
    ensures var t, p, r := k.cpu.current, k.parent[k.cpu.current], After(k, Exit);
      && t in r.tasks && r.tasks[t].status == Zombie && t != r.cpu.current && t !in r.cpu.queue
      && (forall w :: Waiters(k.waits, ChildExit(p)) == [w] && w in k.tasks && k.tasks[w].status == Interruptible ==>
            && w in r.tasks && r.tasks[w].status == Running && (w == r.cpu.current || w in r.cpu.queue)
            && Waiters(r.waits, ChildExit(p)) == [])
      && (forall w :: Waiters(k.waits, ChildExit(p)) == [w] && w in k.tasks && k.tasks[w].status != Interruptible ==>
            Waiters(r.waits, ChildExit(p)) == [w] && w in r.tasks && r.tasks[w].status == k.tasks[w].status)
      && (forall c :: c != ChildExit(p) ==> Waiters(r.waits, c) == Waiters(k.waits, c))
  {
    hide Sorted, Distinct, Lists, Lag, Placed, Asleep, Schedule, Put;
    StepKeeps(k, Exit);
    ExitTells(k);
    SleepersStay(k);
  }

  /** No task sleeps that is current. */
  lemma SleepersStay(k: Machine)
    requires Whole(k)
    ensures forall c: Channel :: k.cpu.current !in Waiters(k.waits, c)
  {
    forall c: Channel ensures k.cpu.current !in Waiters(k.waits, c) {
      if k.cpu.current in Waiters(k.waits, c) { assert OffAt(k, k.cpu.current, Sleeping(c)); }
    }
  }

  /** The new task is the child of the current one, whose run time it takes over, and is to run with priority 2. */
  lemma ForkCopies(k: Machine, child: nat)
    requires Whole(k) && Enabled(k, Fork(child))
    ensures var r := After(k, Fork(child));
      && child in r.parent && r.parent[child] == k.cpu.current && child in r.cpu.queue && child in r.tasks
      && r.tasks[child] == Facts(Fact(k).vrun, 2, Running, Fact(k).need)
      && Waiters(r.waits, ChildExit(child)) == []
  {
    Listed(k);
    InsertAdds(k.cpu.queue, Copied(k, child).tasks[child := Copied(k, child).tasks[child].(status := Running)], child);
    hide Whole, Core, Lag, Insert;
  }

  // ---- histories and events

  /** How many of the events are e. */
  function Times(es: seq<Event>, e: Event): nat {
    if es == [] then 0 else (if es[0] == e then 1 else 0) + Times(es[1..], e)
  }

  lemma StepCounts(k: Machine, e: Event, s: nat)
    requires Whole(k) && Enabled(k, e) && s in k.semaphores
    ensures var r := After(k, e);
      && s in r.semaphores && r.semaphores[s].initial == k.semaphores[s].initial
      && r.semaphores[s].ups == k.semaphores[s].ups + Times([e], Up(s))
      && |r.semaphores[s].asked| == |k.semaphores[s].asked| + Times([e], Down(s))
  {
    hide Core, Lag, Schedule, Put, Ready, Added, Ended;
    Listed(k);
    assert [e][1..] == [];
  }

  lemma StepRequests(k: Machine, e: Event)
    requires Whole(k) && Enabled(k, e)
    ensures |After(k, e).disk.submitted| == |k.disk.submitted| + Times([e], Submit)
    ensures |After(k, e).disk.completed| == |k.disk.completed| + Times([e], DiskDone)
  {
    hide Core, Lag, Schedule, Put, Ready, Upped, Downed;
    Listed(k);
    assert [e][1..] == [];
  }

  /** What semaphores and request list remember is what has happened in the run. */
  lemma {:induction false} EventsCounted(k: Machine, es: seq<Event>, s: nat)
    requires Legal(k, es) && s in k.semaphores
    ensures var r := Run(k, es);
      && s in r.semaphores && r.semaphores[s].initial == k.semaphores[s].initial
      && r.semaphores[s].ups == k.semaphores[s].ups + Times(es, Up(s))
      && |r.semaphores[s].asked| == |k.semaphores[s].asked| + Times(es, Down(s))
      && |r.disk.submitted| == |k.disk.submitted| + Times(es, Submit)
      && |r.disk.completed| == |k.disk.completed| + Times(es, DiskDone)
    decreases |es|
  {
    hide After, Whole, Enabled;
    if es != [] {
      StepCounts(k, es[0], s);
      StepRequests(k, es[0]);
      EventsCounted(After(k, es[0]), es[1..], s);
      assert [es[0]][1..] == [];
    }
  }

  /**
   From the start, by what has happened and nothing else: a semaphore of n units has after any run as many waiters as
   there were downs more than units and ups, and as many units left as there were fewer; the requests not yet done
   are those submitted and not completed.
   */
  lemma UnitsLeft(initial: map<nat, nat>, es: seq<Event>, s: nat)
    requires Legal(Boot(initial), es) && s in initial
    ensures s in Run(Boot(initial), es).semaphores
    ensures var m, d := Run(Boot(initial), es).semaphores[s], Run(Boot(initial), es).disk;
      && m.counter - |m.wait| == initial[s] + Times(es, Up(s)) - Times(es, Down(s)) && (m.counter == 0 || m.wait == [])
      && (if d.busy.Some? then 1 else 0) + |d.waiting| == Times(es, Submit) - Times(es, DiskDone)
  {
    hide Run, Legal;
    EventsCounted(Boot(initial), es, s);
    CountsAgree(Boot(initial), es, s);
  }
}
