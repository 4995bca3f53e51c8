// The routines on the lists in memory are the events of the state machine: tasks are known there by numbers.
module KernelLists {
  import opened Common
  import opened Cfs
  import opened Queueing
  import opened RunQueue
  import opened Processor
  import K = Kernel

  // ---- one processor, by values

  /** The machine k is this processor with these tasks, under the names f. */
  ghost predicate Mirrors<T>(f: map<T, nat>, c: Cpu<T>, m: map<T, Facts>, idle: T, k: K.Machine) {
    && Naming(f) && NamedCpu(f, c, k.cpu) && Told(f, m, k.tasks)
    && idle in f && f[idle] == K.IDLE && Ready(c, m, idle)
  }

  lemma ReadyNamed<T>(f: map<T, nat>, c: Cpu<T>, m: map<T, Facts>, idle: T, k: K.Machine)
    requires Mirrors(f, c, m, idle, k)
    ensures K.Scheduling(k)
  {
    forall i | 0 <= i < |k.cpu.queue| ensures k.cpu.queue[i] in k.tasks && k.cpu.queue[i] != K.IDLE {
      assert f[c.queue[i]] == k.cpu.queue[i] && c.queue[i] in m;
    }
    forall i, j | 0 <= i < j < |k.cpu.queue|
      ensures k.cpu.queue[i] != k.cpu.queue[j] && k.tasks[k.cpu.queue[i]].vrun <= k.tasks[k.cpu.queue[j]].vrun
    {
      assert c.queue[i] != c.queue[j] && m[c.queue[i]].vrun <= m[c.queue[j]].vrun;
    }
  }

  /** New facts of the current task, in the same state of the lists. */
  lemma CurrentMirrors<T>(f: map<T, nat>, c: Cpu<T>, m: map<T, Facts>, idle: T, k: K.Machine, x: Facts, slice: int)
    requires Mirrors(f, c, m, idle, k)
    ensures Mirrors(f, c.(slice := slice), m[c.current := x], idle,
                    K.WithCurrent(k, x).(cpu := k.cpu.(slice := slice)))
  {}

  lemma RescheduleMirrors<T>(f: map<T, nat>, c: Cpu<T>, m: map<T, Facts>, idle: T, k: K.Machine)
    requires Mirrors(f, c, m, idle, k)
    ensures K.Scheduling(k)
    ensures Mirrors(f, Schedule(c, m, idle), m[c.current := m[c.current].(need := false)], idle, K.Rescheduled(k))
  {
    ReadyNamed(f, c, m, idle, k);
    var x := m[c.current].(need := false);
    var n := m[c.current := x];
    CurrentMirrors(f, c, m, idle, k, x, c.slice);
    var b := K.WithCurrent(k, x);
    ReadyNamed(f, c, n, idle, b);
    hide Ready, Sorted, Distinct, Told, NamedCpu, Schedule;
    SameChoice(c, m, n, idle);
    ScheduleNamed(f, c, n, idle, b.cpu, b.tasks);
    ScheduleKeeps(c, n, idle);
  }

  /** Task t, with the facts that wakeup_process gives it, in its place. */
  ghost function Raised<T>(m: map<T, Facts>, current: T, t: T): map<T, Facts> {
    if t !in m || current !in m then m
    else
      var n := m[t := m[t].(status := Running)];
      n[current := n[current].(need := true)]
  }

  lemma WakeMirrors<T>(f: map<T, nat>, c: Cpu<T>, m: map<T, Facts>, idle: T, k: K.Machine, t: T)
    requires Mirrors(f, c, m, idle, k) && t in m && t in f && t !in c.queue && t != idle && t != c.current
    ensures f[t] in k.tasks && forall i :: 0 <= i < |k.cpu.queue| ==> k.cpu.queue[i] in k.tasks
    ensures Mirrors(f, Put(c, m, idle, t), Raised(m, c.current, t), idle, K.Woken(k, f[t]))
  {
    ReadyNamed(f, c, m, idle, k);
    Members(c.queue, m);
    WakeReady(c, m, idle, t);
    hide Sorted, Distinct, Put, Ready;
    var m1 := m[t := m[t].(status := Running)];
    var n1 := k.tasks[f[t] := k.tasks[f[t]].(status := Running)];
    SamePut(c, m, m1, idle, t);
    PutNamed(f, c, m1, idle, t, k.cpu, n1);
  }

  lemma WakeReady<T>(c: Cpu<T>, m: map<T, Facts>, idle: T, t: T)
    requires Ready(c, m, idle) && t in m && t !in c.queue && t != idle && t != c.current
    ensures Ready(Put(c, m, idle, t), Raised(m, c.current, t), idle)
  {
    PutKeeps(c, m, idle, t);
    hide Sorted, Distinct, Put;
    StillSorted(Put(c, m, idle, t).queue, m, Raised(m, c.current, t));
  }

  lemma StillSorted<T>(q: seq<T>, m: map<T, Facts>, n: map<T, Facts>)
    requires Sorted(q, m) && forall t <- m :: t in n && n[t].vrun == m[t].vrun
    ensures Sorted(q, n)
  {}

  /** The current task is marked, and schedule() chooses among those e tells of; b has that task on one list more. */
  lemma SleepMirrors<T>(f: map<T, nat>, c: Cpu<T>, m: map<T, Facts>, e: map<T, Facts>, idle: T, k: K.Machine,
      how: Status,
      b: K.Machine)
    requires Mirrors(f, c, m, idle, k) && k.cpu.current in k.tasks
    requires Within(e, m)
    requires c.current in e && Ready(c, Dozing(e, c.current, how), idle)
    requires b.cpu == k.cpu && b.tasks == K.Blocked(k, how).tasks
    ensures K.Scheduling(b)
    ensures Mirrors(f, Schedule(c, Dozing(e, c.current, how), idle), Asleep(m, c.current, how), idle, K.Rescheduled(b))
  {
    var m1 := Dozing(m, c.current, how);
    CurrentMirrors(f, c, m, idle, k, m1[c.current], c.slice);
    assert Mirrors(f, c, m1, idle, b);
    hide Ready, Sorted, Distinct, Told, NamedCpu, Schedule, Mirrors;
    RescheduleMirrors(f, c, m1, idle, b);
    assert Ready(c, m1, idle) by { MirrorsReady(f, c, m1, idle, b); }
    SameChoice(c, Dozing(e, c.current, how), m1, idle);
    assert m1[c.current := m1[c.current].(need := false)]
         == m[c.current := m[c.current].(status := how, need := false)];
  }

  lemma MirrorsReady<T>(f: map<T, nat>, c: Cpu<T>, m: map<T, Facts>, idle: T, k: K.Machine)
    requires Mirrors(f, c, m, idle, k)
    ensures Ready(c, m, idle)
  {}

  // ---- the same on the lists

  /** The scheduler and all tasks there are, by the names f, are the machine k. */
  ghost predicate Shows(f: map<Task, nat>, s: Scheduler, k: K.Machine)
    reads s, f.Keys
  {
    Mirrors(f, s.Now(), Snapshot(f.Keys), s.idle, k)
  }

  method Tick(s: Scheduler, ghost f: map<Task, nat>, ghost k: K.Machine)
    requires s.Scheduling() && s.current.vrun <= LONG_MAX - 2 && Shows(f, s, k)
    modifies s`slice, s.current`vrun, s.current`need
    ensures s.Scheduling() && Shows(f, s, K.Ticked(k))
  {
    hide Ready, Sorted, Distinct, Shape, Ring;
    ghost var c, m, idle := s.Now(), Snapshot(f.Keys), s.idle;
    HpetTick(s);
    ghost var x := s.current.AsFacts();
    assert Snapshot(f.Keys) == m[s.current := x];
    CurrentMirrors(f, c, m, idle, k, x, s.slice);
    assert K.Ticked(k) == K.WithCurrent(k, x).(cpu := k.cpu.(slice := s.slice));
  }

  /** m, with the facts that a task has once it has marked itself and called schedule(). */
  ghost function Asleep<T>(m: map<T, Facts>, t: T, how: Status): map<T, Facts>
  {
    if t in m then m[t := m[t].(status := how, need := false)] else m
  }

  /** sleep_on, and what it does to the facts of all tasks. */
  method SleepFacts(s: Scheduler, q: WaitQueue, how: Status, ghost all: set<Task>)
    requires s.Scheduling() && Resting(q, s) && s.current != s.idle && how != Running
    modifies s`current, s`queue, s`ring, s`count, s`slice, s.ring, s.current`need, s.current`status, s.current.list,
             s.idle.list, q`ring, q.ring
    ensures s.Scheduling() && Resting(q, s)
    ensures q.Waiting() == old(q.Waiting()) + [old(s.current)]
    ensures Ready(old(s.Now()), Dozing(old(Snapshot(s.Everyone())), old(s.current), how), s.idle)
    ensures s.Now() == Schedule(old(s.Now()), Dozing(old(Snapshot(s.Everyone())), old(s.current), how), s.idle)
    ensures Snapshot(all) == Asleep(old(Snapshot(all)), old(s.current), how)
  {
    hide Ready, Sorted, Distinct, Shape, Ring, Schedule, Resting, Dozing;
    SleepOn(s, q, how);
  }

  /** sleep_on and interruptible_sleep_on are the events of that name, on the channel that q is. */
  method Sleep(s: Scheduler, q: WaitQueue, how: Status, ghost f: map<Task, nat>, ghost k: K.Machine,
      ghost ch: K.Channel)
    requires s.Scheduling() && Resting(q, s) && s.current != s.idle && how != Running
    requires Shows(f, s, k) && Named(f, q.Waiting(), K.Waiters(k.waits, ch))
    modifies s`current, s`queue, s`ring, s`count, s`slice, s.ring, s.current`need, s.current`status, s.current.list,
             s.idle.list, q`ring, q.ring
    ensures s.Scheduling() && Resting(q, s) && k.cpu.current in k.tasks
    ensures var b := K.OnChannel(K.Blocked(k, how), ch);
      K.Scheduling(b) && Shows(f, s, K.Rescheduled(b)) && Named(f, q.Waiting(), K.Waiters(b.waits, ch))
  {
    hide Ready, Sorted, Distinct, Shape, Ring, Schedule, Mirrors, Shows, Resting, Dozing, Asleep, Snapshot;
    ghost var c, m, e, x := s.Now(), Snapshot(f.Keys), Snapshot(s.Everyone()), s.current;
    ShownMeans(f, s, k);
    SleepFacts(s, q, how, f.Keys);
    SleepMirrors(f, c, m, e, s.idle, k, how, K.OnChannel(K.Blocked(k, how), ch));
    MirrorsShows(f, s, K.Rescheduled(K.OnChannel(K.Blocked(k, how), ch)));
  }

  lemma ShownMeans(f: map<Task, nat>, s: Scheduler, k: K.Machine)
    requires Shows(f, s, k)
    ensures s.Everyone() <= f.Keys && Mirrors(f, s.Now(), Snapshot(f.Keys), s.idle, k)
    ensures s.current in Snapshot(s.Everyone()) && Within(Snapshot(s.Everyone()), Snapshot(f.Keys))
    ensures k.cpu.current in k.tasks && s.current in f && f[s.current] == k.cpu.current
    ensures k.tasks[k.cpu.current] == s.current.AsFacts()
  {
    forall t <- s.queue ensures t in f { var i :| 0 <= i < |s.queue| && s.queue[i] == t; }
  }

  lemma MirrorsShows(f: map<Task, nat>, s: Scheduler, k: K.Machine)
    requires Mirrors(f, s.Now(), Snapshot(f.Keys), s.idle, k)
    ensures Shows(f, s, k)
  {}

  /** n tells of at least those tasks that e tells of, and the same. */
  ghost predicate Within<T>(e: map<T, Facts>, n: map<T, Facts>) {
    forall t <- e :: t in n && n[t] == e[t]
  }

  /** Once t has been woken, these are the facts of x. */
  ghost function RaisedFact(x: Facts, isTask: bool, isCurrent: bool): Facts {
    if isTask then x.(status := Running) else if isCurrent then x.(need := true) else x
  }

  /** wakeup, and what it does to the facts of all tasks. */
  method WakeOne(s: Scheduler, q: WaitQueue, mask: set<Status>, ghost all: set<Task>) returns (ghost woken: bool)
    requires s.Scheduling() && Resting(q, s)
    modifies q`ring, q.ring, s`queue, s`ring, s`count, s.ring, s.current`need, First(q)`status, FirstNode(q)
    ensures s.Scheduling() && Resting(q, s) && woken == !old(q.Waiting() == [] || q.Waiting()[0].status !in mask)
    ensures forall x <- s.queue :: x in old(s.queue) || x in old(First(q))
    ensures !woken ==> q.Waiting() == old(q.Waiting()) && s.Now() == old(s.Now())
    ensures !woken ==> forall x <- all :: x.AsFacts() == old(x.AsFacts())
    ensures woken ==> q.Waiting() == old(q.Waiting())[1..] && Queued(s, old(q.Waiting()[0]))
    ensures woken ==> forall x <- all ::
              x.AsFacts() == RaisedFact(old(x.AsFacts()), x == old(q.Waiting()[0]), x == old(s.current))
  {
    hide Ready, Sorted, Distinct, Shape, Ring, Put, Resting, Snapshot;
    FirstSleeps(s, q);
    woken := q.Waiting() != [] && q.Waiting()[0].status in mask;
    Wakeup(s, q, mask);
  }

  method WakeFacts(s: Scheduler, q: WaitQueue, mask: set<Status>, ghost all: set<Task>) returns (ghost woken: bool)
    requires s.Scheduling() && Resting(q, s) && s.Everyone() <= all && forall t <- q.Waiting() :: t in all
    modifies q`ring, q.ring, s`queue, s`ring, s`count, s.ring, s.current`need, First(q)`status, FirstNode(q)
    ensures s.Scheduling() && Resting(q, s) && woken == !old(q.Waiting() == [] || q.Waiting()[0].status !in mask)
    ensures forall x <- s.queue :: x in old(s.queue) || x in old(First(q))
    ensures !woken ==> q.Waiting() == old(q.Waiting()) && s.Now() == old(s.Now()) && Snapshot(all) == old(Snapshot(all))
    ensures woken ==> q.Waiting() == old(q.Waiting())[1..]
    ensures woken ==> FirstPut(old(s.Now()), old(Snapshot(all)), old(q.Waiting())[0], s, all)
  {
    hide Ready, Sorted, Distinct, Shape, Ring, Put, Resting, FirstPut, Raised;
    ghost var c, m, w := s.Now(), Snapshot(all), q.Waiting();
    ghost var e := if w == [] then map[] else Snapshot(s.Everyone() + {w[0]});
    FirstSleeps(s, q);
    woken := WakeOne(s, q, mask, all);
    if woken {
      RaisedAll(m, c.current, w[0], Snapshot(all));
      PutAmongAll(c, e, m, w[0], s, all);
    }
  }

  lemma FirstSleeps(s: Scheduler, q: WaitQueue)
    requires Resting(q, s)
    ensures q.Waiting() != [] ==> Sleeper(s, q.Waiting()[0])
  {}

  /** What the facts are once only t's state and the current task's flag have changed. */
  lemma RaisedAll(m: map<Task, Facts>, current: Task, t: Task, n: map<Task, Facts>)
    requires t in m && current in m && t != current && n.Keys == m.Keys
    requires n[t] == m[t].(status := Running) && n[current] == m[current].(need := true)
    requires forall x <- m :: x != t && x != current ==> n[x] == m[x]
    ensures n == Raised(m, current, t)
  {}

  lemma PutAmongAll(c: Cpu<Task>, e: map<Task, Facts>, m: map<Task, Facts>, t: Task, s: Scheduler, all: set<Task>)
    requires Within(e, m) && t in e && c.current in m && t !in c.queue && t != s.idle && t != c.current
    requires forall k :: 0 <= k < |c.queue| ==> c.queue[k] in e
    requires s.Now() == Put(c, e, s.idle, t) && Snapshot(all) == Raised(m, c.current, t)
    ensures FirstPut(c, m, t, s, all)
  {
    SamePut(c, e, m, s.idle, t);
  }

  /** Task t, which was neither queued nor current, now stands in its place in the queue. */
  ghost predicate FirstPut(c: Cpu<Task>, m: map<Task, Facts>, t: Task, s: Scheduler, all: set<Task>)
    reads s, all
  {
    && t in m && c.current in m && t !in c.queue && t != s.idle && t != c.current
    && (forall k :: 0 <= k < |c.queue| ==> c.queue[k] in m)
    && s.Now() == Put(c, m, s.idle, t) && Snapshot(all) == Raised(m, c.current, t)
  }

  /** wakeup is the event of that name, on the channel that q is. */
  method Wake(s: Scheduler, q: WaitQueue, mask: set<Status>, ghost f: map<Task, nat>, ghost k: K.Machine,
      ghost ch: K.Channel)
    requires s.Scheduling() && Resting(q, s) && Shows(f, s, k) && Named(f, q.Waiting(), K.Waiters(k.waits, ch))
    modifies q`ring, q.ring, s`queue, s`ring, s`count, s.ring, s.current`need, First(q)`status, FirstNode(q)
    ensures s.Scheduling() && Resting(q, s) && K.Scheduling(k)
    ensures forall x <- s.queue :: x in old(s.queue) || x in old(First(q))
    ensures forall i :: 0 <= i < |K.Waiters(k.waits, ch)| ==> K.Waiters(k.waits, ch)[i] in k.tasks
    ensures var r := K.WokenFrom(k, ch, mask); Shows(f, s, r) && Named(f, q.Waiting(), K.Waiters(r.waits, ch))
  {
    hide Ready, Sorted, Distinct, Shape, Ring, Mirrors, Shows, Resting, Snapshot, FirstPut, Put;
    ghost var c, m, w := s.Now(), Snapshot(f.Keys), q.Waiting();
    ShownMeans(f, s, k);
    WaitersKnown(f, s, k, w, K.Waiters(k.waits, ch));
    ghost var woken := WakeFacts(s, q, mask, f.Keys);
    if woken {
      ghost var b := K.OffChannel(k, ch);
      OtherLists(f, c, m, s.idle, k, b);
      PutShows(f, c, m, w[0], s, b);
    } else {
      MirrorsShows(f, s, k);
    }
  }

  lemma WaitersKnown(f: map<Task, nat>, s: Scheduler, k: K.Machine, w: seq<Task>, v: seq<nat>)
    requires Shows(f, s, k) && Named(f, w, v)
    ensures K.Scheduling(k) && (forall i :: 0 <= i < |v| ==> v[i] in k.tasks) && forall t <- w :: t in f
    ensures w != [] ==> w[0] in Snapshot(f.Keys) && Snapshot(f.Keys)[w[0]] == w[0].AsFacts() == k.tasks[v[0]]
  {
    ReadyNamed(f, s.Now(), Snapshot(f.Keys), s.idle, k);
    forall i | 0 <= i < |v| ensures v[i] in k.tasks { assert w[i] in f && w[i] in Snapshot(f.Keys); }
  }

  /** The lists a task waits in are no matter of the processor's. */
  lemma OtherLists<T>(f: map<T, nat>, c: Cpu<T>, m: map<T, Facts>, idle: T, k: K.Machine, b: K.Machine)
    requires Mirrors(f, c, m, idle, k) && b.cpu == k.cpu && b.tasks == k.tasks
    ensures Mirrors(f, c, m, idle, b)
  {}

  /** After FirstPut the machine is the one that has woken the task; k may differ from the one before in its lists. */
  lemma PutShows(f: map<Task, nat>, c: Cpu<Task>, m: map<Task, Facts>, t: Task, s: Scheduler, k: K.Machine)
    requires Mirrors(f, c, m, s.idle, k) && FirstPut(c, m, t, s, f.Keys)
    ensures t in f && k.cpu.current in k.tasks && f[t] in k.tasks
    ensures forall i :: 0 <= i < |k.cpu.queue| ==> k.cpu.queue[i] in k.tasks
    ensures Shows(f, s, K.Woken(k, f[t]))
  {
    WakeMirrors(f, c, m, s.idle, k, t);
  }

  // ---- semaphores

  ghost predicate NamedSemaphore(f: map<Task, nat>, a: Semaphore<Task>, b: Semaphore<nat>) {
    && a.counter == b.counter && a.initial == b.initial && a.ups == b.ups
    && Named(f, a.wait, b.wait) && Named(f, a.asked, b.asked) && Named(f, a.granted, b.granted)
  }

  lemma UpNamed(f: map<Task, nat>, a: Semaphore<Task>, b: Semaphore<nat>)
    requires NamedSemaphore(f, a, b)
    ensures NamedSemaphore(f, Upped(a), Upped(b))
  {}

  lemma DownNamed(f: map<Task, nat>, a: Semaphore<Task>, b: Semaphore<nat>, t: Task)
    requires NamedSemaphore(f, a, b) && t in f
    ensures NamedSemaphore(f, Downed(a, t), Downed(b, f[t]))
  {}

  method UpOne(s: Scheduler, sem: CountingSemaphore, ghost all: set<Task>)
    requires s.Scheduling() && Resting(sem.q, s) && Counted(sem.View())
    modifies sem`counter, sem`ups, sem`granted
    modifies sem.q`ring, sem.q.ring, s`queue, s`ring, s`count, s.ring, s.current`need, First(sem.q)`status,
             FirstNode(sem.q)
    ensures s.Scheduling() && Resting(sem.q, s) && Counted(sem.View()) && sem.View() == Upped(old(sem.View()))
    ensures old(sem.q.Waiting()) == [] ==> s.Now() == old(s.Now())
    ensures old(sem.q.Waiting()) == [] ==> forall x <- all :: x.AsFacts() == old(x.AsFacts())
    ensures old(sem.q.Waiting()) != [] ==> Queued(s, old(sem.q.Waiting()[0]))
    ensures old(sem.q.Waiting()) != [] ==> forall x <- all ::
              x.AsFacts() == RaisedFact(old(x.AsFacts()), x == old(sem.q.Waiting()[0]), x == old(s.current))
  {
    hide Ready, Sorted, Distinct, Shape, Ring, Put, Resting, Snapshot, Counted, Upped;
    FirstSleeps(s, sem.q);
    sem.Up(s);
  }

  method UpFacts(s: Scheduler, sem: CountingSemaphore, ghost all: set<Task>)
    requires s.Scheduling() && Resting(sem.q, s) && Counted(sem.View())
    requires s.Everyone() <= all && forall t <- sem.q.Waiting() :: t in all
    modifies sem`counter, sem`ups, sem`granted
    modifies sem.q`ring, sem.q.ring, s`queue, s`ring, s`count, s.ring, s.current`need, First(sem.q)`status,
             FirstNode(sem.q)
    ensures s.Scheduling() && Resting(sem.q, s) && Counted(sem.View()) && sem.View() == Upped(old(sem.View()))
    ensures if old(sem.q.Waiting()) == [] then s.Now() == old(s.Now()) && Snapshot(all) == old(Snapshot(all))
            else FirstPut(old(s.Now()), old(Snapshot(all)), old(sem.q.Waiting())[0], s, all)
  {
    hide Ready, Sorted, Distinct, Shape, Ring, Put, Resting, FirstPut, Raised, Counted, Upped;
    ghost var c, m, w := s.Now(), Snapshot(all), sem.q.Waiting();
    ghost var e := if w == [] then map[] else Snapshot(s.Everyone() + {w[0]});
    FirstSleeps(s, sem.q);
    UpOne(s, sem, all);
    if w != [] {
      RaisedAll(m, c.current, w[0], Snapshot(all));
      PutAmongAll(c, e, m, w[0], s, all);
    }
  }

  /** semaphore_up is the event of that name, on the semaphore of number i. */
  method Up(s: Scheduler, sem: CountingSemaphore, ghost f: map<Task, nat>, ghost k: K.Machine, ghost i: nat)
    requires s.Scheduling() && Resting(sem.q, s) && Counted(sem.View()) && Shows(f, s, k)
    requires i in k.semaphores && NamedSemaphore(f, sem.View(), k.semaphores[i])
    modifies sem`counter, sem`ups, sem`granted
    modifies sem.q`ring, sem.q.ring, s`queue, s`ring, s`count, s.ring, s.current`need, First(sem.q)`status,
             FirstNode(sem.q)
    ensures s.Scheduling() && Resting(sem.q, s) && Counted(sem.View()) && K.Scheduling(k)
    ensures NamedSemaphore(f, sem.View(), K.Granted(k, i).semaphores[i])
    ensures forall j :: 0 <= j < |k.semaphores[i].wait| ==> k.semaphores[i].wait[j] in k.tasks
    ensures Shows(f, s, if k.semaphores[i].wait == [] then K.Granted(k, i)
                        else K.Woken(K.Granted(k, i), k.semaphores[i].wait[0]))
  {
    hide Ready, Sorted, Distinct, Shape, Ring, Mirrors, Shows, Resting, FirstPut, Put, Counted, Upped, Snapshot;
    ghost var c, m, w := s.Now(), Snapshot(f.Keys), sem.q.Waiting();
    ShownMeans(f, s, k);
    WaitersKnown(f, s, k, w, k.semaphores[i].wait);
    UpNamed(f, sem.View(), k.semaphores[i]);
    UpFacts(s, sem, f.Keys);
    OtherLists(f, c, m, s.idle, k, K.Granted(k, i));
    if w != [] {
      PutShows(f, c, m, w[0], s, K.Granted(k, i));
    } else {
      MirrorsShows(f, s, K.Granted(k, i));
    }
  }

  /** What giving way leaves of the facts: either the task went on at once, or it sleeps. */
  method DownFacts(s: Scheduler, sem: CountingSemaphore, ghost all: set<Task>)
    requires s.Scheduling() && Resting(sem.q, s) && Counted(sem.View()) && (s.current != s.idle || sem.counter > 0)
    modifies sem`counter, sem`asked, sem`granted
    modifies s`current, s`queue, s`ring, s`count, s`slice, s.ring, s.current`need, s.current`status, s.current.list,
             s.idle.list, sem.q`ring, sem.q.ring
    ensures s.Scheduling() && Resting(sem.q, s) && Counted(sem.View())
    ensures sem.View() == Downed(old(sem.View()), old(s.current)) && old(sem.counter) >= 0
    ensures old(sem.counter) > 0 ==> s.Now() == old(s.Now()) && Snapshot(all) == old(Snapshot(all))
    ensures old(sem.counter) == 0 ==> Slept(old(s.Now()), old(Snapshot(s.Everyone())), old(Snapshot(all)), s, all)
  {
    hide Ready, Sorted, Distinct, Shape, Ring, Schedule, Resting, Dozing, Counted, Downed;
    NeverNegative(sem.View());
    sem.Down(s);
  }

  /** The task that was current sleeps, and schedule() has chosen among the others. */
  ghost predicate Slept(c: Cpu<Task>, e: map<Task, Facts>, m: map<Task, Facts>, s: Scheduler, all: set<Task>)
    reads s, all
  {
    && Ready(c, Dozing(e, c.current, Uninterruptible), s.idle)
    && s.Now() == Schedule(c, Dozing(e, c.current, Uninterruptible), s.idle)
    && Snapshot(all) == Asleep(m, c.current, Uninterruptible)
  }

  lemma SleptShows(f: map<Task, nat>, c: Cpu<Task>, e: map<Task, Facts>, m: map<Task, Facts>, s: Scheduler,
      k: K.Machine,
      b: K.Machine)
    requires Mirrors(f, c, m, s.idle, k) && k.cpu.current in k.tasks && Within(e, m) && c.current in e
    requires b.cpu == k.cpu && b.tasks == K.Blocked(k, Uninterruptible).tasks && Slept(c, e, m, s, f.Keys)
    ensures K.Scheduling(b) && Shows(f, s, K.Rescheduled(b))
  {
    hide Ready, Sorted, Distinct, Schedule, Mirrors, Dozing, Asleep;
    SleepMirrors(f, c, m, e, s.idle, k, Uninterruptible, b);
    MirrorsShows(f, s, K.Rescheduled(b));
  }

  /** semaphore_down is the event of that name, on the semaphore of number i. */
  method Down(s: Scheduler, sem: CountingSemaphore, ghost f: map<Task, nat>, ghost k: K.Machine, ghost i: nat)
    requires s.Scheduling() && Resting(sem.q, s) && Counted(sem.View()) && (s.current != s.idle || sem.counter > 0)
    requires Shows(f, s, k) && i in k.semaphores && NamedSemaphore(f, sem.View(), k.semaphores[i])
    modifies sem`counter, sem`asked, sem`granted
    modifies s`current, s`queue, s`ring, s`count, s`slice, s.ring, s.current`need, s.current`status, s.current.list,
             s.idle.list, sem.q`ring, sem.q.ring
    ensures s.Scheduling() && Resting(sem.q, s) && Counted(sem.View()) && k.cpu.current in k.tasks
    ensures NamedSemaphore(f, sem.View(), K.Asked(k, i).semaphores[i])
    ensures k.semaphores[i].counter > 0 ==> Shows(f, s, K.Asked(k, i))
    ensures k.semaphores[i].counter <= 0 ==>
              var b := K.Asked(K.Blocked(k, Uninterruptible), i); K.Scheduling(b) && Shows(f, s, K.Rescheduled(b))
  {
    hide Ready, Sorted, Distinct, Shape, Ring, Schedule, Mirrors, Shows, Resting, Counted, Downed, Slept;
    ghost var c, m, e := s.Now(), Snapshot(f.Keys), Snapshot(s.Everyone());
    ShownMeans(f, s, k);
    DownNamed(f, sem.View(), k.semaphores[i], s.current);
    DownFacts(s, sem, f.Keys);
    if k.semaphores[i].counter > 0 {
      OtherLists(f, c, m, s.idle, k, K.Asked(k, i));
      MirrorsShows(f, s, K.Asked(k, i));
    } else {
      SleptShows(f, c, e, m, s, k, K.Asked(K.Blocked(k, Uninterruptible), i));
    }
  }

  // ---- schedule()

  /** m, once its current task has called schedule(). */
  ghost function Unmarked<T>(m: map<T, Facts>, current: T): map<T, Facts> {
    if current in m then m[current := m[current].(need := false)] else m
  }

  method ScheduleFacts(s: Scheduler, ghost all: set<Task>)
    requires s.Scheduling() && s.Everyone() <= all && Ready(s.Now(), Snapshot(all), s.idle)
    modifies s`current, s`queue, s`ring, s`count, s`slice, s.ring, s.current`need, s.current.list, s.idle.list
    ensures s.Scheduling() && s.Now() == Schedule(old(s.Now()), old(Snapshot(all)), s.idle)
    ensures Snapshot(all) == Unmarked(old(Snapshot(all)), old(s.current))
  {
    hide Ready, Sorted, Distinct, Shape, Ring, Schedule;
    ghost var c, m, ts := s.Now(), Snapshot(all), s.Everyone();
    s.Schedule();
    SameChoice(c, Snapshot(ts), m, s.idle);
  }

  /** schedule() is the event Reschedule. */
  method Reschedule(s: Scheduler, ghost f: map<Task, nat>, ghost k: K.Machine)
    requires s.Scheduling() && Shows(f, s, k)
    modifies s`current, s`queue, s`ring, s`count, s`slice, s.ring, s.current`need, s.current.list, s.idle.list
    ensures s.Scheduling() && K.Scheduling(k) && Shows(f, s, K.Rescheduled(k))
  {
    hide Ready, Sorted, Distinct, Shape, Ring, Schedule, Mirrors, Shows, Snapshot;
    ghost var c, m := s.Now(), Snapshot(f.Keys);
    ShownMeans(f, s, k);
    MirrorsReady(f, c, m, s.idle, k);
    RescheduleMirrors(f, c, m, s.idle, k);
    ScheduleFacts(s, f.Keys);
    MirrorsShows(f, s, K.Rescheduled(k));
  }

  // ---- the disk

  ghost predicate NamedRequests(f: map<Task, nat>, a: Requests<Task>, b: Requests<nat>) {
    && Named(f, a.waiting, b.waiting) && Named(f, a.submitted, b.submitted) && Named(f, a.completed, b.completed)
    && a.count == b.count && (a.busy.Some? <==> b.busy.Some?)
    && (a.busy.Some? ==> a.busy.value in f && f[a.busy.value] == b.busy.value)
  }

  lemma AddNamed(f: map<Task, nat>, a: Requests<Task>, b: Requests<nat>, t: Task)
    requires NamedRequests(f, a, b) && t in f
    ensures NamedRequests(f, Added(a, t), Added(b, f[t]))
  {}

  lemma EndNamed(f: map<Task, nat>, a: Requests<Task>, b: Requests<nat>)
    requires NamedRequests(f, a, b) && a.busy.Some? && (a.count != 0 ==> a.waiting != [])
    ensures b.count != 0 ==> b.waiting != []
    ensures NamedRequests(f, Ended(a), Ended(b))
  {}

  method TransferFacts(s: Scheduler, d: RequestList, ghost all: set<Task>)
    requires s.Scheduling() && d.Working(s) && s.current != s.idle
    modifies d`inUsing, d`count, d`submitted, d.q`ring, d.q.ring
    modifies s`current, s`queue, s`ring, s`count, s`slice, s.ring, s.current`need, s.current`status, s.current.list,
             s.idle.list
    ensures s.Scheduling() && d.Working(s) && d.View() == Added(old(d.View()), old(s.current))
    ensures Slept(old(s.Now()), old(Snapshot(s.Everyone())), old(Snapshot(all)), s, all)
  {
    hide Ready, Sorted, Distinct, Shape, Ring, Schedule, Resting, Dozing, InOrder, Clear, Added;
    d.Transfer(s);
  }

  /** Submitting a request and waiting for it is the event Submit. */
  method Submit(s: Scheduler, d: RequestList, ghost f: map<Task, nat>, ghost k: K.Machine)
    requires s.Scheduling() && d.Working(s) && s.current != s.idle && Shows(f, s, k)
    requires NamedRequests(f, d.View(), k.disk)
    modifies d`inUsing, d`count, d`submitted, d.q`ring, d.q.ring
    modifies s`current, s`queue, s`ring, s`count, s`slice, s.ring, s.current`need, s.current`status, s.current.list,
             s.idle.list
    ensures s.Scheduling() && d.Working(s) && k.cpu.current in k.tasks
    ensures var b := K.Blocked(k, Uninterruptible).(disk := Added(k.disk, k.cpu.current));
      K.Scheduling(b) && Shows(f, s, K.Rescheduled(b)) && NamedRequests(f, d.View(), b.disk)
  {
    hide Ready, Sorted, Distinct, Shape, Ring, Schedule, Mirrors, Shows, Resting, Slept, InOrder, Clear, Added;
    ghost var c, m, e := s.Now(), Snapshot(f.Keys), Snapshot(s.Everyone());
    ShownMeans(f, s, k);
    AddNamed(f, d.View(), k.disk, s.current);
    TransferFacts(s, d, f.Keys);
    SleptShows(f, c, e, m, s, k, K.Blocked(k, Uninterruptible).(disk := Added(k.disk, k.cpu.current)));
  }

  method EndOne(s: Scheduler, d: RequestList, ghost all: set<Task>)
    requires s.Scheduling() && d.Working(s) && d.inUsing != null
    modifies d`inUsing, d`count, d`completed, d.q`ring, d.q.ring
    modifies s`queue, s`ring, s`count, s.ring, s.current`need, d.Busy()`status, d.BusyNode()
    ensures s.Scheduling() && d.Working(s) && d.View() == Ended(old(d.View()))
    ensures Queued(s, old(d.inUsing.owner))
    ensures forall x <- all :: x.AsFacts() == RaisedFact(old(x.AsFacts()), x == old(d.inUsing.owner), x
              == old(s.current))
  {
    hide Ready, Sorted, Distinct, Shape, Ring, Put, Resting, Snapshot, InOrder, Clear, Ended;
    assert Sleeper(s, d.inUsing.owner);
    d.EndRequest(s);
  }

  /** end_request is the event DiskDone. */
  method DiskDone(s: Scheduler, d: RequestList, ghost f: map<Task, nat>, ghost k: K.Machine)
    requires s.Scheduling() && d.Working(s) && d.inUsing != null && Shows(f, s, k)
    requires NamedRequests(f, d.View(), k.disk)
    modifies d`inUsing, d`count, d`completed, d.q`ring, d.q.ring
    modifies s`queue, s`ring, s`count, s.ring, s.current`need, d.Busy()`status, d.BusyNode()
    ensures s.Scheduling() && d.Working(s) && K.Scheduling(k) && (k.disk.count != 0 ==> k.disk.waiting != [])
    ensures NamedRequests(f, d.View(), Ended(k.disk)) && k.disk.busy.value in k.tasks
    ensures Shows(f, s, K.Woken(k.(disk := Ended(k.disk)), k.disk.busy.value))
  {
    hide Ready, Sorted, Distinct, Shape, Ring, Mirrors, Shows, Resting, FirstPut, Put, InOrder, Clear, Ended, Raised;
    ghost var c, m, t := s.Now(), Snapshot(f.Keys), d.inUsing.owner;
    ghost var e := Snapshot(s.Everyone() + {t});
    assert Sleeper(s, t);
    ShownMeans(f, s, k);
    WaitersKnown(f, s, k, [t], [k.disk.busy.value]);
    CountIsLength(d.View());
    EndNamed(f, d.View(), k.disk);
    EndOne(s, d, f.Keys);
    ghost var b := k.(disk := Ended(k.disk));
    OtherLists(f, c, m, s.idle, k, b);
    RaisedAll(m, c.current, t, Snapshot(f.Keys));
    PutAmongAll(c, e, m, t, s, f.Keys);
    PutShows(f, c, m, t, s, b);
  }

  // ---- fork

  method ForkOne(s: Scheduler, ghost all: set<Task>) returns (child: Task)
    requires s.Scheduling() && s.current.vrun <= LONG_MAX && s.Everyone() <= all
    modifies s`queue, s`ring, s`count, s.ring, s.current`need
    ensures s.Scheduling() && fresh(child) && s.current == old(s.current)
    ensures forall i :: 0 <= i < |old(s.queue)| ==> old(s.queue)[i] in old(Snapshot(s.Everyone()))
    ensures s.Now() == Put(old(s.Now()), Forked(old(Snapshot(s.Everyone())), s.current, child), s.idle, child)
    ensures Snapshot(all + {child}) == Raised(Forked(old(Snapshot(all)), s.current, child), s.current, child)
  {
    hide Ready, Sorted, Distinct, Shape, Ring, Put;
    child := ForkTask(s);
  }

  lemma ForkMirrors<T>(f: map<T, nat>, c: Cpu<T>, m: map<T, Facts>, idle: T, k: K.Machine, child: T, n: nat)
    requires Mirrors(f, c, m, idle, k) && child !in m && child !in f && n !in k.tasks && m.Keys == f.Keys
    ensures k.cpu.current in k.tasks && c.current in m && child !in c.queue
    ensures forall i :: 0 <= i < |k.cpu.queue| ==> k.cpu.queue[i] in k.tasks
    ensures Mirrors(f[child := n], c, Forked(m, c.current, child), idle, K.Copied(k, n))
  {
    ReadyNamed(f, c, m, idle, k);
    hide Distinct;
    StillSorted(c.queue, m, Forked(m, c.current, child));
  }

  /** The part of do_fork that concerns the scheduler is the event Fork; the new task gets the number n. */
  method Fork(s: Scheduler, ghost f: map<Task, nat>, ghost k: K.Machine, ghost n: nat)
      returns (child: Task, ghost g: map<Task, nat>)
    requires s.Scheduling() && s.current.vrun <= LONG_MAX && Shows(f, s, k) && n !in k.tasks
    modifies s`queue, s`ring, s`count, s.ring, s.current`need
    ensures s.Scheduling() && fresh(child) && g == f[child := n] && k.cpu.current in k.tasks
    ensures forall i :: 0 <= i < |k.cpu.queue| ==> k.cpu.queue[i] in k.tasks
    ensures Shows(g, s, K.Woken(K.Copied(k, n), n))
  {
    hide Ready, Sorted, Distinct, Shape, Ring, Mirrors, Shows, FirstPut, Put, Raised, Forked;
    ghost var c, m, e := s.Now(), Snapshot(f.Keys), Snapshot(s.Everyone());
    ShownMeans(f, s, k);
    child := ForkOne(s, f.Keys);
    g := f[child := n];
    assert g.Keys == f.Keys + {child};
    ForkMirrors(f, c, m, s.idle, k, child, n);
    ForkWithin(e, m, c.current, child);
    PutAmongAll(c, Forked(e, c.current, child), Forked(m, c.current, child), child, s, g.Keys);
    PutShows(g, c, Forked(m, c.current, child), child, s, K.Copied(k, n));
  }

  lemma ForkWithin<T>(e: map<T, Facts>, m: map<T, Facts>, current: T, child: T)
    requires Within(e, m) && current in e
    ensures Within(Forked(e, current, child), Forked(m, current, child)) && child in Forked(e, current, child)
    ensures current in m && current in Forked(m, current, child) && forall t <- e :: t in Forked(e, current, child)
  {}

  // ---- exit

  /** The state of the current task, beside a queue. */
  method Mark(s: Scheduler, q: WaitQueue, how: Status, ghost f: map<Task, nat>, ghost k: K.Machine)
    requires s.Scheduling() && Resting(q, s) && Shows(f, s, k)
    modifies s.current`status
    ensures s.Scheduling() && Resting(q, s) && s.current.status == how && k.cpu.current in k.tasks
    ensures Shows(f, s, K.Blocked(k, how))
  {
    hide Ready, Sorted, Distinct, Shape, Ring, Clear;
    ghost var c, m := s.Now(), Snapshot(f.Keys);
    ShownMeans(f, s, k);
    MarkCurrent(s, how, q.ring, Around(q, s));
    ghost var x := s.current.AsFacts();
    assert Snapshot(f.Keys) == m[s.current := x];
    CurrentMirrors(f, c, m, s.idle, k, x, s.slice);
    assert K.Blocked(k, how) == K.WithCurrent(k, x).(cpu := k.cpu.(slice := s.slice));
  }

  method LeaveFacts(s: Scheduler, q: WaitQueue, ghost all: set<Task>)
    requires s.Scheduling() && s.current.status != Running && s.current != s.idle && Resting(q, s)
    requires s.Everyone() <= all && Ready(s.Now(), Snapshot(all), s.idle)
    modifies s`current, s`queue, s`ring, s`count, s`slice, s.ring, s.current`need, s.current.list, s.idle.list
    ensures s.Scheduling() && Resting(q, s) && Sleeper(s, old(s.current))
    ensures s.Now() == Schedule(old(s.Now()), old(Snapshot(all)), s.idle)
    ensures Snapshot(all) == Unmarked(old(Snapshot(all)), old(s.current))
  {
    hide Ready, Sorted, Distinct, Shape, Ring, Schedule, Clear;
    ghost var c, m, e := s.Now(), Snapshot(all), Snapshot(s.Everyone());
    LeaveTo(s, q);
    SameChoice(c, e, m, s.idle);
  }

  /** schedule() beside a queue, by a task that is not to run. */
  method Leave(s: Scheduler, q: WaitQueue, ghost f: map<Task, nat>, ghost k: K.Machine)
    requires s.Scheduling() && s.current.status != Running && s.current != s.idle && Resting(q, s) && Shows(f, s, k)
    modifies s`current, s`queue, s`ring, s`count, s`slice, s.ring, s.current`need, s.current.list, s.idle.list
    ensures s.Scheduling() && Resting(q, s) && Sleeper(s, old(s.current))
    ensures K.Scheduling(k) && Shows(f, s, K.Rescheduled(k))
  {
    hide Ready, Sorted, Distinct, Shape, Ring, Schedule, Mirrors, Shows, Resting, Sleeper, Snapshot;
    ghost var c, m := s.Now(), Snapshot(f.Keys);
    ShownMeans(f, s, k);
    MirrorsReady(f, c, m, s.idle, k);
    RescheduleMirrors(f, c, m, s.idle, k);
    LeaveFacts(s, q, f.Keys);
    MirrorsShows(f, s, K.Rescheduled(k));
  }

  /** exit_notify */
  method Notify(s: Scheduler, q: WaitQueue, ghost f: map<Task, nat>, ghost k: K.Machine, ghost ch: K.Channel)
    requires s.Scheduling() && Resting(q, s) && Shows(f, s, k) && Named(f, q.Waiting(), K.Waiters(k.waits, ch))
    modifies q`ring, q.ring, s`queue, s`ring, s`count, s.ring, s.current`need, First(q)`status, FirstNode(q)
    ensures s.Scheduling() && Resting(q, s) && K.Scheduling(k)
    ensures forall n <- s.ring :: n in old(s.ring) || n in old(FirstNode(q))
    ensures forall i :: 0 <= i < |K.Waiters(k.waits, ch)| ==> K.Waiters(k.waits, ch)[i] in k.tasks
    ensures var r := K.WokenFrom(k, ch, {Interruptible});
      Shows(f, s, r) && Named(f, q.Waiting(), K.Waiters(r.waits, ch))
  {
    hide Ready, Sorted, Distinct, Shape, Ring, Mirrors, Shows, Resting, Snapshot, Named, K.WokenFrom;
    RingNodes(s);
    Wake(s, q, {Interruptible}, f, k, ch);
    RingNodes(s);
  }

  /** do_exit, with exit_notify in it, is the event Exit; q is the queue of the parent, the channel of the number p. */
  method Exit(s: Scheduler, q: WaitQueue, ghost f: map<Task, nat>, ghost k: K.Machine, ghost p: nat)
    requires s.Scheduling() && Resting(q, s) && s.current != s.idle && Shows(f, s, k)
    requires Named(f, q.Waiting(), K.Waiters(k.waits, K.ChildExit(p)))
    modifies q`ring, q.ring, s`current, s`queue, s`ring, s`count, s`slice, s.ring, s.current`need, s.current`status,
             s.current.list, s.idle.list, First(q)`status, FirstNode(q)
    ensures s.Scheduling() && Resting(q, s) && k.cpu.current in k.tasks && K.Scheduling(K.Blocked(k, Zombie))
    ensures forall i :: 0 <= i < |K.Waiters(k.waits, K.ChildExit(p))| ==>
              K.Waiters(k.waits, K.ChildExit(p))[i] in k.tasks
    ensures var r := K.WokenFrom(K.Blocked(k, Zombie), K.ChildExit(p), {Interruptible});
      && K.Scheduling(r) && Shows(f, s, K.Rescheduled(r))
      && Named(f, q.Waiting(), K.Waiters(r.waits, K.ChildExit(p)))
  {
    hide Ready, Sorted, Distinct, Shape, Ring, Schedule, Mirrors, Shows, Resting, Snapshot;
    FirstSleeps(s, q);
    Mark(s, q, Zombie, f, k);
    ghost var ch, b := K.ChildExit(p), K.Blocked(k, Zombie);
    Notify(s, q, f, b, ch);
    Leave(s, q, f, K.WokenFrom(b, ch, {Interruptible}));
  }
}
