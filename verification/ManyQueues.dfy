// Several wait queues beside one scheduler: what is done to one leaves the others as they are.
module ManyQueues {
  import opened Cfs
  import opened Queueing
  import opened RunQueue
  import opened Processor

  /** A scheduler, the queue that something is done to, and another one. */
  datatype Setting = Setting(s: Scheduler, q: WaitQueue, p: WaitQueue)

  /**
    Both queues are in order, and have nothing in common: no node, no task, and no node their tasks are queued
    with.
   */
  ghost predicate Beside(s: Scheduler, q: WaitQueue, p: WaitQueue)
    reads p, p.ring, q, q.ring, s, Around(p, s), Around(q, s)
  {
    && Resting(q, s) && Resting(p, s)
    && p != q && (forall n <- p.ring :: n !in q.ring) && (forall t <- p.Waiting() :: t !in q.Waiting())
    && Clear(p.ring, Around(q, s)) && Clear(q.ring, Around(p, s))
  }

  /** What has been done to the scheduler and to q was done to no other queue. */
  twostate lemma StaysBeside(x: Setting)
    requires old(Beside(x.s, x.q, x.p)) && x.s.Scheduling() && Resting(x.q, x.s)
    requires forall n <- x.q.ring :: n in old(x.q.ring) || fresh(n)
    requires forall t <- Around(x.q, x.s) :: t in old(Around(x.q, x.s))
    requires unchanged(x.p) && forall n <- x.p.ring :: unchanged(n)
    requires forall t <- old(Around(x.q, x.s) + Around(x.p, x.s)) :: t.list == old(t.list) && t.vrun == old(t.vrun)
    ensures Beside(x.s, x.q, x.p)
  {
    hide Ring, Sorted, Ready, Distinct, Shape;
    var s, q, p := x.s, x.q, x.p;
    assert forall i :: 0 <= i < |p.ring| ==> p.ring[i] in p.ring;
    RingStill(p.ring);
    assert Around(p, s) <= old(Around(p, s) + Around(q, s));
    assert p.Waiting() == old(p.Waiting());
    forall t | t in p.Waiting() ensures t !in Around(q, s) && Sleeper(s, t) { assert old(Sleeper(s, t)); }
    assert Clear(p.ring, Around(q, s));
    forall i, t | 0 <= i < |q.ring| && t in Around(p, s) ensures t.list != q.ring[i] {
      if t in old(Around(p, s)) && q.ring[i] in old(q.ring) { assert old(Clear(q.ring, Around(p, s))); }
    }
    assert Clear(q.ring, Around(p, s));
    assert forall n <- p.ring :: n !in q.ring;
  }

  /** The nodes of a queue in order are none of the scheduler's. */
  lemma NodesApart(s: Scheduler, q: WaitQueue, p: WaitQueue)
    requires s.Valid() && Beside(s, q, p)
    ensures Resting(q, s) && p != q && forall n <- p.ring :: n !in q.ring
    ensures forall n <- p.ring, t <- First(q) :: n != t.list
    ensures forall t <- p.Waiting() :: t !in First(q)
    ensures forall n <- p.ring :: n !in s.ring && n != s.current.list && n != s.idle.list
    ensures forall t <- p.Waiting() :: t != s.current
  {
    RingApart(p, s);
  }

  /** sleep_on, beside another queue. */
  method SleepBeside(s: Scheduler, q: WaitQueue, how: Status, ghost p: WaitQueue)
    requires s.Scheduling() && Beside(s, q, p) && s.current != s.idle && how != Running
    modifies s`current, s`queue, s`ring, s`count, s`slice, s.ring, s.current`need, s.current`status, s.current.list,
             s.idle.list, q`ring, q.ring
    ensures s.Scheduling() && Beside(s, q, p)
    ensures q.Waiting() == old(q.Waiting()) + [old(s.current)] && p.Waiting() == old(p.Waiting())
    ensures forall t <- p.Waiting() :: t.status == old(t.status)
  {
    hide Ring, Sorted, Ready, Distinct, Shape, Schedule, Dozing, Snapshot, Clear, Resting, Beside;
    NodesApart(s, q, p);
    SleepOn(s, q, how);
    StaysBeside(Setting(s, q, p));
  }

  /** wakeup, beside another queue. */
  method WakeupBeside(s: Scheduler, q: WaitQueue, mask: set<Status>, ghost p: WaitQueue)
    requires s.Scheduling() && Beside(s, q, p)
    modifies q`ring, q.ring, s`queue, s`ring, s`count, s.ring, s.current`need, First(q)`status, FirstNode(q)
    ensures s.Scheduling() && Beside(s, q, p) && p.Waiting() == old(p.Waiting())
    ensures forall t <- p.Waiting() :: t.status == old(t.status)
  {
    hide Ring, Sorted, Ready, Distinct, Shape, Put, Snapshot, Queued, Clear, Resting, Beside;
    NodesApart(s, q, p);
    Wakeup(s, q, mask);
    StaysBeside(Setting(s, q, p));
  }

  /** semaphore_up, beside another queue. */
  method UpBeside(s: Scheduler, sem: CountingSemaphore, ghost p: WaitQueue)
    requires s.Scheduling() && Beside(s, sem.q, p) && Counted(sem.View())
    modifies sem`counter, sem`ups, sem`granted
    modifies sem.q`ring, sem.q.ring, s`queue, s`ring, s`count, s.ring, s.current`need, First(sem.q)`status,
             FirstNode(sem.q)
    ensures s.Scheduling() && Beside(s, sem.q, p) && sem.View() == Upped(old(sem.View()))
    ensures p.Waiting() == old(p.Waiting()) && forall t <- p.Waiting() :: t.status == old(t.status)
  {
    hide Ring, Sorted, Ready, Distinct, Shape, Put, Snapshot, Queued, Clear, Resting, Beside, Counted, Upped;
    NodesApart(s, sem.q, p);
    sem.Up(s);
    StaysBeside(Setting(s, sem.q, p));
  }

  /** semaphore_down, beside another queue. */
  method DownBeside(s: Scheduler, sem: CountingSemaphore, ghost p: WaitQueue)
    requires s.Scheduling() && Beside(s, sem.q, p) && Counted(sem.View()) && (s.current != s.idle || sem.counter > 0)
    modifies sem`counter, sem`asked, sem`granted
    modifies s`current, s`queue, s`ring, s`count, s`slice, s.ring, s.current`need, s.current`status, s.current.list,
             s.idle.list, sem.q`ring, sem.q.ring
    ensures s.Scheduling() && Beside(s, sem.q, p) && sem.View() == Downed(old(sem.View()), old(s.current))
    ensures p.Waiting() == old(p.Waiting()) && forall t <- p.Waiting() :: t.status == old(t.status)
  {
    hide Ring, Sorted, Ready, Distinct, Shape, Schedule, Dozing, Snapshot, Clear, Resting, Beside, Counted, Downed;
    NodesApart(s, sem.q, p);
    sem.Down(s);
    StaysBeside(Setting(s, sem.q, p));
  }
}
