// Ticks, sleeping and waking, semaphores, the request list of the disk, fork and exit on the lists as
// they are in memory: intrusive rings of wait nodes beside the ring of the run queue.
module Processor {
  import opened Common
  import opened Cfs
  import opened Queueing
  import opened RunQueue

  // ---- HPET.c

  /** The accounting half of HPET_handler: what the current task gains in vrun_time the slice loses. */
  method HpetTick(s: Scheduler)
    requires s.Scheduling() && s.current.vrun <= LONG_MAX - 2
    modifies s`slice, s.current`vrun, s.current`need
    ensures s.Scheduling() && s.Now() == old(s.Now()).(slice := s.slice) && s.current == old(s.current)
    ensures s.slice + s.current.vrun == old(s.slice) + old(s.current.vrun)
    ensures s.slice == old(s.slice) - (if s.current.priority == 0 || s.current.priority == 1 then 1 else 2)
    ensures s.current.need <==> old(s.current.need) || s.slice <= 0
  {
    hide Shape, Ring, Sorted, Distinct, Ready;
    ghost var c, m := s.Now(), Snapshot(s.Everyone());
    match s.current.priority {
      case 0 => s.slice := s.slice - 1; s.current.vrun := s.current.vrun + 1;
      case 1 => s.slice := s.slice - 1; s.current.vrun := s.current.vrun + 1;
      case _ => s.slice := s.slice - 2; s.current.vrun := s.current.vrun + 2;
    }
    if s.slice <= 0 { s.current.need := true; }
    Reordered(c, m, Snapshot(s.Everyone()), s.idle, s.slice);
  }

  /** The order of the queue does not depend on the current task, nor on the slice. */
  lemma Reordered(c: Cpu<Task>, m: map<Task, Facts>, n: map<Task, Facts>, idle: Task, slice: int)
    requires Ready(c, m, idle) && n.Keys == m.Keys && forall t :: t in m && t != c.current ==> n[t].vrun == m[t].vrun
    ensures Ready(c.(slice := slice), n, idle)
  {}

  // ---- wait queues

  /** A wait queue: its head, then the wait nodes of the sleeping tasks. The owner of a wait node is its task. */
  class WaitQueue {
    const head: Node
    ghost var ring: seq<Node>

    constructor (tsk: Task)
      ensures Valid() && Waiting() == [] && fresh(head) && ring == [head]
    {
      head := new Node(tsk);
      new;
      ListInit(head);
      ring := [head];
    }

    ghost predicate Valid()
      reads this, ring
    {
      Ring(ring) && ring[0] == head
    }

    /** The tasks that wait, in order. */
    ghost function Waiting(): (w: seq<Task>)
      reads this
      ensures |ring| > 0 ==> |w| == |ring| - 1
    {
      Owners(ring)
    }

    /** Put a wait node at the end. */
    method Append(node: Node)
      requires Valid() && node !in ring
      modifies this`ring, ring, node
      ensures Valid() && ring == old(ring) + [node] && Waiting() == old(Waiting()) + [node.owner]
    {
      ghost var r := ring;
      ring := InsertedAt(ring, |ring|, node);
      ListAddToBefore(head, node, r, 0);
      assert ring == r + [node];
    }

    /** Take the first wait node off. */
    method TakeFirst() returns (node: Node)
      requires Valid() && Waiting() != []
      modifies this`ring, ring
      ensures Valid() && node == old(ring)[1] && ring == old(ring)[..1] + old(ring)[2..]
      ensures old(Waiting()) == [node.owner] + Waiting() && node !in ring
    {
      assert Follows(ring[0], ring[Succ(|ring|, 0)]);
      node := head.next;
      ghost var r := ring;
      ring := ring[..1] + ring[2..];
      ListDel(node, r, 1);
      OwnersTail(r);
    }
  }

  ghost function Owners(ring: seq<Node>): (w: seq<Task>)
    ensures |ring| > 0 ==> |w| == |ring| - 1
  {
    if ring == [] then [] else seq(|ring| - 1, i requires 0 <= i < |ring| - 1 => ring[i + 1].owner)
  }

  lemma OwnersTail(r: seq<Node>)
    requires |r| > 1 && NoRepeat(r)
    ensures Owners(r) == [r[1].owner] + Owners(r[..1] + r[2..]) && r[1] !in r[..1] + r[2..]
  {
    var s := r[..1] + r[2..];
    forall i | 0 <= i < |s| ensures s[i] == r[if i == 0 then 0 else i + 1] && s[i] != r[1] {}
    forall i | 0 <= i < |r| - 1 ensures Owners(r)[i] == ([r[1].owner] + Owners(s))[i] {}
  }

  // ---- semaphore.h: waking and sleeping

  /** A task that is not current and not queued, and has a node to be queued with. */
  ghost predicate Sleeper(s: Scheduler, t: Task)
    reads s, t
  {
    s.Noded(t) && t !in s.Everyone()
  }

  /** Task t now stands in its place in the run queue, and the current task is asked to give way. */
  twostate predicate Queued(s: Scheduler, t: Task)
    reads s, s.current
  {
    var m := old(Snapshot(s.Everyone() + {t}));
    && s.current.need && (forall k :: 0 <= k < |old(s.queue)| ==> old(s.queue)[k] in m)
    && s.Now() == Put(old(s.Now()), m, s.idle, t)
  }

  /** wakeup_process: t is put in its place in the run queue, and the current task is asked to give way. */
  method WakeupProcess(s: Scheduler, t: Task)
    requires s.Scheduling() && Sleeper(s, t)
    modifies s`queue, s`ring, s`count, s.ring, t.list, t`status, s.current`need
    ensures s.Scheduling() && t.status == Running && Queued(s, t)
    ensures forall x :: x in s.queue <==> x in old(s.queue) || x == t
  {
    hide Shape, Ring, Sorted, Distinct, Ready, Put;
    ghost var c, m := s.Now(), Snapshot(s.Everyone() + {t});
    Queueable(s, t, m);
    t.status := Running;
    s.InsertTaskQueue(t, m);
    PutKeeps(c, m, s.idle, t);
    s.current.need := true;
    Requeued(s, c, m, t);
  }

  /** What insert_task_queue needs to know of the tasks. */
  lemma Queueable(s: Scheduler, t: Task, m: map<Task, Facts>)
    requires s.Scheduling() && Sleeper(s, t) && m == Snapshot(s.Everyone() + {t})
    ensures Knows(m, s.queue) && t in m && m[t].vrun == t.vrun && s.Loose(t)
    ensures Sorted(s.queue, m) && Distinct(s.queue) && s.idle !in s.queue && s.count == |s.queue| + 1
    ensures s.current !in s.queue && s.idle in m && s.current in m && s.current != s.head
  {}

  lemma Requeued(s: Scheduler, c: Cpu<Task>, m: map<Task, Facts>, t: Task)
    requires s.Valid() && t in m && t !in c.queue && t != s.idle && t != c.current && c.current in m && s.idle in m
    requires Sorted(c.queue, m) && Distinct(c.queue) && s.idle !in c.queue && c.count == |c.queue| + 1
    requires c.current !in c.queue
    requires (forall i :: 0 <= i < |c.queue| ==> c.queue[i] in m) && s.Now() == Put(c, m, s.idle, t)
    requires m.Keys == {c.current, s.idle, t} + (set x | x in c.queue) && forall x <- m :: m[x].vrun == x.vrun
    requires c.current != s.idle ==> s.Noded(c.current)
    ensures s.Scheduling() && forall x :: x in s.queue <==> x in c.queue || x == t
  {
    PutKeeps(c, m, s.idle, t);
    hide Put, Sorted, Distinct;
    assert s.Everyone() == m.Keys;
    StillReady(s.Now(), m, Snapshot(s.Everyone()), s.idle);
  }

  /** None of the nodes is one that a task of the set would be queued with. */
  ghost predicate Clear(ring: seq<Node>, ts: set<Task>)
    reads ts
  {
    forall i, t :: 0 <= i < |ring| && t in ts ==> t.list != ring[i]
  }

  /** The tasks a scheduler knows, its sentinel, and those of a wait queue. */
  ghost function Around(q: WaitQueue, s: Scheduler): set<Task>
    reads q, s
  {
    s.Everyone() + {s.head} + set t | t in q.Waiting()
  }

  /** The nodes of a wait queue are not those of the run queue, nor those its tasks would be queued with. */
  ghost predicate Apart(q: WaitQueue, s: Scheduler)
    reads q, s, Around(q, s)
  {
    Clear(q.ring, Around(q, s))
  }

  /** A wait queue in order: each of its tasks waits there once, and nowhere in the run queue. */
  ghost predicate Resting(q: WaitQueue, s: Scheduler)
    reads q, q.ring, s, Around(q, s)
  {
    q.Valid() && Apart(q, s) && Distinct(q.Waiting()) && forall t <- q.Waiting() :: Sleeper(s, t)
  }

  lemma RingApart(q: WaitQueue, s: Scheduler)
    requires s.Valid() && Apart(q, s)
    ensures forall i :: 0 <= i < |s.ring| ==> s.ring[i] !in q.ring
    ensures forall n <- q.ring :: n !in s.ring
  {
    forall i | 0 <= i < |s.ring| ensures s.ring[i] !in q.ring {
      assert s.ring[i] == if i == 0 then s.head.list else s.queue[i - 1].list;
    }
  }

  /** schedule() by a task that is not to run: another one becomes current, and it is in no queue. */
  method ScheduleAway(s: Scheduler)
    requires s.Scheduling() && s.current.status != Running && s.current != s.idle
    modifies s`current, s`queue, s`ring, s`count, s`slice, s.ring, s.current`need, s.current.list, s.idle.list
    ensures s.Scheduling() && Sleeper(s, old(s.current)) && s.Everyone() == old(s.Everyone()) - {old(s.current)}
    ensures Ready(old(s.Now()), old(Snapshot(s.Everyone())), s.idle)
    ensures s.Now() == Schedule(old(s.Now()), old(Snapshot(s.Everyone())), s.idle)
    ensures !old(s.current).need
  {
    hide Shape, Ring, Sorted, Distinct, Ready, Schedule;
    ghost var c, m := s.Now(), Snapshot(s.Everyone());
    Known(s);
    ScheduleKeeps(c, m, s.idle);
    s.Schedule();
    SameChoice(c, m, Snapshot(old(s.Everyone())), s.idle);
    Gone(c, m, s.idle, s.Now());
  }

  lemma Known(s: Scheduler)
    requires s.Scheduling()
    ensures Ready(s.Now(), Snapshot(s.Everyone()), s.idle) && s.current in Snapshot(s.Everyone())
    ensures s.current != s.idle ==> s.Noded(s.current)
  {}

  lemma Gone(c: Cpu<Task>, m: map<Task, Facts>, idle: Task, r: Cpu<Task>)
    requires Ready(c, m, idle) && r == Schedule(c, m, idle) && m[c.current].status != Running && c.current != idle
    requires m.Keys == {c.current, idle} + set t | t in c.queue
    ensures r.current != c.current && c.current !in r.queue
    ensures {r.current, idle} + (set t | t in r.queue) == m.Keys - {c.current}
  {
    ScheduleKeeps(c, m, idle);
  }

  /** sleep_on and interruptible_sleep_on. */
  method SleepOn(s: Scheduler, q: WaitQueue, how: Status)
    requires s.Scheduling() && Resting(q, s) && s.current != s.idle && how != Running
    modifies s`current, s`queue, s`ring, s`count, s`slice, s.ring, s.current`need, s.current`status, s.current.list,
             s.idle.list,
             q`ring, q.ring
    ensures s.Scheduling() && Resting(q, s) && s.Everyone() == old(s.Everyone()) - {old(s.current)}
    ensures q.Waiting() == old(q.Waiting()) + [old(s.current)] && old(s.current).status == how && !old(s.current).need
    ensures Ready(old(s.Now()), Dozing(old(Snapshot(s.Everyone())), old(s.current), how), s.idle)
    ensures s.Now() == Schedule(old(s.Now()), Dozing(old(Snapshot(s.Everyone())), old(s.current), how), s.idle)
    ensures forall n <- q.ring :: n in old(q.ring) || fresh(n)
  {
    hide Sorted, Distinct, Ready, Schedule, Ring, Shape, Owners, Apart;
    Enqueue(s, q, how);
    LeaveTo(s, q);
  }

  /** schedule() beside a wait queue that the current task has joined. */
  method LeaveTo(s: Scheduler, q: WaitQueue)
    requires s.Scheduling() && s.current.status != Running && s.current != s.idle
    requires q.Valid() && Apart(q, s) && Distinct(q.Waiting())
    requires forall t <- q.Waiting() :: t == s.current || Sleeper(s, t)
    modifies s`current, s`queue, s`ring, s`count, s`slice, s.ring, s.current`need, s.current.list, s.idle.list
    ensures s.Scheduling() && Resting(q, s) && s.Everyone() == old(s.Everyone()) - {old(s.current)}
    ensures Sleeper(s, old(s.current)) && Clear(q.ring, old(Around(q, s))) && !old(s.current).need
    ensures Ready(old(s.Now()), old(Snapshot(s.Everyone())), s.idle)
    ensures s.Now() == Schedule(old(s.Now()), old(Snapshot(s.Everyone())), s.idle)
  {
    hide Sorted, Distinct, Ready, Schedule, Ring, Shape;
    RingApart(q, s);
    ghost var ts := Around(q, s);
    ScheduleAway(s);
    assert forall i :: 0 < i < |q.ring| ==> q.ring[i].owner.list == old(q.ring[i].owner.list);
    assert Clear(q.ring, ts);
    assert Around(q, s) <= ts;
    forall i | 0 < i < |q.ring| ensures Sleeper(s, q.ring[i].owner) {
      var t := q.ring[i].owner;
      assert old(q.Waiting())[i - 1] == t;
      if t != old(s.current) { assert old(Sleeper(s, t)) && t.list == old(t.list) && t.vrun == old(t.vrun); }
    }
  }

  /** The current task is marked, and its wait node put at the end of the queue. */
  method Enqueue(s: Scheduler, q: WaitQueue, how: Status)
    requires s.Scheduling() && Resting(q, s) && s.current != s.idle
    modifies s.current`status, q`ring, q.ring
    ensures s.Scheduling() && q.Valid() && Apart(q, s) && Distinct(q.Waiting())
    ensures q.Waiting() == old(q.Waiting()) + [s.current] && s.current.status == how
    ensures forall t <- q.Waiting() :: t == s.current || Sleeper(s, t)
    ensures Snapshot(s.Everyone()) == Dozing(old(Snapshot(s.Everyone())), s.current, how)
    ensures forall n <- q.ring :: n in old(q.ring) || fresh(n)
  {
    hide Ring, Sorted, Ready, Distinct, Shape, Dozing, Snapshot, Clear;
    AppendDistinct(q.Waiting(), s.current);
    RingApart(q, s);
    ghost var ts := Around(q, s);
    MarkCurrent(s, how, q.ring, ts);
    AddNode(s, q);
    ClearLess(q.ring, ts, Around(q, s));
  }

  lemma ClearLess(ring: seq<Node>, ts: set<Task>, us: set<Task>)
    requires Clear(ring, ts) && us <= ts
    ensures Clear(ring, us)
  {}

  /** The wait node itself. */
  method AddNode(s: Scheduler, q: WaitQueue)
    requires s.Scheduling() && q.Valid() && Apart(q, s)
    modifies q`ring, q.ring
    ensures s.Scheduling() && q.Valid() && Clear(q.ring, old(Around(q, s)))
    ensures q.Waiting() == old(q.Waiting()) + [s.current]
    ensures forall i :: 0 <= i < |q.ring| ==> q.ring[i] in old(q.ring) || fresh(q.ring[i])
    ensures s.Now() == old(s.Now()) && Snapshot(s.Everyone()) == old(Snapshot(s.Everyone()))
  {
    hide Ring, Sorted, Ready, Distinct, Shape, Snapshot;
    RingApart(q, s);
    var wait := new Node(s.current);
    ListInit(wait);
    q.Append(wait);
    SchedulerStill(s);
  }

  lemma AppendDistinct<T>(w: seq<T>, t: T)
    requires Distinct(w) && t !in w
    ensures Distinct(w + [t])
  {}

  twostate lemma RingStill(r: seq<Node>)
    requires forall i :: 0 <= i < |r| ==> unchanged(r[i])
    ensures Ring(r) == old(Ring(r))
  {
    assert forall i :: 0 <= i < |r| ==> Follows(r[i], r[Succ(|r|, i)]) == old(Follows(r[i], r[Succ(|r|, i)]));
  }

  /** A scheduler does not notice what happens to other nodes. */
  twostate lemma SchedulerStill(s: Scheduler)
    requires unchanged(s) && unchanged(s.head) && unchanged(s.current) && unchanged(s.idle)
    requires (forall i :: 0 <= i < |old(s.ring)| ==> unchanged(old(s.ring)[i]))
              && forall t <- old(s.queue) :: unchanged(t)
    requires old(s.Scheduling())
    ensures s.Scheduling() && s.Now() == old(s.Now()) && Snapshot(s.Everyone()) == old(Snapshot(s.Everyone()))
  {
    RingStill(s.ring);
    assert s.queue == old(s.queue) && s.Everyone() == old(s.Everyone());
    assert forall t <- s.Everyone() :: t.AsFacts() == old(t.AsFacts());
  }

  /** m with task t in state how. */
  ghost function Dozing<T>(m: map<T, Facts>, t: T, how: Status): map<T, Facts>
  {
    if t in m then m[t := m[t].(status := how)] else m
  }

  /** `current->state = how` */
  method MarkCurrent(s: Scheduler, how: Status, ghost ring: seq<Node>, ghost ts: set<Task>)
    requires s.Scheduling() && Clear(ring, ts)
    modifies s.current`status
    ensures s.Scheduling() && s.current.status == how && Clear(ring, ts)
    ensures Snapshot(s.Everyone()) == Dozing(old(Snapshot(s.Everyone())), s.current, how)
  {
    hide Shape, Ring, Sorted, Distinct, Ready;
    ghost var m := Snapshot(s.Everyone());
    s.current.status := how;
    StillReady(s.Now(), m, Snapshot(s.Everyone()), s.idle);
  }

  /** The first waiter, if there is one. */
  ghost function First(q: WaitQueue): set<Task>
    reads q
  {
    if q.Waiting() != [] then {q.Waiting()[0]} else {}
  }

  ghost function FirstNode(q: WaitQueue): set<Node?>
    reads q, First(q)
  {
    if q.Waiting() != [] then {q.Waiting()[0].list} else {}
  }

  /** The first waiter has left the queue, and stands in its place in the run queue. */
  twostate predicate FirstWoken(s: Scheduler, q: WaitQueue)
    reads s, q, s.current
  {
    old(q.Waiting()) != [] && q.Waiting() == old(q.Waiting())[1..] && Queued(s, old(q.Waiting()[0]))
  }

  lemma TakeDistinct<T>(w: seq<T>)
    requires Distinct(w) && w != []
    ensures Distinct(w[1..]) && w[0] !in w[1..] && forall t :: t in w[1..] ==> t in w
  {
    TailDistinct(w);
  }

  /** list_del of the first wait node. */
  method TakeOff(s: Scheduler, q: WaitQueue) returns (node: Node)
    requires s.Scheduling() && q.Valid() && Apart(q, s) && Distinct(q.Waiting()) && q.Waiting() != []
    modifies q`ring, q.ring
    ensures s.Scheduling() && s.Now() == old(s.Now()) && Snapshot(s.Everyone()) == old(Snapshot(s.Everyone()))
    ensures q.Valid() && Clear(q.ring, old(Around(q, s))) && Distinct(q.Waiting())
    ensures node.owner == old(q.Waiting())[0] && q.Waiting() == old(q.Waiting())[1..] && node.owner !in q.Waiting()
    ensures forall n <- q.ring :: n in old(q.ring)
  {
    hide Ring, Sorted, Ready, Distinct, Shape, Snapshot;
    RingApart(q, s);
    TakeDistinct(q.Waiting());
    ghost var r, ts := q.ring, Around(q, s);
    node := q.TakeFirst();
    SchedulerStill(s);
    forall i | 0 < i < |r| ensures r[i].owner.list == old(r[i].owner.list) {}
    assert Clear(r, ts);
    assert forall i :: 0 <= i < |q.ring| ==> q.ring[i] == r[if i == 0 then 0 else i + 1];
  }

  /** list_del of the first wait node, and the task behind it is woken. */
  method WakeFirst(s: Scheduler, q: WaitQueue)
    requires s.Scheduling() && Resting(q, s) && q.Waiting() != []
    modifies q`ring, q.ring, s`queue, s`ring, s`count, s.ring, s.current`need, First(q)`status, FirstNode(q)
    ensures s.Scheduling() && Resting(q, s) && FirstWoken(s, q) && old(q.Waiting())[0].status == Running
    ensures forall x :: x in s.queue <==> x in old(s.queue) || x == old(q.Waiting())[0]
    ensures forall n <- q.ring :: n in old(q.ring)
  {
    hide Ring, Sorted, Ready, Distinct, Shape, Put;
    ghost var ts, t := Around(q, s), q.Waiting()[0];
    ghost var m := Snapshot(s.Everyone() + {t});
    var node := TakeOff(s, q);
    assert Snapshot(s.Everyone() + {t}) == m;
    WakeBeside(s, q, node.owner, ts);
  }

  /** wakeup_process beside the queue that the task has left. */
  method WakeBeside(s: Scheduler, q: WaitQueue, t: Task, ghost ts: set<Task>)
    requires s.Scheduling() && Sleeper(s, t) && q.Valid() && Clear(q.ring, ts) && Around(q, s) + {t} <= ts
    requires Distinct(q.Waiting())
    requires t !in q.Waiting() && forall x <- q.Waiting() :: Sleeper(s, x)
    modifies s`queue, s`ring, s`count, s.ring, t.list, t`status, s.current`need
    ensures s.Scheduling() && Resting(q, s) && t.status == Running && Queued(s, t)
    ensures forall x :: x in s.queue <==> x in old(s.queue) || x == t
  {
    hide Ring, Sorted, Ready, Distinct, Shape, Put, Snapshot;
    ClearLess(q.ring, ts, Around(q, s));
    RingApart(q, s);
    assert t.list !in q.ring;
    WakeupProcess(s, t);
    assert Clear(q.ring, ts);
    ClearLess(q.ring, ts, Around(q, s));
    forall i | 0 < i < |q.ring| ensures Sleeper(s, q.ring[i].owner) {
      var x := q.ring[i].owner;
      assert old(q.Waiting())[i - 1] == x;
      assert old(Sleeper(s, x)) && x.list == old(x.list) && x.vrun == old(x.vrun);
    }
  }

  /** wakeup: the first waiter, if it sleeps in a way the mask names. */
  method Wakeup(s: Scheduler, q: WaitQueue, mask: set<Status>)
    requires s.Scheduling() && Resting(q, s)
    modifies q`ring, q.ring, s`queue, s`ring, s`count, s.ring, s.current`need, First(q)`status, FirstNode(q)
    ensures s.Scheduling() && Resting(q, s)
    ensures if old(q.Waiting() == [] || q.Waiting()[0].status !in mask)
      then q.Waiting() == old(q.Waiting()) && s.Now() == old(s.Now()) && s.current.need == old(s.current.need)
           && forall t <- q.Waiting() :: t.status == old(t.status)
      else FirstWoken(s, q) && old(q.Waiting())[0].status == Running
           && forall x :: x in s.queue <==> x in old(s.queue) || x == old(q.Waiting())[0]
    ensures forall n <- q.ring :: n in old(q.ring)
  {
    hide Sorted, Ready, Distinct, Shape, Put, Snapshot;
    EmptyIff(q.ring, 0);
    if ListIsEmpty(q.head) { return; }
    assert Follows(q.ring[0], q.ring[Succ(|q.ring|, 0)]);
    if q.head.next.owner.status in mask { WakeFirst(s, q); }
  }

  // ---- semaphores

  class CountingSemaphore {
    const q: WaitQueue
    var counter: int
    ghost var initial: nat
    ghost var ups: nat
    ghost var asked: seq<Task>
    ghost var granted: seq<Task>

    /** semaphore_init */
    constructor (count: nat, tsk: Task)
      ensures Counted(View()) && View() == Semaphore(count, [], count, 0, [], []) && fresh(q) && fresh(q.head)
                && q.Valid()
    {
      q := new WaitQueue(tsk);
      counter, initial, ups, asked, granted := count, count, 0, [], [];
    }

    ghost function View(): Semaphore<Task>
      reads this, q
    {
      Semaphore(counter, q.Waiting(), initial, ups, asked, granted)
    }

    /** semaphore_up. The laws of the semaphore hold again; the first waiter, if there is one, is ready to run. */
    method Up(s: Scheduler)
      requires s.Scheduling() && Resting(q, s) && Counted(View())
      modifies this`counter, this`ups, this`granted
      modifies q`ring, q.ring, s`queue, s`ring, s`count, s.ring, s.current`need, First(q)`status, FirstNode(q)
      ensures s.Scheduling() && Resting(q, s) && Counted(View()) && View() == Upped(old(View()))
      ensures if old(q.Waiting()) == [] then s.Now() == old(s.Now()) && s.current.need == old(s.current.need)
              else FirstWoken(s, q) && old(q.Waiting())[0].status == Running
      ensures (forall n <- q.ring :: n in old(q.ring)) && forall t <- Around(q, s) :: t in old(Around(q, s))
    {
      hide Sorted, Ready, Distinct, Shape, Put, Snapshot, Counted;
      UpKeepsCount(View());
      EmptyIff(q.ring, 0);
      if ListIsEmpty(q.head) {
        counter, ups := counter + 1, ups + 1;
      } else {
        Grant(s);
      }
    }

    /** __up */
    method Grant(s: Scheduler)
      requires s.Scheduling() && Resting(q, s) && q.Waiting() != []
      modifies this`ups, this`granted
      modifies q`ring, q.ring, s`queue, s`ring, s`count, s.ring, s.current`need, First(q)`status, FirstNode(q)
      ensures s.Scheduling() && Resting(q, s) && View() == Upped(old(View()))
      ensures FirstWoken(s, q) && old(q.Waiting())[0].status == Running
      ensures (forall n <- q.ring :: n in old(q.ring)) && forall t <- Around(q, s) :: t in old(Around(q, s))
    {
      hide Sorted, Ready, Distinct, Shape, Put, Snapshot, Counted, Queued;
      ghost var t := q.Waiting()[0];
      WakeFirst(s, q);
      granted, ups := granted + [t], ups + 1;
    }

    /** semaphore_down. The laws hold again; without a unit to take the current task waits, last in the line. */
    method Down(s: Scheduler)
      requires s.Scheduling() && Resting(q, s) && Counted(View()) && (s.current != s.idle || counter > 0)
      modifies this`counter, this`asked, this`granted
      modifies s`current, s`queue, s`ring, s`count, s`slice, s.ring, s.current`need, s.current`status, s.current.list,
               s.idle.list,
               q`ring, q.ring
      ensures s.Scheduling() && Resting(q, s) && Counted(View()) && View() == Downed(old(View()), old(s.current))
      ensures old(counter) > 0 ==> s.Now() == old(s.Now()) && old(s.current).AsFacts() == old(s.current.AsFacts())
      ensures old(counter) == 0 ==> old(s.current).status == Uninterruptible && !old(s.current).need
      ensures old(counter) == 0 ==>
                && Ready(old(s.Now()), Dozing(old(Snapshot(s.Everyone())), old(s.current), Uninterruptible), s.idle)
                && s.Now() == Schedule(old(s.Now()),
                     Dozing(old(Snapshot(s.Everyone())), old(s.current), Uninterruptible), s.idle)
      ensures (forall n <- q.ring :: n in old(q.ring) || fresh(n)) && forall t <- Around(q, s) :: t in old(Around(q, s))
    {
      hide Sorted, Ready, Distinct, Shape, Schedule, Snapshot, Counted, Owners, Clear, Dozing;
      DownKeepsCount(View(), s.current);
      assert counter >= 0 by { NeverNegative(View()); }
      asked := asked + [s.current];
      if counter > 0 {
        granted := granted + [s.current];
        counter := counter - 1;
      } else {
        SleepOn(s, q, Uninterruptible);
      }
    }
  }

  lemma NeverNegative<T>(m: Semaphore<T>)
    requires Counted(m)
    ensures m.counter >= 0
  {}

  // ---- disk.c: the list of requests

  lemma CountIsLength<T>(d: Requests<T>)
    requires InOrder(d)
    ensures d.count == |d.waiting|
  {}

  /** The request queue of the disk. A request is known by its wait node, which lies inside it. */
  class RequestList {
    const q: WaitQueue           // wait_queue_list
    var inUsing: Node?
    var count: int               // block_request_count
    ghost var submitted: seq<Task>
    ghost var completed: seq<Task>

    constructor (tsk: Task)
      ensures InOrder(View()) && View() == Requests(None, [], 0, [], []) && fresh(q) && fresh(q.head) && q.Valid()
    {
      q := new WaitQueue(tsk);
      inUsing, count, submitted, completed := null, 0, [], [];
    }

    ghost function View(): Requests<Task>
      reads this, q
    {
      Requests(if inUsing == null then None else Some(inUsing.owner), q.Waiting(), count, submitted, completed)
    }

    /** The task whose request the device works on. */
    ghost function Busy(): set<Task>
      reads this
    {
      if inUsing == null then {} else {inUsing.owner}
    }

    ghost function BusyNode(): set<Node?>
      reads this, Busy()
    {
      if inUsing == null then {} else {inUsing.owner.list}
    }

    /** The list is in order, and the task of the current request sleeps, and waits in no place but this. */
    ghost predicate Working(s: Scheduler)
      reads this, q, q.ring, s, Around(q, s), Busy()
    {
      && Resting(q, s) && InOrder(View())
      && forall t <- Busy() :: Sleeper(s, t) && t !in q.Waiting() && Clear(q.ring, Busy())
    }

    /** cmd_out, apart from the registers of the device. */
    method CmdOut(s: Scheduler)
      requires s.Scheduling() && q.Valid() && Apart(q, s) && Distinct(q.Waiting()) && q.Waiting() != []
      modifies this`inUsing, this`count, q`ring, q.ring
      ensures s.Scheduling() && s.Now() == old(s.Now()) && Snapshot(s.Everyone()) == old(Snapshot(s.Everyone()))
      ensures q.Valid() && Clear(q.ring, old(Around(q, s))) && Distinct(q.Waiting())
      ensures inUsing != null && inUsing.owner == old(q.Waiting())[0] && inUsing.owner !in q.Waiting()
      ensures View() == Started(old(View()))
      ensures forall n <- q.ring :: n in old(q.ring)
    {
      hide Sorted, Ready, Distinct, Shape, Snapshot, Ring;
      inUsing := TakeOff(s, q);
      count := count - 1;
    }

    /** add_request and submit, for the current task. */
    method Submit(s: Scheduler)
      requires s.Scheduling() && Working(s) && s.current != s.idle
      modifies this`inUsing, this`count, this`submitted, q`ring, q.ring
      ensures s.Scheduling() && s.Now() == old(s.Now()) && Snapshot(s.Everyone()) == old(Snapshot(s.Everyone()))
      ensures q.Valid() && Clear(q.ring, old(Around(q, s))) && Distinct(q.Waiting())
      ensures forall t <- q.Waiting() :: t == s.current || Sleeper(s, t)
      ensures View() == Added(old(View()), s.current)
      ensures inUsing != null && inUsing.owner !in q.Waiting()
      ensures if old(inUsing) == null then inUsing.owner == s.current else inUsing == old(inUsing)
      ensures Clear(q.ring, old(Busy()))
    {
      hide Sorted, Ready, Shape, Snapshot, Ring;
      AddNode(s, q);
      assert Clear(q.ring, old(Busy()));
      count, submitted := count + 1, submitted + [s.current];
      if inUsing == null { CmdOut(s); }
    }

    /** wait_for_finish */
    method WaitForFinish(s: Scheduler)
      requires s.Scheduling() && s.current != s.idle && InOrder(View()) && inUsing != null
      requires inUsing.owner !in q.Waiting()
      requires q.Valid() && Clear(q.ring, Around(q, s)) && Clear(q.ring, Busy()) && Distinct(q.Waiting())
      requires (forall t <- q.Waiting() :: t == s.current || Sleeper(s, t))
                && (inUsing.owner == s.current || Sleeper(s, inUsing.owner))
      modifies s`current, s`queue, s`ring, s`count, s`slice, s.ring, s.current`need, s.current`status, s.current.list,
               s.idle.list
      ensures s.Scheduling() && Working(s) && View() == old(View())
      ensures old(s.current).status == Uninterruptible && !old(s.current).need
      ensures Ready(old(s.Now()), Dozing(old(Snapshot(s.Everyone())), old(s.current), Uninterruptible), s.idle)
      ensures s.Now() == Schedule(old(s.Now()), Dozing(old(Snapshot(s.Everyone())), old(s.current), Uninterruptible),
                s.idle)
    {
      hide Sorted, Ready, Shape, Snapshot, Ring, Distinct, Schedule, Dozing, InOrder;
      MarkCurrent(s, Uninterruptible, q.ring, Around(q, s));
      LeaveTo(s, q);
      ghost var x := inUsing.owner;
      if x != old(s.current) { assert old(Sleeper(s, x)) && x.list == old(x.list) && x.vrun == old(x.vrun); }
      assert x.list == old(x.list);
    }

    /** Submitting a request and waiting for it. */
    method Transfer(s: Scheduler)
      requires s.Scheduling() && Working(s) && s.current != s.idle
      modifies this`inUsing, this`count, this`submitted, q`ring, q.ring
      modifies s`current, s`queue, s`ring, s`count, s`slice, s.ring, s.current`need, s.current`status, s.current.list,
               s.idle.list
      ensures s.Scheduling() && Working(s) && View() == Added(old(View()), old(s.current))
                && old(s.current).status == Uninterruptible && !old(s.current).need
      ensures Ready(old(s.Now()), Dozing(old(Snapshot(s.Everyone())), old(s.current), Uninterruptible), s.idle)
      ensures s.Now() == Schedule(old(s.Now()), Dozing(old(Snapshot(s.Everyone())), old(s.current), Uninterruptible),
                s.idle)
    {
      hide Sorted, Ready, Shape, Snapshot, Ring, Distinct, Schedule, Dozing, InOrder;
      AddKeepsOrder(View(), s.current);
      Submit(s);
      WaitForFinish(s);
    }

    /** end_request: the task of the request is woken, once, and the next request goes to the device. */
    method EndRequest(s: Scheduler)
      requires s.Scheduling() && Working(s) && inUsing != null
      modifies this`inUsing, this`count, this`completed, q`ring, q.ring
      modifies s`queue, s`ring, s`count, s.ring, s.current`need, Busy()`status, BusyNode()
      ensures s.Scheduling() && Working(s) && View() == Ended(old(View()))
      ensures old(inUsing.owner).status == Running && old(inUsing.owner) !in Busy() && Queued(s, old(inUsing.owner))
    {
      hide Sorted, Ready, Shape, Snapshot, Ring, Distinct, Put, InOrder, Clear, Ended;
      ghost var t := inUsing.owner;
      WakeOwner(s);
      assert t !in q.Waiting();
      StartNext(s);
    }

    /** The rest of end_request. */
    method StartNext(s: Scheduler)
      requires s.Scheduling() && Resting(q, s) && InOrder(View()) && inUsing != null && inUsing.owner !in q.Waiting()
      modifies this`inUsing, this`count, this`completed, q`ring, q.ring
      ensures s.Scheduling() && s.Now() == old(s.Now()) && Working(s) && View() == Ended(old(View()))
      ensures old(inUsing.owner) !in Busy()
    {
      hide Sorted, Ready, Shape, Snapshot, Ring, Distinct, InOrder;
      EndKeepsOrder(View());
      CountIsLength(View());
      inUsing, completed := null, completed + [inUsing.owner];
      if count != 0 { CmdOut(s); }
    }

    /** The first statements of end_request. */
    method WakeOwner(s: Scheduler)
      requires s.Scheduling() && Working(s) && inUsing != null
      modifies s`queue, s`ring, s`count, s.ring, s.current`need, Busy()`status, BusyNode()
      ensures s.Scheduling() && Resting(q, s) && View() == old(View())
      ensures inUsing.owner.status == Running && Queued(s, inUsing.owner)
    {
      hide Sorted, Ready, Shape, Snapshot, Ring, Distinct, Put, InOrder;
      assert Clear(q.ring, Around(q, s) + {inUsing.owner});
      WakeBeside(s, q, inUsing.owner, Around(q, s) + {inUsing.owner});
    }
  }

  // ---- task.c

  /** The part of do_fork that concerns the scheduler: a copy of the current task, with priority 2, is made ready. */
  method ForkTask(s: Scheduler) returns (child: Task)
    requires s.Scheduling() && s.current.vrun <= LONG_MAX
    modifies s`queue, s`ring, s`count, s.ring, s.current`need
    ensures s.Scheduling() && fresh(child) && child.AsFacts() == Facts(s.current.vrun, 2, Running, old(s.current.need))
    ensures s.current.need && s.count == old(s.count) + 1
    ensures forall x :: x in s.queue <==> x in old(s.queue) || x == child
    ensures (forall i :: 0 <= i < |old(s.queue)| ==> old(s.queue)[i] in old(Snapshot(s.Everyone())))
    ensures s.Now() == Put(old(s.Now()), Forked(old(Snapshot(s.Everyone())), s.current, child), s.idle, child)
  {
    hide Sorted, Ready, Shape, Ring, Distinct, Put;
    ghost var m := Snapshot(s.Everyone());
    child := new Task(s.current.vrun, 2, Uninterruptible);
    child.need := s.current.need;
    assert Snapshot(s.Everyone() + {child}) == Forked(m, s.current, child);
    WakeupProcess(s, child);
    PutCounts(old(s.Now()), Forked(m, s.current, child), s.idle, child);
  }

  lemma PutCounts<T>(c: Cpu<T>, m: map<T, Facts>, idle: T, t: T)
    requires t in m && t != idle && forall i :: 0 <= i < |c.queue| ==> c.queue[i] in m
    ensures Put(c, m, idle, t).count == c.count + 1
  {}

  /** m, with a copy of the current task that has priority 2 and is not to run yet. */
  ghost function Forked<T>(m: map<T, Facts>, current: T, child: T): map<T, Facts> {
    if current in m then m[child := Facts(m[current].vrun, 2, Uninterruptible, m[current].need)] else m
  }

  /** do_exit: the task becomes a zombie that is in no queue, its parent is woken if it waits, and another task runs. */
  method DoExit(s: Scheduler, q: WaitQueue)
    requires s.Scheduling() && Resting(q, s) && s.current != s.idle
    modifies q`ring, q.ring, s`current, s`queue, s`ring, s`count, s`slice, s.ring, s.current`need, s.current`status,
             s.current.list, s.idle.list, First(q)`status, FirstNode(q)
    ensures s.Scheduling() && Resting(q, s) && old(s.current).status == Zombie
    ensures if old(q.Waiting() == [] || q.Waiting()[0].status != Interruptible)
      then q.Waiting() == old(q.Waiting()) && s.Everyone() == old(s.Everyone()) - {old(s.current)}
      else q.Waiting() == old(q.Waiting())[1..] && old(q.Waiting()[0]).status == Running
           && s.Everyone() == old(s.Everyone() + First(q)) - {old(s.current)}
  {
    hide Sorted, Ready, Shape, Ring, Distinct, Put, Snapshot, Schedule;
    Bury(s, q);
    LeaveTo(s, q);
  }

  lemma RingNodes(s: Scheduler)
    requires s.Valid()
    ensures s.head.list in s.ring && forall t <- s.queue :: t.list in s.ring
    ensures forall n <- s.ring :: n == s.head.list || (n.owner in s.queue && n == n.owner.list)
  {
    forall i | 0 <= i < |s.ring|
      ensures s.ring[i] == s.head.list || (s.ring[i].owner in s.queue && s.ring[i] == s.ring[i].owner.list)
    {
      assert s.ring[i] == if i == 0 then s.head.list else s.queue[i - 1].list;
    }
    forall i | 0 <= i < |s.queue| ensures s.queue[i].list in s.ring { assert s.queue[i].list == s.ring[i + 1]; }
  }

  /** The state and exit_notify. */
  method Bury(s: Scheduler, q: WaitQueue)
    requires s.Scheduling() && Resting(q, s) && s.current != s.idle
    modifies q`ring, q.ring, s`queue, s`ring, s`count, s.ring, s.current`need, s.current`status, First(q)`status,
             FirstNode(q)
    ensures s.Scheduling() && Resting(q, s) && s.current.status == Zombie
    ensures forall n <- s.ring :: n in old(s.ring) || n in old(FirstNode(q))
    ensures if old(q.Waiting() == [] || q.Waiting()[0].status != Interruptible)
      then q.Waiting() == old(q.Waiting()) && s.Everyone() == old(s.Everyone())
      else q.Waiting() == old(q.Waiting())[1..] && old(q.Waiting()[0]).status == Running
           && s.Everyone() == old(s.Everyone() + First(q))
  {
    hide Sorted, Ready, Shape, Ring, Distinct, Snapshot, Clear;
    MarkCurrent(s, Zombie, q.ring, Around(q, s));
    ExitNotify(s, q);
  }

  /** exit_notify; q is the queue of the parent. */
  method ExitNotify(s: Scheduler, q: WaitQueue)
    requires s.Scheduling() && Resting(q, s)
    modifies q`ring, q.ring, s`queue, s`ring, s`count, s.ring, s.current`need, First(q)`status, FirstNode(q)
    ensures s.Scheduling() && Resting(q, s)
    ensures forall n <- s.ring :: n in old(s.ring) || n in old(FirstNode(q))
    ensures if old(q.Waiting() == [] || q.Waiting()[0].status != Interruptible)
      then q.Waiting() == old(q.Waiting()) && s.Everyone() == old(s.Everyone())
      else q.Waiting() == old(q.Waiting())[1..] && old(q.Waiting()[0]).status == Running
           && s.Everyone() == old(s.Everyone() + First(q))
  {
    hide Sorted, Ready, Shape, Ring, Distinct, Put, Snapshot, Clear, Queued;
    RingNodes(s);
    Wakeup(s, q, {Interruptible});
    RingNodes(s);
  }
}
