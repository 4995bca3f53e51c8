// The run queue as it is in memory: circular lists whose nodes lie inside the tasks, with a sentinel,
// and the scheduler that works on them.
module RunQueue {
  import opened Common
  import opened Cfs

  /** struct List; `owner` is what container_of computes from the address of a node. */
  class Node {
    var prev: Node?
    var next: Node?
    const owner: Task

    constructor (owner: Task)
      ensures this.owner == owner
    {
      this.owner := owner;
      prev, next := null, null;
    }
  }

  class Task {
    var list: Node?
    var vrun: int
    var priority: int
    var status: Status
    var need: bool

    constructor (vrun: int, priority: int, status: Status)
      ensures list != null && fresh(list) && list.owner == this && Ring([list])
      ensures AsFacts() == Facts(vrun, priority, status, false)
    {
      this.vrun, this.priority, this.status, need := vrun, priority, status, false;
      list := null;
      new;
      list := new Node(this);
      ListInit(list);
    }

    ghost function AsFacts(): Facts reads this { Facts(vrun, priority, status, need) }
  }

  // ---- circular lists

  function Succ(n: nat, i: nat): (r: nat)
    requires i < n
    ensures r < n
  {
    if i + 1 < n then i + 1 else 0
  }

  ghost predicate Follows(a: Node, b: Node) reads a, b { a.next == b && b.prev == a }

  /** r goes once round a circular list: next and prev are inverse to each other. */
  ghost predicate Ring(r: seq<Node>)
    reads r
  {
    && |r| > 0 && NoRepeat(r)
    && forall i :: 0 <= i < |r| ==> Follows(r[i], r[Succ(|r|, i)])
  }

  ghost predicate NoRepeat(r: seq<Node>) {
    forall i, j :: 0 <= i < j < |r| ==> r[i] != r[j]
  }

  method ListInit(entry: Node)
    modifies entry
    ensures Ring([entry])
  {
    entry.prev := entry;
    entry.next := entry;
  }

  /** A ring with node put before the entry at p, or after the last one. */
  ghost function InsertedAt(r: seq<Node>, p: nat, node: Node): (s: seq<Node>)
    requires p <= |r|
    ensures |s| == |r| + 1
    ensures forall i :: 0 <= i < |s| ==> s[i] == if i < p then r[i] else if i == p then node else r[i - 1]
  {
    r[..p] + [node] + r[p..]
  }

  /** The links after node has been put between entry q and the one that followed it. */
  lemma Spliced(r: seq<Node>, q: nat, node: Node)
    requires NoRepeat(r) && q < |r| && node !in r
    requires forall i :: 0 <= i < |r| && i != q ==> Follows(r[i], r[Succ(|r|, i)])
    requires Follows(r[q], node) && Follows(node, r[Succ(|r|, q)])
    ensures Ring(InsertedAt(r, q + 1, node))
  {
    var s := InsertedAt(r, q + 1, node);
    forall i, j | 0 <= i < j < |s| ensures s[i] != s[j] {}
    forall i | 0 <= i < |s| ensures Follows(s[i], s[Succ(|s|, i)]) {
      if i < q {
        assert Follows(r[i], r[Succ(|r|, i)]);
      } else if i > q + 1 {
        assert Follows(r[i - 1], r[Succ(|r|, i - 1)]);
      }
    }
  }

  lemma SuccDiffers(n: nat, i: nat, j: nat)
    requires i < n && j < n
    ensures Succ(n, i) == Succ(n, j) <==> i == j
  {}

  /** The entry before entry k. */
  function Before(n: nat, k: nat): (q: nat)
    requires k < n
    ensures q < n && Succ(n, q) == k
  {
    if k == 0 then n - 1 else k - 1
  }

  /** list_add_to_before */
  method ListAddToBefore(entry: Node, node: Node, ghost r: seq<Node>, ghost k: nat)
    requires Ring(r) && k < |r| && r[k] == entry && node !in r
    modifies r, node
    ensures Ring(InsertedAt(r, Before(|r|, k) + 1, node))
  {
    ghost var q := Before(|r|, k);
    assert Succ(|r|, q) == k && Follows(r[q], r[k]);
    node.next := entry;
    entry.prev.next := node;
    node.prev := entry.prev;
    entry.prev := node;
    forall i | 0 <= i < |r| && i != q ensures Follows(r[i], r[Succ(|r|, i)]) {
      assert old(Follows(r[i], r[Succ(|r|, i)]));
      SuccDiffers(|r|, i, q);
    }
    Spliced(r, q, node);
  }

  /** list_add_to_behind */
  method ListAddToBehind(entry: Node, node: Node, ghost r: seq<Node>, ghost k: nat)
    requires Ring(r) && k < |r| && r[k] == entry && node !in r
    modifies r, node
    ensures Ring(InsertedAt(r, k + 1, node))
  {
    assert Follows(r[k], r[Succ(|r|, k)]);
    node.next := entry.next;
    node.prev := entry;
    node.next.prev := node;
    entry.next := node;
    forall i | 0 <= i < |r| && i != k ensures Follows(r[i], r[Succ(|r|, i)]) {
      assert old(Follows(r[i], r[Succ(|r|, i)]));
      SuccDiffers(|r|, i, k);
    }
    Spliced(r, k, node);
  }

  /** The links after entry k has been taken out. */
  lemma Unlinked(r: seq<Node>, k: nat)
    requires NoRepeat(r) && 0 < k < |r|
    requires forall i :: 0 <= i < |r| && i != k - 1 && i != k ==> Follows(r[i], r[Succ(|r|, i)])
    requires Follows(r[k - 1], r[Succ(|r|, k)])
    ensures Ring(r[..k] + r[k + 1..])
  {
    var s := r[..k] + r[k + 1..];
    assert forall i :: 0 <= i < |s| ==> s[i] == if i < k then r[i] else r[i + 1];
    forall i | 0 <= i < |s| ensures Follows(s[i], s[Succ(|s|, i)]) {
      if i < k - 1 {
        assert Follows(r[i], r[Succ(|r|, i)]);
      } else if i >= k {
        assert Follows(r[i + 1], r[Succ(|r|, i + 1)]);
      }
    }
  }

  /** list_del */
  method ListDel(entry: Node, ghost r: seq<Node>, ghost k: nat)
    requires Ring(r) && 0 < k < |r| && r[k] == entry
    modifies r
    ensures Ring(r[..k] + r[k + 1..])
  {
    assert Succ(|r|, k - 1) == k && Follows(r[k - 1], r[k]) && Follows(r[k], r[Succ(|r|, k)]);
    entry.next.prev := entry.prev;
    entry.prev.next := entry.next;
    forall i | 0 <= i < |r| && i != k - 1 && i != k ensures Follows(r[i], r[Succ(|r|, i)]) {
      assert old(Follows(r[i], r[Succ(|r|, i)]));
      SuccDiffers(|r|, i, k);
    }
    Unlinked(r, k);
  }

  /** list_is_empty */
  predicate ListIsEmpty(entry: Node)
    reads entry
  {
    entry == entry.next && entry.prev == entry
  }

  /** It holds of the entries of rings of one, and of no others. */
  lemma EmptyIff(r: seq<Node>, k: nat)
    requires Ring(r) && k < |r|
    ensures ListIsEmpty(r[k]) <==> |r| == 1
  {
    assert Follows(r[k], r[Succ(|r|, k)]);
  }

  // ---- the scheduler

  /** The facts of the tasks in a set, as they are now. */
  ghost function Snapshot(s: set<Task>): map<Task, Facts>
    reads s
  {
    map t | t in s :: t.AsFacts()
  }

  /** The ring of a queue: the sentinel first, then the nodes of the tasks in order. */
  ghost predicate Shape(head: Task, q: seq<Task>, r: seq<Node>)
    reads head, q
  {
    && head.vrun == LONG_MAX && head !in q && |r| == |q| + 1 && head.list == r[0] && r[0].owner == head
    && (forall i :: 0 <= i < |q| ==> q[i].list == r[i + 1] && r[i + 1].owner == q[i])
    && forall i :: 0 <= i < |q| ==> q[i].vrun <= LONG_MAX
  }

  lemma OwnersDiffer(head: Task, q: seq<Task>, r: seq<Node>, t: Task)
    requires Shape(head, q, r) && t != head && t !in q && t.list != null && t.list.owner == t
    ensures t.list !in r
  {
    forall j | 0 <= j < |r| ensures r[j].owner != t {
      if j > 0 { assert r[j - 1 + 1].owner == q[j - 1]; }
    }
  }

  lemma ShapeInserts(head: Task, q: seq<Task>, r: seq<Node>, i: nat, t: Task)
    requires Shape(head, q, r) && i <= |q| && t != head && t.list != null && t.list.owner == t && t.vrun <= LONG_MAX
    ensures Shape(head, q[..i] + [t] + q[i..], InsertedAt(r, i + 1, t.list))
  {
    var p, s := q[..i] + [t] + q[i..], InsertedAt(r, i + 1, t.list);
    forall j | 0 <= j < |p| ensures p[j].list == s[j + 1] && s[j + 1].owner == p[j] && p[j].vrun <= LONG_MAX {
      if j > i { assert p[j] == q[j - 1] && q[j - 1].list == r[j - 1 + 1]; }
    }
  }

  /** Where in the ring entry i of the queue is; past the last comes the sentinel again. */
  function Position(n: nat, i: nat): nat { if i < n then i + 1 else 0 }

  lemma ReadyToLink(head: Task, q: seq<Task>, r: seq<Node>, i: nat, t: Task)
    requires Shape(head, q, r) && i <= |q| && t != head && t !in q && t.list != null && t.list.owner == t
    requires t.vrun <= LONG_MAX
    ensures t.list !in r && Shape(head, q[..i] + [t] + q[i..], InsertedAt(r, i + 1, t.list))
    ensures Position(|q|, i) < |r| && r[Position(|q|, i)] == (if i < |q| then q[i] else head).list
    ensures Before(|r|, Position(|q|, i)) == i
  {
    OwnersDiffer(head, q, r, t);
    ShapeInserts(head, q, r, i, t);
  }

  lemma ShapeTakes(head: Task, q: seq<Task>, r: seq<Node>)
    requires Shape(head, q, r) && q != []
    ensures Shape(head, q[1..], r[..1] + r[2..])
  {
    var p, s := q[1..], r[..1] + r[2..];
    forall j | 0 <= j < |p| ensures p[j].list == s[j + 1] && s[j + 1].owner == p[j] {
      assert p[j] == q[j + 1] && q[j + 1].list == r[j + 1 + 1];
    }
  }

  class Scheduler {
    const idle: Task
    const head: Task       // task_queue, whose vrun_time is the largest there is
    var current: Task
    var count: int
    var slice: int
    ghost var queue: seq<Task>
    ghost var ring: seq<Node>

    ghost predicate Valid()
      reads this`queue, this`ring, head, queue, ring
    {
      head != idle && Shape(head, queue, ring) && Ring(ring)
    }

    ghost function Now(): Cpu<Task>
      reads this
    {
      Cpu(current, queue, count, slice)
    }

    ghost function Everyone(): set<Task>
      reads this
    {
      {current, idle} + set t | t in queue
    }

    /** schedule_init for one processor. */
    constructor (idle: Task, head: Task)
      requires idle != head && head.list != null && head.list.owner == head && head.vrun == LONG_MAX
      requires Ring([head.list])
      ensures Valid() && Now() == Cpu(idle, [], 1, FULL_SLICE) && this.idle == idle && this.head == head
    {
      this.idle, this.head, current, count, slice := idle, head, idle, 1, FULL_SLICE;
      queue, ring := [], [head.list];
    }

    /** get_next_task */
    method GetNextTask() returns (t: Task)
      requires Valid()
      modifies this`queue, this`ring, this`count, ring
      ensures Valid() && t == Next(old(Now()), idle) && Now() == Taken(old(Now()))
      ensures t != idle ==> Noded(t) && t.list in old(ring)
      ensures forall i :: 0 <= i < |ring| ==> ring[i] in old(ring)
    {
      EmptyIff(ring, 0);
      if ListIsEmpty(head.list) { return idle; }
      assert Follows(ring[0], ring[Succ(|ring|, 0)]);
      t := head.list.next.owner;
      assert t == queue[0] && t.list == ring[1];
      ShapeTakes(head, queue, ring);
      hide Shape, Ring;
      ghost var r := ring;
      queue, ring := queue[1..], ring[..1] + ring[2..];
      count := count - 1;
      ListDel(t.list, r, 1);
    }

    /** The task before which t belongs: the sentinel ends the search at the latest. */
    method FindSpot(t: Task, ghost m: map<Task, Facts>) returns (tmp: Task, ghost i: nat)
      requires Valid() && t.vrun <= LONG_MAX && t in m && m[t].vrun == t.vrun && Knows(m, queue)
      ensures i == Spot(queue, m, t.vrun, 0) && tmp == if i < |queue| then queue[i] else head
    {
      EmptyIff(ring, 0);
      assert Follows(ring[0], ring[Succ(|ring|, 0)]);
      tmp := head.list.next.owner;
      i := 0;
      if !ListIsEmpty(head.list) {
        while tmp.vrun < t.vrun
          invariant i <= |queue| && tmp == (if i < |queue| then queue[i] else head)
          invariant Spot(queue, m, t.vrun, 0) == Spot(queue, m, t.vrun, i)
          decreases |queue| - i
        {
          assert Follows(ring[i + 1], ring[Succ(|ring|, i + 1)]);
          tmp := tmp.list.next.owner;
          i := i + 1;
        }
      }
    }

    /** A task that can be queued. */
    ghost predicate Loose(t: Task)
      reads this`queue, t
    {
      Noded(t) && t !in queue
    }

    ghost predicate Noded(t: Task)
      reads t
    {
      t.list != null && t.list.owner == t && t != head && t.vrun <= LONG_MAX
    }

    /** insert_task_queue */
    method InsertTaskQueue(t: Task, ghost m: map<Task, Facts>)
      requires Valid() && (t != idle ==> Loose(t)) && t in m && m[t].vrun == t.vrun && Knows(m, queue)
      modifies this`queue, this`ring, this`count, ring, t.list
      ensures Valid() && Now() == Put(old(Now()), m, idle, t)
    {
      if t != idle { Link(t, m); }
    }

    method Link(t: Task, ghost m: map<Task, Facts>)
      requires Valid() && t != idle && Loose(t) && t in m && m[t].vrun == t.vrun && Knows(m, queue)
      modifies this`queue, this`ring, this`count, ring, t.list
      ensures Valid() && Now() == Put(old(Now()), m, idle, t)
    {
      hide Shape, Ring, InsertedAt, Spot, Knows;
      var tmp, i := FindSpot(t, m);
      ghost var k := Position(|queue|, i);
      ReadyToLink(head, queue, ring, i, t);
      ghost var r := ring;
      queue, ring := queue[..i] + [t] + queue[i..], InsertedAt(ring, i + 1, t.list);
      count := count + 1;
      ListAddToBefore(tmp.list, t.list, r, k);
    }

    /** What schedule() finds: the queue in order, and the current task with a node of its own. */
    ghost predicate Scheduling()
      reads this, head, queue, ring, Everyone()
    {
      && Valid() && Ready(Now(), Snapshot(Everyone()), idle)
      && (current != idle ==> Loose(current))
    }

    /** schedule(), as far as the choice of the next task goes; switch_to makes it the current one. */
    method Schedule()
      requires Scheduling()
      modifies this`current, this`queue, this`ring, this`count, this`slice, ring, current`need, current.list, idle.list
      ensures Scheduling() && Ready(old(Now()), Snapshot(old(Everyone())), idle)
      ensures if current == old(current)
              then queue == old(queue) && forall t <- queue :: current.vrun < t.vrun
              else current == (if old(queue) == [] then idle else old(queue)[0])
                     && (old(current.status) == Running ==> current.vrun <= old(current.vrun))
      ensures Now() == Cfs.Schedule(old(Now()), Snapshot(old(Everyone())), idle)
      ensures forall t :: t in old(Everyone()) ==>
                t.AsFacts() == if t == old(current) then old(t.AsFacts()).(need := false) else old(t.AsFacts())
    {
      hide Valid, Snapshot, Ready, Cfs.Schedule, ByTime;
      ghost var c, s := Now(), Everyone();
      PickNext();
      ghost var n := Snapshot(s);
      Told(s);
      ScheduleByTime(c, n, idle);
      TimesCompared(c, n, idle, Now());
    }

    lemma Told(s: set<Task>)
      ensures forall t <- s :: t in Snapshot(s) && Snapshot(s)[t] == t.AsFacts()
    {}

    /** The whole of it: need_resched is cleared, then one of the two tasks is put back. */
    method PickNext()
      requires Scheduling()
      modifies this`current, this`queue, this`ring, this`count, this`slice, ring, current`need, current.list, idle.list
      ensures Scheduling() && Ready(old(Now()), Snapshot(old(Everyone())), idle)
      ensures Now() == Cfs.Schedule(old(Now()), Snapshot(old(Everyone())), idle)
      ensures forall t :: t in old(Everyone()) ==>
                t.AsFacts() == if t == old(current) then old(t.AsFacts()).(need := false) else old(t.AsFacts())
    {
      hide Valid, Snapshot, Ready, Cfs.Schedule;
      ghost var s := Everyone();
      ClearNeed();
      ghost var n := Snapshot(s);
      ScheduleKeeps(Now(), n, idle);
      BeforeChoice(n);
      Choose(n);
      assert Snapshot(s) == n;
      KeptReady(s);
    }

    lemma TimesCompared(c: Cpu<Task>, n: map<Task, Facts>, idle: Task, r: Cpu<Task>)
      requires c.current in n && idle in n && (forall x <- c.queue :: x in n) && ByTime(c, n, idle, r)
      ensures if r.current == c.current
              then r.queue == c.queue && forall t <- c.queue :: n[c.current].vrun < n[t].vrun
              else r.current == (if c.queue == [] then idle else c.queue[0]) && r.current in n
                   && (n[c.current].status == Running ==> n[r.current].vrun <= n[c.current].vrun)
    {}

    /** What was chosen is again a state that schedule() can be called in. */
    lemma KeptReady(s: set<Task>)
      requires Valid() && Ready(Now(), Snapshot(s), idle) && (current != idle ==> Noded(current))
      ensures Scheduling()
    {}

    method ClearNeed()
      requires Scheduling()
      modifies current`need
      ensures Scheduling()
      ensures forall t :: t in Everyone() ==>
                t.AsFacts() == if t == current then old(t.AsFacts()).(need := false) else old(t.AsFacts())
    {
      ghost var m := Snapshot(Everyone());
      current.need := false;
      StillReady(Now(), m, Snapshot(Everyone()), idle);
    }

    /** The rest of schedule(); n tells the facts of the tasks. */
    method Choose(ghost n: map<Task, Facts>)
      requires Valid() && Ready(Now(), n, idle) && (current != idle ==> Loose(current))
      requires n == Snapshot(Everyone())
      modifies this`current, this`queue, this`ring, this`count, this`slice, ring, current.list, idle.list
      ensures Valid() && Now() == Cfs.Schedule(old(Now()), n, idle)
      ensures current != idle ==> Noded(current)
    {
      hide Shape, Ring, Valid, Snapshot, Sorted, Distinct, Knows, Put, Ready, Refill, Noded;
      BeforeChoice(n);
      var t := GetNextTask();
      assert t in old(Everyone()) && n[t] == t.AsFacts();
      if current.vrun >= t.vrun || current.status != Running {
        SwitchTo(t, n);
      } else {
        Stay(t, n);
      }
    }

    lemma BeforeChoice(n: map<Task, Facts>)
      requires Valid() && Ready(Now(), n, idle) && n == Snapshot(Everyone())
      ensures forall x :: x in Everyone() ==> x in n && n[x] == x.AsFacts()
      ensures var l, t := Taken(Now()), Next(Now(), idle);
        Knows(n, l.queue) && l.count > 0 && t !in l.queue && current !in l.queue && t in Everyone()
    {
      TakenKeeps(Now(), n, idle);
    }

    /** The current task goes back to the queue if it is to run, and t takes its place. */
    method SwitchTo(t: Task, ghost n: map<Task, Facts>)
      requires Valid() && (current != idle ==> Loose(current)) && count > 0
      requires current in n && n[current] == current.AsFacts() && t in n && n[t] == t.AsFacts() && Knows(n, queue)
      modifies this`current, this`queue, this`ring, this`count, this`slice, ring, current.list
      ensures Valid()
      ensures var p := if n[old(current)].status == Running then Put(old(Now()), n, idle, old(current)) else old(Now());
        p.count > 0 && Now() == Cpu(t, p.queue, p.count, Refill(old(slice), n[t].priority, p.count))
    {
      hide Insert, Shape, Ring;
      if current.status == Running { InsertTaskQueue(current, n); }
      if slice == 0 { slice := Share(t.priority, count); }
      current := t;
    }

    /** The task that was taken goes back to the queue. */
    method Stay(t: Task, ghost n: map<Task, Facts>)
      requires Valid() && (t != idle ==> Loose(t)) && count > 0
      requires t in n && n[t] == t.AsFacts() && Knows(n, queue)
      modifies this`queue, this`ring, this`count, this`slice, ring, t.list
      ensures Valid()
      ensures var p := Put(old(Now()), n, idle, t);
        p.count > 0 && Now() == Cpu(current, p.queue, p.count, Refill(old(slice), n[t].priority, p.count))
    {
      hide Insert, Shape, Ring;
      InsertTaskQueue(t, n);
      if slice == 0 { slice := Share(t.priority, count); }
    }
  }

  /** Clearing a flag changes nothing that a queue in order depends on. */
  lemma StillReady(c: Cpu<Task>, m: map<Task, Facts>, n: map<Task, Facts>, idle: Task)
    requires Ready(c, m, idle) && n.Keys == m.Keys && forall t :: t in m ==> n[t].vrun == m[t].vrun
    ensures Ready(c, n, idle)
  {}

  /** m tells how long each of these tasks has run. */
  ghost predicate Knows(m: map<Task, Facts>, q: seq<Task>)
    reads q
  {
    forall i :: 0 <= i < |q| ==> q[i] in m && m[q[i]].vrun == q[i].vrun
  }
}
