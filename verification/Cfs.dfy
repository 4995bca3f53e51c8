// The choice of the next task on one processor, as functions on values.
module Cfs {

  const FULL_SLICE := 4
  const LONG_MAX := 0x7fff_ffff_ffff_ffff    // vrun_time of the sentinel of the run queue

  datatype Status = Running | Interruptible | Uninterruptible | Zombie

  /** What scheduling reads of a task; `need` is the flag NEED_SCHEDULE. */
  datatype Facts = Facts(vrun: int, priority: int, status: Status, need: bool)

  /** One processor: the run queue in order, running_task_count and CPU_exec_task_jiffies. */
  datatype Cpu<T> = Cpu(current: T, queue: seq<T>, count: int, slice: int)

  ghost predicate Sorted<T>(q: seq<T>, m: map<T, Facts>) {
    && (forall i :: 0 <= i < |q| ==> q[i] in m)
    && (forall i, j :: 0 <= i < j < |q| ==> m[q[i]].vrun <= m[q[j]].vrun)
  }

  ghost predicate Distinct<T>(q: seq<T>) {
    forall i, j :: 0 <= i < j < |q| ==> q[i] != q[j]
  }

  lemma TailDistinct<T>(q: seq<T>)
    requires Distinct(q) && q != []
    ensures Distinct(q[1..]) && q[0] !in q[1..]
    ensures forall x :: x in q <==> x == q[0] || x in q[1..]
  {
    assert q == [q[0]] + q[1..];
  }

  /** The position of the first task of the queue, from i on, that has run at least v. */
  ghost function Spot<T>(q: seq<T>, m: map<T, Facts>, v: int, i: nat): (r: nat)
    requires i <= |q| && forall k :: 0 <= k < |q| ==> q[k] in m
    ensures i <= r <= |q| && (r < |q| ==> v <= m[q[r]].vrun) && forall k :: i <= k < r ==> m[q[k]].vrun < v
    decreases |q| - i
  {
    if i == |q| || v <= m[q[i]].vrun then i else Spot(q, m, v, i + 1)
  }

  /** insert_task_queue for a task that is not the idle task: before the first task that has run as long. */
  ghost function Insert<T>(q: seq<T>, m: map<T, Facts>, t: T): (r: seq<T>)
    requires t in m && forall k :: 0 <= k < |q| ==> q[k] in m
    ensures |r| == |q| + 1
  {
    var i := Spot(q, m, m[t].vrun, 0);
    q[..i] + [t] + q[i..]
  }

  /** The queue stays sorted, and holds one task more. */
  lemma InsertSorts<T>(q: seq<T>, m: map<T, Facts>, t: T)
    requires Sorted(q, m) && t in m
    ensures Sorted(Insert(q, m, t), m)
  {
    var i, r := Spot(q, m, m[t].vrun, 0), Insert(q, m, t);
    forall j | 0 <= j < |r| ensures r[j] == (if j < i then q[j] else if j == i then t else q[j - 1]) {}
    forall j, k | 0 <= j < k < |r| ensures m[r[j]].vrun <= m[r[k]].vrun {
      if j == i && k > i + 1 { assert m[q[i]].vrun <= m[q[k - 1]].vrun; }
    }
  }

  lemma InsertAdds<T>(q: seq<T>, m: map<T, Facts>, t: T)
    requires t in m && forall k :: 0 <= k < |q| ==> q[k] in m
    ensures multiset(Insert(q, m, t)) == multiset(q) + multiset{t}
    ensures forall x :: x in Insert(q, m, t) <==> x in q || x == t
  {
    var i := Spot(q, m, m[t].vrun, 0);
    assert q == q[..i] + q[i..];
  }

  lemma InsertDistinct<T>(q: seq<T>, m: map<T, Facts>, t: T)
    requires t in m && Distinct(q) && t !in q && forall k :: 0 <= k < |q| ==> q[k] in m
    ensures Distinct(Insert(q, m, t))
  {
    var i, r := Spot(q, m, m[t].vrun, 0), Insert(q, m, t);
    forall j | 0 <= j < |r| ensures r[j] == (if j < i then q[j] else if j == i then t else q[j - 1]) {}
  }

  ghost function Put<T>(c: Cpu<T>, m: map<T, Facts>, idle: T, t: T): Cpu<T>
    requires t in m && forall k :: 0 <= k < |c.queue| ==> c.queue[k] in m
  {
    if t == idle then c else c.(queue := Insert(c.queue, m, t), count := c.count + 1)
  }

  /** get_next_task: the front of the queue, or the idle task. */
  ghost function Next<T>(c: Cpu<T>, idle: T): T {
    if c.queue == [] then idle else c.queue[0]
  }

  ghost function Taken<T>(c: Cpu<T>): Cpu<T> {
    if c.queue == [] then c else c.(queue := c.queue[1..], count := c.count - 1)
  }

  /** The share of a task of this priority; the C division truncates, and the divisor is positive. */
  function Share(priority: int, count: int): int
    requires count > 0
  {
    if priority == 0 || priority == 1 then FULL_SLICE / count else FULL_SLICE / count * 3
  }

  /** The slice is given out again only if it is exactly used up. */
  function Refill(slice: int, priority: int, count: int): int
    requires count > 0
  {
    if slice == 0 then Share(priority, count) else slice
  }

  ghost predicate Switches<T>(c: Cpu<T>, m: map<T, Facts>, idle: T)
    requires c.current in m && Next(c, idle) in m
  {
    m[c.current].vrun >= m[Next(c, idle)].vrun || m[c.current].status != Running
  }

  ghost predicate Ready<T>(c: Cpu<T>, m: map<T, Facts>, idle: T) {
    && c.current in m && idle in m && c.count == |c.queue| + 1
    && Sorted(c.queue, m) && Distinct(c.queue)
    && c.current !in c.queue && idle !in c.queue
  }

  /** schedule(). */
  ghost function Schedule<T>(c: Cpu<T>, m: map<T, Facts>, idle: T): (r: Cpu<T>)
    requires Ready(c, m, idle)
  {
    var t := Next(c, idle);
    var left := Taken(c);
    if Switches(c, m, idle) then
      var p := if m[c.current].status == Running then Put(left, m, idle, c.current) else left;
      Cpu(t, p.queue, p.count, Refill(c.slice, m[t].priority, p.count))
    else
      var p := Put(left, m, idle, t);
      Cpu(c.current, p.queue, p.count, Refill(c.slice, m[t].priority, p.count))
  }

  /** Putting a task that is not queued into a ready queue. */
  lemma PutKeeps<T>(c: Cpu<T>, m: map<T, Facts>, idle: T, t: T)
    requires Sorted(c.queue, m) && Distinct(c.queue) && idle !in c.queue && c.count == |c.queue| + 1
    requires t in m && t !in c.queue
    ensures var p := Put(c, m, idle, t);
      && Sorted(p.queue, m) && Distinct(p.queue) && idle !in p.queue && p.count == |p.queue| + 1
      && (forall x :: x in p.queue <==> x in c.queue || (x == t && t != idle))
      && p.current == c.current && p.slice == c.slice
  {
    hide Insert, Sorted, Distinct;
    if t != idle {
      Members(c.queue, m);
      InsertSorts(c.queue, m, t);
      InsertAdds(c.queue, m, t);
      InsertDistinct(c.queue, m, t);
    }
  }

  lemma Members<T>(q: seq<T>, m: map<T, Facts>)
    requires Sorted(q, m)
    ensures forall k :: 0 <= k < |q| ==> q[k] in m
  {}

  /** What is left when the front is taken, which has run no longer than any other. */
  lemma TakenKeeps<T>(c: Cpu<T>, m: map<T, Facts>, idle: T)
    requires Ready(c, m, idle)
    ensures var l, t := Taken(c), Next(c, idle);
      && Sorted(l.queue, m) && Distinct(l.queue) && idle !in l.queue && l.count == |l.queue| + 1
      && t in m && t !in l.queue && (t == c.current ==> t == idle)
      && (forall x :: x in l.queue ==> m[t].vrun <= m[x].vrun)
      && (forall x :: x in c.queue <==> x in l.queue || (x == t && t != idle))
  {
    assert c.queue != [] ==> c.queue == [c.queue[0]] + c.queue[1..];
  }

  /**
   After schedule() the queue is sorted without duplicates and counted, the current task has run no
   longer than any task in it, and no task has been lost or duplicated.
   */
  lemma ScheduleKeeps<T>(c: Cpu<T>, m: map<T, Facts>, idle: T)
    requires Ready(c, m, idle)
    ensures Ready(Schedule(c, m, idle), m, idle)
    ensures forall t :: t in Schedule(c, m, idle).queue ==> m[Schedule(c, m, idle).current].vrun <= m[t].vrun
    ensures var r := Schedule(c, m, idle);
      forall t :: (t == r.current || t in r.queue || t == idle) <==>
        (t in c.queue || t == idle || (t == c.current && (m[t].status == Running || r.current == t)))
    ensures m[c.current].status != Running && c.current != idle ==> Schedule(c, m, idle).current != c.current
  {
    TakenKeeps(c, m, idle);
    PutKeeps(Taken(c), m, idle, c.current);
    PutKeeps(Taken(c), m, idle, Next(c, idle));
    var r, back, kept := Schedule(c, m, idle), Put(Taken(c), m, idle, c.current), Put(Taken(c), m, idle, Next(c, idle));
    if Switches(c, m, idle) {
      assert r.queue == if m[c.current].status == Running then back.queue else Taken(c).queue;
      forall t | t in r.queue ensures t in m && m[r.current].vrun <= m[t].vrun {
        assert t in Taken(c).queue || t == c.current;
      }
    } else {
      assert r.queue == kept.queue;
      forall t | t in r.queue ensures t in m && m[r.current].vrun <= m[t].vrun {
        assert t in Taken(c).queue || t == Next(c, idle);
      }
    }
  }

  /**
   Who is current after schedule(), by the time tasks have run. A task that is to run stays if and only if it has run
   less than any in the queue, and then the queue is as it was. Otherwise the first of the queue is current, or the
   idle task if there is none.
   */
  ghost predicate ByTime<T>(c: Cpu<T>, m: map<T, Facts>, idle: T, r: Cpu<T>)
    requires c.current in m && idle in m && forall x <- c.queue :: x in m
  {
    var first := if c.queue == [] then idle else c.queue[0];
    if r.current == c.current then
      && r.queue == c.queue && (forall x <- c.queue :: m[c.current].vrun < m[x].vrun)
      && (c.current != idle ==> m[c.current].status == Running && (c.queue == [] ==> m[c.current].vrun < m[idle].vrun))
    else
      && r.current == first && (m[c.current].status == Running ==> m[first].vrun <= m[c.current].vrun)
      && (forall x <- c.queue :: m[first].vrun <= m[x].vrun)
      && var rest := if c.queue == [] then [] else c.queue[1..];
      if c.current != idle && m[c.current].status == Running
      then multiset(r.queue) == multiset(rest) + multiset{c.current}
      else r.queue == rest
  }

  lemma ScheduleByTime<T>(c: Cpu<T>, m: map<T, Facts>, idle: T)
    requires Ready(c, m, idle)
    ensures forall x <- c.queue :: x in m
    ensures ByTime(c, m, idle, Schedule(c, m, idle))
  {
    Members(c.queue, m);
    TakenKeeps(c, m, idle);
    if Switches(c, m, idle) { SwitchByTime(c, m, idle); } else { StayByTime(c, m, idle); }
  }

  lemma StayByTime<T>(c: Cpu<T>, m: map<T, Facts>, idle: T)
    requires Ready(c, m, idle) && Next(c, idle) in m && !Switches(c, m, idle)
    requires forall x <- c.queue :: x in m
    ensures ByTime(c, m, idle, Schedule(c, m, idle))
  {
    hide Insert, Distinct;
    if c.queue != [] { FrontGoesBack(c.queue, m); }
    FrontIsLeast(c.queue, m);
  }

  lemma SwitchByTime<T>(c: Cpu<T>, m: map<T, Facts>, idle: T)
    requires Ready(c, m, idle) && Next(c, idle) in m && Switches(c, m, idle)
    requires forall x <- c.queue :: x in m
    ensures ByTime(c, m, idle, Schedule(c, m, idle))
  {
    hide Insert, Sorted, Distinct;
    TakenKeeps(c, m, idle);
    FrontIsLeast(c.queue, m);
    Members(Taken(c).queue, m);
    InsertAdds(Taken(c).queue, m, c.current);
  }

  lemma FrontIsLeast<T>(q: seq<T>, m: map<T, Facts>)
    requires Sorted(q, m)
    ensures forall x <- q :: x in m && m[q[0]].vrun <= m[x].vrun
  {}

  /** The front of a queue in order, taken off and inserted, is the front again. */
  lemma FrontGoesBack<T>(q: seq<T>, m: map<T, Facts>)
    requires Sorted(q, m) && q != []
    ensures Insert(q[1..], m, q[0]) == q
  {
    assert q == [q[0]] + q[1..];
  }

  /**
   The slice is that of the first task of the queue, or of the idle task, even if the current one goes on: four ticks
   shared evenly and rounded down, three times that for priorities above 1. It is given out only at zero.
   */
  lemma SliceByShare<T>(c: Cpu<T>, m: map<T, Facts>, idle: T)
    requires Ready(c, m, idle)
    ensures var r := Schedule(c, m, idle);
      r.count > 0 && if c.slice != 0 then r.slice == c.slice else
        var part, first := 4 / r.count, if c.queue == [] then idle else c.queue[0];
        first in m && r.slice == if m[first].priority in {0, 1} then part else part + part + part
  {
    ScheduleKeeps(c, m, idle);
    TakenKeeps(c, m, idle);
  }

  lemma {:induction false} SameSpot<T>(q: seq<T>, m: map<T, Facts>, n: map<T, Facts>, v: int, i: nat)
    requires i <= |q| && forall k :: 0 <= k < |q| ==> q[k] in m && q[k] in n && n[q[k]].vrun == m[q[k]].vrun
    ensures Spot(q, m, v, i) == Spot(q, n, v, i)
    decreases |q| - i
  {
    if i < |q| { SameSpot(q, m, n, v, i + 1); }
  }

  /** The choice depends on vrun_time, priority and state only, and on those of the tasks it is made among. */
  lemma SameChoice<T>(c: Cpu<T>, m: map<T, Facts>, n: map<T, Facts>, idle: T)
    requires Ready(c, m, idle) && Ready(c, n, idle)
    requires forall t <- m :: t in n && n[t].vrun == m[t].vrun && n[t].priority == m[t].priority
              && n[t].status == m[t].status
    ensures Schedule(c, n, idle) == Schedule(c, m, idle)
  {
    TakenKeeps(c, m, idle);
    var l := Taken(c);
    Members(l.queue, m);
    SameSpot(l.queue, m, n, m[c.current].vrun, 0);
    SameSpot(l.queue, m, n, m[Next(c, idle)].vrun, 0);
    hide Sorted, Distinct, Spot;
  }

  lemma SamePut<T>(c: Cpu<T>, m: map<T, Facts>, n: map<T, Facts>, idle: T, t: T)
    requires t in m && t in n && n[t].vrun == m[t].vrun
    requires forall k :: 0 <= k < |c.queue| ==>
               c.queue[k] in m && c.queue[k] in n && n[c.queue[k]].vrun == m[c.queue[k]].vrun
    ensures Put(c, n, idle, t) == Put(c, m, idle, t)
  {
    SameSpot(c.queue, m, n, m[t].vrun, 0);
  }

  /** A slice is at most 12, and is positive right after it has been given out only if at most four tasks share it. */
  lemma ShareBounds(priority: int, count: int)
    requires count > 0
    ensures 0 <= Share(priority, count) <= 12
    ensures Share(priority, count) > 0 <==> count <= 4
  {}

  /** schedule() gives out a new slice exactly if the old one is used up to zero and at most four tasks share. */
  lemma RefilledIff(slice: int, priority: int, count: int)
    requires count > 0
    ensures Refill(slice, priority, count) > slice <==> slice == 0 && count <= 4
  {
    ShareBounds(priority, count);
  }

  // ---- tasks by other names

  ghost predicate Naming<T, U>(f: map<T, U>) {
    forall x, y :: x in f && y in f && f[x] == f[y] ==> x == y
  }

  /** The queue w is the queue q, under the names f. */
  ghost predicate Named<T, U>(f: map<T, U>, q: seq<T>, w: seq<U>) {
    |w| == |q| && forall i :: 0 <= i < |q| ==> q[i] in f && f[q[i]] == w[i]
  }

  /** The facts n are those of m, under the names f. */
  ghost predicate Told<T, U>(f: map<T, U>, m: map<T, Facts>, n: map<U, Facts>) {
    forall t :: t in m ==> t in f && f[t] in n && n[f[t]] == m[t]
  }

  ghost predicate NamedCpu<T, U>(f: map<T, U>, c: Cpu<T>, d: Cpu<U>) {
    && c.current in f && f[c.current] == d.current && Named(f, c.queue, d.queue)
    && c.count == d.count && c.slice == d.slice
  }

  lemma {:induction false} SpotNamed<T, U>(f: map<T, U>, q: seq<T>, m: map<T, Facts>, w: seq<U>, n: map<U, Facts>,
      v: int, i: nat)
    requires Named(f, q, w) && Told(f, m, n) && i <= |q|
    requires (forall k :: 0 <= k < |q| ==> q[k] in m) && forall k :: 0 <= k < |w| ==> w[k] in n
    ensures Spot(q, m, v, i) == Spot(w, n, v, i)
    decreases |q| - i
  {
    if i < |q| { SpotNamed(f, q, m, w, n, v, i + 1); }
  }

  lemma PutNamed<T, U>(f: map<T, U>, c: Cpu<T>, m: map<T, Facts>, idle: T, t: T, d: Cpu<U>, n: map<U, Facts>)
    requires Naming(f) && NamedCpu(f, c, d) && Told(f, m, n) && idle in f && t in m
    requires forall k :: 0 <= k < |c.queue| ==> c.queue[k] in m
    ensures t in f && f[t] in n && (forall k :: 0 <= k < |d.queue| ==> d.queue[k] in n)
    ensures NamedCpu(f, Put(c, m, idle, t), Put(d, n, f[idle], f[t]))
  {
    forall k | 0 <= k < |d.queue| ensures d.queue[k] in n { assert c.queue[k] in m; }
    SpotNamed(f, c.queue, m, d.queue, n, m[t].vrun, 0);
  }

  /** The choice of the next task does not depend on what the tasks are called. */
  lemma ScheduleNamed<T, U>(f: map<T, U>, c: Cpu<T>, m: map<T, Facts>, idle: T, d: Cpu<U>, n: map<U, Facts>)
    requires Naming(f) && NamedCpu(f, c, d) && Told(f, m, n) && idle in f && Ready(c, m, idle) && Ready(d, n, f[idle])
    ensures NamedCpu(f, Schedule(c, m, idle), Schedule(d, n, f[idle]))
  {
    TakenKeeps(c, m, idle);
    Members(Taken(c).queue, m);
    var t := Next(c, idle);
    assert t in f && f[t] == Next(d, f[idle]) && NamedCpu(f, Taken(c), Taken(d));
    hide Sorted, Distinct, Spot, Insert;
    PutNamed(f, Taken(c), m, idle, c.current, Taken(d), n);
    PutNamed(f, Taken(c), m, idle, t, Taken(d), n);
  }
}
