// What a semaphore and the request queue of the disk remember, whatever a task is, and the laws that
// their steps keep.
module Queueing {
  import opened Common

  /** A semaphore, with its history: the downs that were asked for and those that were granted, in order. */
  datatype Semaphore<T> = Semaphore(counter: int, wait: seq<T>, initial: nat, ups: nat, asked: seq<T>, granted: seq<T>)

  /** The request queue of the disk, by the tasks that wait for their request, with its history. */
  datatype Requests<T> = Requests(busy: Option<T>, waiting: seq<T>, count: int, submitted: seq<T>, completed: seq<T>)

  // ---- semaphores

  /**
   Downs are granted in the order they were asked for: those that were not granted are the waiters.
   What the semaphore started with and what was added is what is left and what was granted.
   */
  ghost predicate Counted<T>(s: Semaphore<T>) {
    && s.counter >= 0 && (s.counter > 0 ==> s.wait == [])
    && s.initial + s.ups == s.counter + |s.granted|
    && s.asked == s.granted + s.wait
  }

  /** semaphore_up: the first waiter is granted its down, or the counter goes up. */
  function Upped<T>(s: Semaphore<T>): Semaphore<T> {
    if s.wait == [] then s.(counter := s.counter + 1, ups := s.ups + 1)
    else s.(wait := s.wait[1..], ups := s.ups + 1, granted := s.granted + [s.wait[0]])
  }

  /** semaphore_down by t: granted at once, or t waits. */
  function Downed<T>(s: Semaphore<T>, t: T): Semaphore<T> {
    if s.counter > 0 then s.(counter := s.counter - 1, asked := s.asked + [t], granted := s.granted + [t])
    else s.(wait := s.wait + [t], asked := s.asked + [t])
  }

  lemma UpKeepsCount<T>(s: Semaphore<T>)
    requires Counted(s)
    ensures Counted(Upped(s))
  {
    if s.wait != [] {
      assert s.wait == [s.wait[0]] + s.wait[1..];
      assert s.granted + s.wait == (s.granted + [s.wait[0]]) + s.wait[1..];
    }
  }

  lemma DownKeepsCount<T>(s: Semaphore<T>, t: T)
    requires Counted(s)
    ensures Counted(Downed(s, t))
  {
    if s.counter > 0 {
      assert s.asked + [t] == (s.granted + [t]) + s.wait;
    } else {
      assert s.asked + [t] == s.granted + (s.wait + [t]);
    }
  }

  // ---- requests

  /** Requests complete in the order of submission, each once; the device is idle only if nothing waits. */
  ghost predicate InOrder<T>(d: Requests<T>) {
    && d.count == |d.waiting| && (d.busy.None? ==> d.waiting == [])
    && d.submitted == d.completed + (if d.busy.Some? then [d.busy.value] else []) + d.waiting
  }

  /** cmd_out: the first waiting request goes to the device. */
  function Started<T>(d: Requests<T>): Requests<T>
    requires d.waiting != []
  {
    d.(busy := Some(d.waiting[0]), waiting := d.waiting[1..], count := d.count - 1)
  }

  /** submit */
  function Added<T>(d: Requests<T>, t: T): Requests<T> {
    var a := d.(waiting := d.waiting + [t], count := d.count + 1, submitted := d.submitted + [t]);
    if a.busy.None? then Started(a) else a
  }

  /** end_request */
  function Ended<T>(d: Requests<T>): Requests<T>
    requires d.busy.Some? && (d.count != 0 ==> d.waiting != [])
  {
    var e := d.(busy := None, completed := d.completed + [d.busy.value]);
    if e.count != 0 then Started(e) else e
  }

  lemma AddKeepsOrder<T>(d: Requests<T>, t: T)
    requires InOrder(d)
    ensures InOrder(Added(d, t))
  {
    if d.busy.None? { assert d.completed + [] + [] + [t] == d.completed + [t] + []; }
  }

  lemma EndKeepsOrder<T>(d: Requests<T>)
    requires InOrder(d) && d.busy.Some?
    ensures InOrder(Ended(d))
  {
    if d.waiting != [] { assert d.waiting == [d.waiting[0]] + d.waiting[1..]; }
  }
}
