// The spin lock of task.h on N processors, one instruction at a time and in any order.
module Spinlock {

  /** Where a processor stands: before the decrement, in the waiting loop, in the critical section, or past unlock. */
  datatype Pc = Idle | AtDecrement | AtCompare | Holding | AtEnable

  /**
   The lock word, the place of each processor and its preempt_count. `since` is bookkeeping: the
   processors that have decremented the word since it was last unlocked.
   */
  datatype Lock = Lock(word: int, pc: seq<Pc>, preempt: seq<int>, since: set<nat>)

  datatype Instruction = DisablePreemption | Decrement | Compare | Store | EnablePreemption

  datatype Step = Step(cpu: nat, i: Instruction)

  ghost predicate Enabled(s: Lock, e: Step) {
    e.cpu < |s.pc| == |s.preempt| &&
    match e.i
    case DisablePreemption => s.pc[e.cpu] == Idle
    case Decrement => s.pc[e.cpu] == AtDecrement
    case Compare => s.pc[e.cpu] == AtCompare
    case Store => s.pc[e.cpu] == Holding
    case EnablePreemption => s.pc[e.cpu] == AtEnable
  }

  ghost function After(s: Lock, e: Step): Lock
    requires Enabled(s, e)
  {
    var c := e.cpu;
    match e.i
    case DisablePreemption => s.(pc := s.pc[c := AtDecrement], preempt := s.preempt[c := s.preempt[c] + 1])
    case Decrement =>
      // lock decq; jns
      var w := s.word - 1;
      Lock(w, s.pc[c := if w >= 0 then Holding else AtCompare], s.preempt, s.since + {c})
    case Compare =>
      // pause; cmpq $0; jle back to the pause, else back to the decrement
      if s.word <= 0 then s else s.(pc := s.pc[c := AtDecrement])
    case Store => Lock(1, s.pc[c := AtEnable], s.preempt, {})
    case EnablePreemption => s.(pc := s.pc[c := Idle], preempt := s.preempt[c := s.preempt[c] - 1])
  }

  ghost function Initial(n: nat): Lock {
    Lock(1, seq(n, c => Idle), seq(n, c => 0), {})
  }

  ghost predicate Legal(s: Lock, es: seq<Step>)
    decreases |es|
  {
    es == [] || (Enabled(s, es[0]) && Legal(After(s, es[0]), es[1..]))
  }

  ghost function Run(s: Lock, es: seq<Step>): Lock
    requires Legal(s, es)
    decreases |es|
  {
    if es == [] then s else Run(After(s, es[0]), es[1..])
  }

  // ---- the invariant

  const NOBODY := -1

  /** What holds of processor c when processor h is the one in the critical section. */
  ghost predicate Local(s: Lock, h: int, c: nat)
    requires c < |s.pc| == |s.preempt|
  {
    && (s.pc[c] == Holding <==> c == h)
    && (s.pc[c] == Holding ==> c in s.since)
    && (c in s.since ==> s.pc[c] == AtCompare || s.pc[c] == Holding)
    && s.preempt[c] == if s.pc[c] == Idle then 0 else 1
  }

  ghost predicate Inv(s: Lock, h: int) {
    && |s.preempt| == |s.pc| && NOBODY <= h < |s.pc|
    && s.word == 1 - |s.since| && (h == NOBODY <==> s.since == {})
    && (forall c :: c in s.since ==> c < |s.pc|)
    && (forall c :: 0 <= c < |s.pc| ==> Local(s, h, c))
  }

  ghost function Holder(s: Lock, h: int, e: Step): int {
    if e.i == Decrement && s.since == {} then e.cpu else if e.i == Store then NOBODY else h
  }

  lemma StepKeeps(s: Lock, h: int, e: Step)
    requires Inv(s, h) && Enabled(s, e)
    ensures Inv(After(s, e), Holder(s, h, e))
  {
    var r, g, c := After(s, e), Holder(s, h, e), e.cpu;
    assert Local(s, h, c);
    assert s.since != {} ==> |s.since| > 0;
    forall d | 0 <= d < |r.pc| ensures Local(r, g, d) {
      assert Local(s, h, d);
    }
  }

  lemma {:induction false} RunKeeps(s: Lock, h: int, es: seq<Step>) returns (g: int)
    requires Inv(s, h) && Legal(s, es)
    ensures Inv(Run(s, es), g) && |Run(s, es).pc| == |s.pc|
    decreases |es|
  {
    g := h;
    if es != [] {
      StepKeeps(s, h, es[0]);
      g := RunKeeps(After(s, es[0]), Holder(s, h, es[0]), es[1..]);
    }
  }

  ghost predicate Held(s: Lock, c: nat) { c < |s.pc| && s.pc[c] == Holding }

  lemma {:induction false} AtMost(s: set<nat>, n: nat)
    requires forall c :: c in s ==> c < n
    ensures |s| <= n
  {
    if n > 0 {
      AtMost(s - {n - 1}, n - 1);
      assert |s| <= |s - {n - 1}| + 1;
    }
  }

  /**
   However the instructions of n processors are interleaved: the word is one less than there were
   decrements since the last unlock, so it never falls below 1 - n; at most one processor holds the
   lock, and one does exactly when the word is not positive; and none is preempted between lock and unlock.
   */
  lemma MutualExclusion(n: nat, es: seq<Step>)
    requires Legal(Initial(n), es)
    ensures var s := Run(Initial(n), es);
      && |s.pc| == n == |s.preempt| && s.word == 1 - |s.since| && 1 - n <= s.word <= 1
      && (forall c, d :: Held(s, c) && Held(s, d) ==> c == d)
      && ((exists c :: Held(s, c)) <==> s.word <= 0)
      && (forall c: nat :: c < n && s.pc[c] != Idle ==> s.preempt[c] == 1)
  {
    var h := RunKeeps(Initial(n), NOBODY, es);
    var s := Run(Initial(n), es);
    AtMost(s.since, n);
    assert s.since != {} ==> |s.since| > 0;
    forall c: nat | c < n ensures Held(s, c) <==> c == h {
      assert Local(s, h, c);
    }
    assert h != NOBODY ==> Held(s, h);
    forall c: nat | c < n && s.pc[c] != Idle ensures s.preempt[c] == 1 {
      assert Local(s, h, c);
    }
  }

  // ---- the lock as its users see it

  /** The owner of the abstract lock, as a set of at most one processor. */
  ghost function Owner(s: Lock): set<nat> {
    set c: nat | c < |s.pc| && s.pc[c] == Holding
  }

  lemma OwnerIs(s: Lock, h: int)
    requires Inv(s, h)
    ensures Owner(s) == if h == NOBODY then {} else {h as nat}
  {
    forall c: nat | c < |s.pc| ensures c in Owner(s) <==> c == h {
      assert Local(s, h, c);
    }
  }

  /**
   Each instruction is one step of an atomic lock, or no step: the decrement takes a free lock or
   does nothing, the store frees the lock of the processor that holds it, and nothing else matters.
   */
  lemma RefinesAtomicLock(s: Lock, h: int, e: Step)
    requires Inv(s, h) && Enabled(s, e)
    ensures e.i.Decrement? && Owner(s) == {} ==> Owner(After(s, e)) == {e.cpu}
    ensures e.i.Store? ==> Owner(s) == {e.cpu} && Owner(After(s, e)) == {}
    ensures !e.i.Store? && (e.i.Decrement? ==> Owner(s) != {}) ==> Owner(After(s, e)) == Owner(s)
  {
    StepKeeps(s, h, e);
    OwnerIs(s, h);
    OwnerIs(After(s, e), Holder(s, h, e));
    assert Local(s, h, e.cpu);
  }

  /** When nobody holds the lock, a waiting processor that is left to itself gets it in two instructions. */
  lemma FreeLockIsTaken(s: Lock, h: int, c: nat)
    requires Inv(s, h) && c < |s.pc| && (s.pc[c] == AtDecrement || s.pc[c] == AtCompare) && Owner(s) == {}
    ensures s.pc[c] == AtDecrement ==> Held(After(s, Step(c, Decrement)), c)
    ensures s.pc[c] == AtCompare ==>
              && Enabled(After(s, Step(c, Compare)), Step(c, Decrement))
              && Held(After(After(s, Step(c, Compare)), Step(c, Decrement)), c)
  {
    OwnerIs(s, h);
  }
}
