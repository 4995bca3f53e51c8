// The request queue of the disk with its data: one interrupt a sector, and the transfers that all of
// them together amount to.
module DiskQueue {
  import opened Common
  import opened Sectors
  import Queueing

  /** block_buffer_node as it is submitted: what `buffer` holds at that time is `data`. */
  datatype Request = Request(task: nat, write: bool, lba: nat, n: nat, data: seq<Byte>)

  /** The request in use: sectors still to be confirmed, the place in the buffer, and the buffer itself. */
  datatype Active = Active(request: Request, left: nat, at: nat, buffer: seq<Byte>)

  datatype Done = Done(request: Request, buffer: seq<Byte>)

  /** `finished` is history: the requests that have ended, in order, with what their buffers held then. */
  datatype Ide = Ide(disk: seq<Sector>, busy: Option<Active>, waiting: seq<Request>, count: int, finished: seq<Done>)

  /** What IDE_transfer is called with. */
  predicate Proper(disk: seq<Sector>, r: Request) {
    1 <= r.n <= 0x1_0000 && r.lba + r.n <= |disk| < 0x1_0000_0000_0000 && |r.data| == SECTOR * r.n
  }

  // ---- the address as it goes to the device

  /** The bytes of the six writes to the address registers, and of the two to the count register. */
  function AddressBytes(lba: nat): seq<Byte> {
    [lba / 0x100_0000 % 0x100, lba / 0x1_0000_0000 % 0x100, lba / 0x100_0000_0000 % 0x100,
     lba % 0x100, lba / 0x100 % 0x100, lba / 0x1_0000 % 0x100]
  }

  function CountBytes(n: nat): seq<Byte> { [n / 0x100 % 0x100, n % 0x100] }

  /** The 48-bit address and the count that the device makes of them. */
  function Address(b: seq<Byte>): nat
    requires |b| == 6
  {
    var b0: nat, b1: nat, b2: nat, b3: nat, b4: nat, b5: nat := b[0], b[1], b[2], b[3], b[4], b[5];
    b3 + 0x100 * b4 + 0x1_0000 * b5 + 0x100_0000 * b0 + 0x1_0000_0000 * b1 + 0x100_0000_0000 * b2
  }

  function Count(b: seq<Byte>): nat
    requires |b| == 2
  {
    var b0: nat, b1: nat := b[0], b[1];
    0x100 * b0 + b1
  }

  /** The sectors that a 48-bit command moves: a count register of 0 stands for all 65536. */
  function Told(b: seq<Byte>): nat
    requires |b| == 2
  {
    if Count(b) == 0 then 0x1_0000 else Count(b)
  }

  /** The device gets the address that was meant exactly if it has 48 bits, and a count exactly from 1 to 65536. */
  lemma AddressArrives(lba: nat, n: nat)
    ensures Address(AddressBytes(lba)) == lba <==> lba < 0x1_0000_0000_0000
    ensures Told(CountBytes(n)) == n <==> 1 <= n <= 0x1_0000
  {
    var q1 := lba / 0x100;
    var q2 := q1 / 0x100;
    var q3 := q2 / 0x100;
    var q4 := q3 / 0x100;
    var q5 := q4 / 0x100;
    assert q2 == lba / 0x1_0000 && q3 == lba / 0x100_0000 && q4 == lba / 0x1_0000_0000 && q5 == lba / 0x100_0000_0000;
    assert lba == Address(AddressBytes(lba)) + 0x1_0000_0000_0000 * (q5 / 0x100);
    assert n == Count(CountBytes(n)) + 0x1_0000 * (n / 0x100 / 0x100);
  }

  /** The upper half of the 48 bits is sent first, and each half with its lowest byte first; a count the other way. */
  lemma SentInHalves(lba: nat, n: nat)
    ensures var b := AddressBytes(lba);
      |b| == 6 && var b0: nat, b1: nat, b2: nat := b[0], b[1], b[2];
      b0 + 0x100 * b1 + 0x1_0000 * b2 == lba / 0x100_0000 % 0x100_0000
    ensures var b := AddressBytes(lba);
      var b3: nat, b4: nat, b5: nat := b[3], b[4], b[5]; b3 + 0x100 * b4 + 0x1_0000 * b5 == lba % 0x100_0000
    ensures var b := CountBytes(n);
      |b| == 2 && var b0: nat, b1: nat := b[0], b[1]; 0x100 * b0 + b1 == n % 0x1_0000
  {
    var high := lba / 0x100_0000;
    assert lba / 0x1_0000_0000 == high / 0x100 && lba / 0x100_0000_0000 == high / 0x1_0000;
    ThreeBytes(high);
    ThreeBytes(lba);
    assert n % 0x1_0000 == n % 0x100 + 0x100 * (n / 0x100 % 0x100);
  }

  lemma ThreeBytes(x: nat)
    ensures x % 0x100_0000 == x % 0x100 + 0x100 * (x / 0x100 % 0x100) + 0x1_0000 * (x / 0x1_0000 % 0x100)
  {
    var q1 := x / 0x100;
    var q2 := q1 / 0x100;
    assert q2 == x / 0x1_0000;
    assert x == x % 0x100 + 0x100 * (q1 % 0x100) + 0x1_0000 * (q2 % 0x100) + 0x100_0000 * (q2 / 0x100);
  }

  // ---- the events

  function Place(a: Active): nat
    requires a.left <= a.request.n
  {
    a.request.lba + (a.request.n - a.left)
  }

  /** The 512 bytes of the buffer that the next words on the data port come from. */
  function Chunk(b: seq<Byte>, at: nat): Sector
    requires at + SECTOR <= |b|
  {
    b[at..at + SECTOR]
  }

  /** cmd_out: the first waiting request goes to the device; of a write, the first sector goes with it. */
  function Started(d: Ide): (r: Ide)
    requires d.waiting != [] && Proper(d.disk, d.waiting[0])
    ensures |r.disk| == |d.disk|
  {
    var q := d.waiting[0];
    var disk := if q.write then d.disk[q.lba := Chunk(q.data, 0)] else d.disk;
    Ide(disk, Some(Active(q, q.n, 0, q.data)), d.waiting[1..], d.count - 1, d.finished)
  }

  function Submitted(d: Ide, q: Request): (r: Ide)
    requires Proper(d.disk, q) && (d.busy.None? ==> d.waiting == [])
    ensures |r.disk| == |d.disk|
  {
    var a := d.(waiting := d.waiting + [q], count := d.count + 1);
    if a.busy.None? then Started(a) else a
  }

  /** end_request */
  function Ended(d: Ide): (r: Ide)
    requires d.busy.Some? && (d.count != 0 ==> d.waiting != [] && Proper(d.disk, d.waiting[0]))
    ensures |r.disk| == |d.disk|
  {
    var e := d.(busy := None, finished := d.finished + [Done(d.busy.value.request, d.busy.value.buffer)]);
    if e.count != 0 then Started(e) else e
  }

  /** read_handler and write_handler, up to the end of the request. */
  function Advanced(d: Ide): (r: Ide)
    requires Running(d)
    ensures |r.disk| == |d.disk| && r.busy.Some?
  {
    var a := d.busy.value;
    var k := Place(a);
    if a.request.write then
      if a.left > 1 then
        d.(disk := d.disk[k + 1 := Chunk(a.buffer, a.at + SECTOR)],
           busy := Some(Active(a.request, a.left - 1, a.at + SECTOR, a.buffer)))
      else d.(busy := Some(a.(left := 0)))
    else
      var b := a.buffer[..a.at] + d.disk[k] + a.buffer[a.at + SECTOR..];
      d.(busy := Some(Active(a.request, a.left - 1, if a.left > 1 then a.at + SECTOR else a.at, b)))
  }

  function Interrupted(d: Ide): (r: Ide)
    requires Running(d)
    requires d.busy.value.left == 1 && d.count != 0 ==> d.waiting != [] && Proper(d.disk, d.waiting[0])
    ensures |r.disk| == |d.disk|
  {
    var a := Advanced(d);
    if a.busy.value.left > 0 then a else Ended(a)
  }

  /** The device works on a request. */
  predicate Running(d: Ide) {
    && d.busy.Some?
    && var a := d.busy.value;
       && Proper(d.disk, a.request) && 1 <= a.left <= a.request.n
       && a.at == SECTOR * (a.request.n - a.left) && |a.buffer| == |a.request.data|
  }

  // ---- the same requests, one after the other and each at once

  datatype Outcome = Outcome(disk: seq<Sector>, buffers: seq<Done>)

  ghost function Transfer(disk: seq<Sector>, q: Request): (r: (seq<Sector>, seq<Byte>))
    requires Proper(disk, q)
    ensures |r.0| == |disk|
  {
    if q.write then (Store(disk, q.lba, q.data), q.data) else (disk, Load(disk, q.lba, q.n))
  }

  ghost predicate AllProper(disk: seq<Sector>, qs: seq<Request>) {
    forall i :: 0 <= i < |qs| ==> Proper(disk, qs[i])
  }

  ghost function Perform(disk: seq<Sector>, qs: seq<Request>): (r: Outcome)
    requires AllProper(disk, qs)
    ensures |r.disk| == |disk| && |r.buffers| == |qs|
  {
    if qs == [] then Outcome(disk, [])
    else
      var n := |qs| - 1;
      var p := Perform(disk, qs[..n]);
      var t := Transfer(p.disk, qs[n]);
      Outcome(t.0, p.buffers + [Done(qs[n], t.1)])
  }

  ghost function Requests(ds: seq<Done>): (r: seq<Request>)
    ensures |r| == |ds|
  {
    seq(|ds|, i requires 0 <= i < |ds| => ds[i].request)
  }

  /** What has been submitted, in order: what has ended, what is in use, and what waits. */
  ghost function All(d: Ide): seq<Request> {
    Requests(d.finished) + (if d.busy.Some? then [d.busy.value.request] else []) + d.waiting
  }

  // ---- the queue without its data

  /** What the scheduler sees of the queue. */
  ghost function Seen(d: Ide): Queueing.Requests<Request> {
    Queueing.Requests(
      if d.busy.Some? then Some(d.busy.value.request) else None, d.waiting, d.count, All(d), Requests(d.finished))
  }

  lemma SeenStarted(d: Ide)
    requires d.busy.None? && d.waiting != [] && Proper(d.disk, d.waiting[0])
    ensures Seen(Started(d)) == Queueing.Started(Seen(d))
  {
    assert All(Started(d)) == Requests(d.finished) + ([d.waiting[0]] + d.waiting[1..]) == All(d);
  }

  /** A submission and the end of a request are the steps of the request list that tasks wait in. */
  lemma SeenSteps(d: Ide, q: Request)
    requires d.busy.None? ==> d.waiting == []
    ensures Proper(d.disk, q) ==> Seen(Submitted(d, q)) == Queueing.Added(Seen(d), q)
    ensures d.busy.Some? && (d.count != 0 ==> d.waiting != [] && Proper(d.disk, d.waiting[0]))
            ==> Seen(Ended(d)) == Queueing.Ended(Seen(d))
  {
    var a := d.(waiting := d.waiting + [q], count := d.count + 1);
    assert All(a) == All(d) + [q];
    if a.busy.None? && Proper(d.disk, q) { SeenStarted(a); }
    if d.busy.Some? && (d.count != 0 ==> d.waiting != [] && Proper(d.disk, d.waiting[0])) {
      var e := d.(busy := None, finished := d.finished + [Done(d.busy.value.request, d.busy.value.buffer)]);
      assert Requests(e.finished) == Requests(d.finished) + [d.busy.value.request];
      assert All(e) == All(d);
      if e.count != 0 { SeenStarted(e); }
    }
  }

  /** An interrupt in the middle of a request shows nothing; the last one of a request is its end. */
  lemma SeenInterrupt(d: Ide)
    requires Running(d) && (d.count != 0 ==> d.waiting != [] && Proper(d.disk, d.waiting[0]))
    ensures Seen(Interrupted(d)) == if d.busy.value.left > 1 then Seen(d) else Queueing.Ended(Seen(d))
  {
    if d.busy.value.left == 1 { SeenSteps(Advanced(d), d.busy.value.request); }
  }

  // ---- the invariant

  /** How far the request in use has got, on a disk that held `base` when it was started. */
  ghost predicate Partly(base: seq<Sector>, disk: seq<Sector>, a: Active)
    requires |disk| == |base| && Proper(base, a.request) && 1 <= a.left <= a.request.n && |a.buffer| == |a.request.data|
  {
    var k := a.request.n - a.left;
    if a.request.write then
      && a.buffer == a.request.data
      && (forall i :: 0 <= i < |disk| ==>
            disk[i] == if a.request.lba <= i <= a.request.lba + k
                       then Chunk(a.buffer, SECTOR * (i - a.request.lba)) else base[i])
    else
      && disk == base
      && (forall i :: 0 <= i < k ==> Chunk(a.buffer, SECTOR * i) == base[a.request.lba + i])
  }

  /** All that has ended is as if performed at once, and all counts agree; something may wait for an idle device. */
  ghost predicate Between(disk0: seq<Sector>, d: Ide) {
    && |d.disk| == |disk0| && AllProper(disk0, All(d)) && d.count == |d.waiting|
    && AllProper(disk0, Requests(d.finished))
    && var p := Perform(disk0, Requests(d.finished));
       && d.finished == p.buffers
       && if d.busy.None? then d.disk == p.disk else Running(d) && Partly(p.disk, d.disk, d.busy.value)
  }

  ghost predicate Good(disk0: seq<Sector>, d: Ide) {
    Between(disk0, d) && (d.busy.None? ==> d.waiting == [])
  }

  lemma ProperParts(disk0: seq<Sector>, d: Ide)
    requires |d.disk| == |disk0| && AllProper(disk0, All(d))
    ensures forall i :: 0 <= i < |d.waiting| ==> Proper(d.disk, d.waiting[i])
    ensures d.busy.Some? ==> Proper(d.disk, d.busy.value.request)
  {
    var all, m := All(d), |d.finished| + (if d.busy.Some? then 1 else 0);
    forall i | 0 <= i < |d.waiting| ensures Proper(d.disk, d.waiting[i]) {
      assert all[m + i] == d.waiting[i];
    }
    if d.busy.Some? { assert all[|d.finished|] == d.busy.value.request; }
  }

  lemma StartKeeps(disk0: seq<Sector>, d: Ide)
    requires Between(disk0, d) && d.busy.None? && d.waiting != []
    ensures Proper(d.disk, d.waiting[0]) && All(Started(d)) == All(d) && Good(disk0, Started(d))
  {
    ProperParts(disk0, d);
    assert d.waiting == [d.waiting[0]] + d.waiting[1..];
  }

  lemma SubmitKeeps(disk0: seq<Sector>, d: Ide, q: Request)
    requires Good(disk0, d) && Proper(d.disk, q)
    ensures All(Submitted(d, q)) == All(d) + [q] && Good(disk0, Submitted(d, q))
  {
    var a := d.(waiting := d.waiting + [q], count := d.count + 1);
    assert All(a) == All(d) + [q];
    assert Between(disk0, a);
    if a.busy.None? { StartKeeps(disk0, a); }
  }

  /** All sectors of a request have been confirmed: it has done what Transfer does. */
  ghost predicate Complete(base: seq<Sector>, disk: seq<Sector>, a: Active)
    requires Proper(base, a.request)
  {
    disk == Transfer(base, a.request).0 && a.buffer == Transfer(base, a.request).1
  }

  lemma ReadChunk(b: seq<Byte>, at: nat, s: Sector, i: nat)
    requires at % SECTOR == 0 && at + SECTOR <= |b| && SECTOR * i + SECTOR <= |b|
    ensures Chunk(b[..at] + s + b[at + SECTOR..], SECTOR * i) == if SECTOR * i == at then s else Chunk(b, SECTOR * i)
  {}

  /** A buffer whose chunks are the sectors of a run is what a load of the run gives. */
  lemma AllChunks(disk: seq<Sector>, lba: nat, n: nat, b: seq<Byte>)
    requires lba + n <= |disk| && |b| == SECTOR * n
    requires forall i :: 0 <= i < n ==> Chunk(b, SECTOR * i) == disk[lba + i]
    ensures b == Load(disk, lba, n)
  {
    forall j | 0 <= j < |b| ensures b[j] == Load(disk, lba, n)[j] {
      assert j == SECTOR * (j / SECTOR) + j % SECTOR;
      assert Chunk(b, SECTOR * (j / SECTOR)) == disk[lba + j / SECTOR];
      assert b[j] == Chunk(b, SECTOR * (j / SECTOR))[j % SECTOR];
    }
  }

  /** A disk whose sectors are the chunks of a buffer is what a store of the buffer leaves. */
  lemma AllStored(base: seq<Sector>, disk: seq<Sector>, lba: nat, n: nat, b: seq<Byte>)
    requires |disk| == |base| && lba + n <= |base| && |b| == SECTOR * n
    requires forall i :: 0 <= i < |disk| ==>
               disk[i] == if lba <= i < lba + n then Chunk(b, SECTOR * (i - lba)) else base[i]
    ensures disk == Store(base, lba, b)
  {}

  /** The request in use has got one sector further, or has done its transfer. */
  ghost predicate Further(base: seq<Sector>, d: Ide, r: Ide)
    requires d.busy.Some? && r.busy.Some? && |r.disk| == |base| && Proper(base, r.busy.value.request)
  {
    && r.busy.value.request == d.busy.value.request && r.busy.value.left == d.busy.value.left - 1
    && (d.busy.value.left > 1 ==> Running(r) && Partly(base, r.disk, r.busy.value))
    && (d.busy.value.left == 1 ==> Complete(base, r.disk, r.busy.value))
  }

  lemma WriteAdvances(base: seq<Sector>, d: Ide)
    requires Running(d) && |d.disk| == |base| && Partly(base, d.disk, d.busy.value) && d.busy.value.request.write
    ensures Further(base, d, Advanced(d))
  {
    var r, a := Advanced(d), d.busy.value;
    if a.left == 1 { AllStored(base, r.disk, a.request.lba, a.request.n, a.buffer); }
  }

  lemma ReadAdvances(base: seq<Sector>, d: Ide)
    requires Running(d) && |d.disk| == |base| && Partly(base, d.disk, d.busy.value) && !d.busy.value.request.write
    ensures Further(base, d, Advanced(d))
  {
    var r, a := Advanced(d), d.busy.value;
    var q, k := a.request, a.request.n - a.left;
    forall i | 0 <= i < k + 1 ensures Chunk(r.busy.value.buffer, SECTOR * i) == base[q.lba + i] {
      ReadChunk(a.buffer, a.at, d.disk[Place(a)], i);
    }
    if a.left == 1 { AllChunks(base, q.lba, q.n, r.busy.value.buffer); }
  }

  /** An interrupt in the middle of a request, and the last one. */
  lemma AdvanceKeeps(base: seq<Sector>, d: Ide)
    requires Running(d) && |d.disk| == |base| && Partly(base, d.disk, d.busy.value)
    ensures Further(base, d, Advanced(d))
  {
    if d.busy.value.request.write {
      WriteAdvances(base, d);
    } else {
      ReadAdvances(base, d);
    }
  }

  lemma FinishedMore(disk0: seq<Sector>, ds: seq<Done>, e: Done)
    requires AllProper(disk0, Requests(ds)) && Proper(disk0, e.request) && ds == Perform(disk0, Requests(ds)).buffers
    ensures AllProper(disk0, Requests(ds + [e]))
    ensures var p := Perform(disk0, Requests(ds));
      var t := Transfer(p.disk, e.request);
      e.buffer == t.1 ==> Perform(disk0, Requests(ds + [e])) == Outcome(t.0, ds + [e])
  {
    var qs := Requests(ds + [e]);
    assert qs == Requests(ds) + [e.request];
    assert qs[..|ds|] == Requests(ds);
  }

  /** The end of a request that has done its transfer. */
  lemma EndKeeps(disk0: seq<Sector>, d: Ide)
    requires d.busy.Some? && |d.disk| == |disk0| && AllProper(disk0, All(d)) && d.count == |d.waiting|
    requires AllProper(disk0, Requests(d.finished)) && d.finished == Perform(disk0, Requests(d.finished)).buffers
    requires Proper(disk0, d.busy.value.request)
    requires Complete(Perform(disk0, Requests(d.finished)).disk, d.disk, d.busy.value)
    ensures d.count != 0 ==> d.waiting != [] && Proper(d.disk, d.waiting[0])
    ensures Good(disk0, Ended(d)) && All(Ended(d)) == All(d)
  {
    hide Started, Partly, Perform, Transfer, Proper, Chunk;
    var done := Done(d.busy.value.request, d.busy.value.buffer);
    var e := d.(busy := None, finished := d.finished + [done]);
    FinishedMore(disk0, d.finished, done);
    assert Requests(e.finished) == Requests(d.finished) + [done.request];
    assert All(e) == All(d);
    ProperParts(disk0, d);
    assert Between(disk0, e);
    if e.count != 0 { StartKeeps(disk0, e); }
  }

  /** Every interrupt keeps the invariant, and neither loses nor reorders a request. */
  lemma InterruptKeeps(disk0: seq<Sector>, d: Ide)
    requires Good(disk0, d) && d.busy.Some?
    ensures Running(d) && (d.count != 0 ==> d.waiting != [] && Proper(d.disk, d.waiting[0]))
    ensures Good(disk0, Interrupted(d)) && All(Interrupted(d)) == All(d)
    ensures Remaining(Interrupted(d)) == Remaining(d) - 1
  {
    ProperParts(disk0, d);
    AdvanceKeeps(Perform(disk0, Requests(d.finished)).disk, d);
    var a := Advanced(d);
    assert All(a) == All(d);
    if a.busy.value.left == 0 { EndKeeps(disk0, a); }
  }

  // ---- how long it takes, and what comes of it

  ghost function Lengths(qs: seq<Request>): nat {
    if qs == [] then 0 else qs[0].n + Lengths(qs[1..])
  }

  /** The interrupts that are still to come. */
  ghost function Remaining(d: Ide): nat {
    (if d.busy.Some? then d.busy.value.left else 0) + Lengths(d.waiting)
  }

  /** The state n interrupts on; an idle device makes none. */
  ghost function Later(disk0: seq<Sector>, d: Ide, n: nat): (r: Ide)
    requires Good(disk0, d)
    decreases n
  {
    if n == 0 || d.busy.None? then d
    else
      InterruptKeeps(disk0, d);
      Later(disk0, Interrupted(d), n - 1)
  }

  lemma {:induction false} LaterKeeps(disk0: seq<Sector>, d: Ide, n: nat)
    requires Good(disk0, d)
    ensures var r := Later(disk0, d, n);
      Good(disk0, r) && All(r) == All(d) && Remaining(r) == if n <= Remaining(d) then Remaining(d) - n else 0
    decreases n
  {
    if n > 0 && d.busy.Some? {
      InterruptKeeps(disk0, d);
      LaterKeeps(disk0, Interrupted(d), n - 1);
    }
  }

  /**
   After as many interrupts as there are sectors left, and no sooner, the device is idle. By then every
   request has ended, in the order of submission, and disk and buffers are as if each request had been
   performed at once and alone.
   */
  lemma AllIsDone(disk0: seq<Sector>, d: Ide, n: nat)
    requires Good(disk0, d)
    ensures var r := Later(disk0, d, n);
      && (r.busy.None? <==> n >= Remaining(d))
      && (n >= Remaining(d) ==>
            && Requests(r.finished) == All(d) && AllProper(disk0, All(d))
            && r.disk == Perform(disk0, All(d)).disk && r.finished == Perform(disk0, All(d)).buffers)
  {
    LaterKeeps(disk0, d, n);
    var r := Later(disk0, d, n);
    assert r.busy.None? ==> All(r) == Requests(r.finished);
  }

  ghost function Idle(disk: seq<Sector>): Ide { Ide(disk, None, [], 0, []) }

  /**
   A request of n sectors to an idle device ends after exactly n interrupts, and has then read or
   written sectors lba to lba + n - 1 from or to bytes 0 to 512 * n - 1 of its buffer, in order.
   */
  lemma OneRequest(disk: seq<Sector>, q: Request, n: nat)
    requires Proper(disk, q)
    ensures Good(disk, Idle(disk)) && Good(disk, Submitted(Idle(disk), q))
    ensures var r := Later(disk, Submitted(Idle(disk), q), n);
      && (r.busy.None? <==> n >= q.n)
      && (n >= q.n ==> r.disk == Transfer(disk, q).0 && r.finished == [Done(q, Transfer(disk, q).1)])
  {
    var d := Idle(disk);
    assert Requests([]) == [] && All(d) == [];
    SubmitKeeps(disk, d, q);
    var s := Submitted(d, q);
    assert s.waiting == [] && Remaining(s) == q.n;
    AllIsDone(disk, s, n);
    assert All(s) == [q];
    assert [q][..0] == [];
    assert Perform(disk, [q]) == Outcome(Transfer(disk, q).0, [Done(q, Transfer(disk, q).1)]);
  }
}
