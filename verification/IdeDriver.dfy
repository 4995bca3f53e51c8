// The routines of disk.c and a device that keeps 512-byte sectors, step by step.
module IdeDriver {
  import opened Common
  import opened Sectors
  import opened DiskQueue

  /** The device: it takes a command through its registers, and moves a sector for each 256 words on its data port. */
  class Device {
    var sectors: seq<Sector>
    var next: nat       // the sector that the data port stands at
    var due: nat        // the sectors that the command has still to move

    constructor (sectors: seq<Sector>)
      ensures this.sectors == sectors
    {
      this.sectors, next, due := sectors, 0, 0;
    }

    method Command(address: seq<Byte>, count: seq<Byte>)
      requires |address| == 6 && |count| == 2
      modifies this`next, this`due
      ensures next == Address(address) && due == Told(count)
    {
      next, due := Address(address), Told(count);
    }

    method ReadWords() returns (s: Sector)
      requires due > 0 && next < |sectors|
      modifies this`next, this`due
      ensures s == sectors[old(next)] && next == old(next) + 1 && due == old(due) - 1
    {
      s := sectors[next];
      next, due := next + 1, due - 1;
    }

    method WriteWords(s: Sector)
      requires due > 0 && next < |sectors|
      modifies this
      ensures sectors == old(sectors)[old(next) := s] && next == old(next) + 1 && due == old(due) - 1
    {
      sectors := sectors[next := s];
      next, due := next + 1, due - 1;
    }
  }

  class Driver {
    const device: Device
    var inUsing: Option<Active>
    var waiting: seq<Request>
    var blockRequestCount: int
    ghost var finished: seq<Done>

    ghost function Now(): Ide
      reads this, device
    {
      Ide(device.sectors, inUsing, waiting, blockRequestCount, finished)
    }

    /**
     The data port stands where the request in use has got to, and the device has as much still to move:
     a write is one sector ahead of its interrupts.
     */
    ghost predicate InStep()
      reads this, device
    {
      inUsing.Some? && inUsing.value.left <= inUsing.value.request.n ==>
        && device.next == Place(inUsing.value) + (if inUsing.value.request.write then 1 else 0)
        && device.due == inUsing.value.left - (if inUsing.value.request.write then 1 else 0)
    }

    constructor (device: Device)
      ensures this.device == device && Now() == Idle(device.sectors) && InStep()
    {
      this.device, inUsing, waiting, blockRequestCount, finished := device, None, [], 0, [];
    }

    method AddRequest(q: Request)
      modifies this`waiting, this`blockRequestCount
      ensures Now() == old(Now()).(waiting := old(waiting) + [q], count := old(blockRequestCount) + 1)
    {
      waiting := waiting + [q];
      blockRequestCount := blockRequestCount + 1;
    }

    method CmdOut()
      requires waiting != [] && Proper(device.sectors, waiting[0])
      modifies this`inUsing, this`waiting, this`blockRequestCount, device
      ensures Now() == Started(old(Now())) && InStep()
    {
      var q := waiting[0];
      inUsing := Some(Active(q, q.n, 0, q.data));
      waiting := waiting[1..];
      blockRequestCount := blockRequestCount - 1;
      AddressArrives(q.lba, q.n);
      device.Command(AddressBytes(q.lba), CountBytes(q.n));
      if q.write { device.WriteWords(Chunk(q.data, 0)); }
    }

    method Submit(q: Request)
      requires Proper(device.sectors, q) && (inUsing.None? ==> waiting == []) && InStep()
      modifies this`inUsing, this`waiting, this`blockRequestCount, device
      ensures Now() == Submitted(old(Now()), q) && InStep()
    {
      AddRequest(q);
      if inUsing == None { CmdOut(); }
    }

    method EndRequest()
      requires inUsing.Some? && (blockRequestCount != 0 ==> waiting != [] && Proper(device.sectors, waiting[0]))
      modifies this, device
      ensures Now() == Ended(old(Now())) && InStep()
    {
      finished := finished + [Done(inUsing.value.request, inUsing.value.buffer)];
      inUsing := None;
      if blockRequestCount != 0 { CmdOut(); }
    }

    method ReadHandler()
      requires Running(Now()) && !inUsing.value.request.write && InStep()
      requires blockRequestCount != 0 ==> waiting != [] && Proper(device.sectors, waiting[0])
      modifies this, device
      ensures Now() == Interrupted(old(Now())) && InStep()
    {
      var a := inUsing.value;
      var words := device.ReadWords();
      var buffer := a.buffer[..a.at] + words + a.buffer[a.at + SECTOR..];
      var left := a.left - 1;
      if left > 0 {
        inUsing := Some(Active(a.request, left, a.at + SECTOR, buffer));
        return;
      }
      inUsing := Some(Active(a.request, left, a.at, buffer));
      EndRequest();
    }

    method WriteHandler()
      requires Running(Now()) && inUsing.value.request.write && InStep()
      requires blockRequestCount != 0 ==> waiting != [] && Proper(device.sectors, waiting[0])
      modifies this, device
      ensures Now() == Interrupted(old(Now())) && InStep()
    {
      var a := inUsing.value;
      var left := a.left - 1;
      if left > 0 {
        inUsing := Some(Active(a.request, left, a.at + SECTOR, a.buffer));
        device.WriteWords(Chunk(a.buffer, a.at + SECTOR));
        return;
      }
      inUsing := Some(Active(a.request, left, a.at, a.buffer));
      EndRequest();
    }
  }
}
