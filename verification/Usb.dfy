/** usUsb.c: bulk transfers over an arbitrary finite schedule of results of libusb_bulk_transfer.
    When a schedule is used up the device is reported as gone (LIBUSB_ERROR_NO_DEVICE). */
module Usb {
  import opened Base

  /** What one inbound libusb transfer brings: some bytes, or an error. */
  datatype In = Data(bytes: seq<byte>) | InFail(err: UsbError)

  /** What one outbound libusb transfer does: it moves at most `n` of the offered bytes, or fails. */
  datatype Out = Moved(n: nat) | OutFail(err: UsbError)

  predicate IsUsbError(s: Status) {
    s == UsbTimeout || s == UsbOffline || s == UsbOverflow || s == UsbBulkErr
  }

  type UsbError = s: Status | IsUsbError(s) witness UsbTimeout

  datatype Pulled = Pulled(status: Status, bytes: seq<byte>, rest: seq<In>)

  /** usUsb_BlukPacketReceive into a buffer of `room` bytes. */
  function Pull(inq: seq<In>, room: int): Pulled {
    if inq == [] then Pulled(UsbOffline, [], [])
    else match inq[0]
      case InFail(e) => Pulled(e, [], inq[1..])
      case Data(b) => if |b| > room then Pulled(UsbOverflow, [], inq[1..]) else Pulled(Ok, b, inq[1..])
  }

  lemma PullShrinks(inq: seq<In>, room: nat)
    ensures var g := Pull(inq, room);
            && |g.bytes| <= room
            && (if g.status == Ok then |g.rest| < |inq| else g.bytes == [])
  {
  }

  datatype Pushed = Pushed(status: Status, rest: seq<Out>, xfers: seq<seq<byte>>)

  /** The do-while loop of usUsb_BlukPacketSend: `xfers` are the byte strings the transfers moved. */
  function Push(outq: seq<Out>, data: seq<byte>): Pushed
    decreases |outq|
  {
    if outq == [] then Pushed(UsbOffline, [], [])
    else match outq[0]
      case OutFail(e) => Pushed(e, outq[1..], [])
      case Moved(n) =>
        var k := Min(n, |data|);
        if k == |data| then Pushed(Ok, outq[1..], [data])
        else
          var p := Push(outq[1..], data[k..]);
          Pushed(p.status, p.rest, [data[..k]] + p.xfers)
  }

  /** A send that succeeds has moved exactly the buffer; one that fails has moved a proper prefix. */
  lemma {:induction false} PushDelivers(outq: seq<Out>, data: seq<byte>)
    ensures var p := Push(outq, data);
            && (p.status == Ok ==> Flatten(p.xfers) == data && p.xfers != [])
            && (p.status != Ok ==> Flatten(p.xfers) <= data && (data != [] ==> |Flatten(p.xfers)| < |data|))
            && (p.status == Ok || IsUsbError(p.status))
            && |p.rest| <= |outq|
    decreases |outq|
  {
    hide Flatten;
    if outq == [] || outq[0].OutFail? {
      NothingFlat();
    } else {
      var k := Min(outq[0].n, |data|);
      if k == |data| {
        FlattenCons(data, []);
      } else {
        var rest := data[k..];
        assert data == data[..k] + rest;
        PushDelivers(outq[1..], rest);
        FlattenCons(data[..k], Push(outq[1..], rest).xfers);
      }
    }
  }

  lemma NothingFlat()
    ensures Flatten<byte>([]) == []
  {
  }

  /** The bytes the first `k` transfers of a schedule could move. */
  function MovedBy(outq: seq<Out>, k: nat): nat
    requires k <= |outq|
  {
    if k == 0 then 0 else MovedBy(outq, k - 1) + if outq[k - 1].Moved? then outq[k - 1].n else 0
  }

  /** The first `k` transfers, at least one, work and can move `len` bytes. */
  predicate Through(outq: seq<Out>, len: nat, k: nat) {
    0 < k <= |outq| && (forall i :: 0 <= i < k ==> outq[i].Moved?) && MovedBy(outq, k) >= len
  }

  lemma {:induction false} MovedByTail(outq: seq<Out>, k: nat)
    requires 0 < k <= |outq|
    ensures MovedBy(outq, k) == (if outq[0].Moved? then outq[0].n else 0) + MovedBy(outq[1..], k - 1)
  {
    if k > 1 {
      MovedByTail(outq, k - 1);
    }
  }

  /** A send succeeds exactly when its schedule starts with working transfers that can move the buffer. */
  lemma {:induction false} PushOkIff(outq: seq<Out>, data: seq<byte>)
    ensures Push(outq, data).status == Ok <==> exists k: nat :: Through(outq, |data|, k)
    decreases |outq|
  {
    if outq != [] && outq[0].Moved? {
      var n := Min(outq[0].n, |data|);
      if n == |data| {
        MovedByTail(outq, 1);
        assert Through(outq, |data|, 1);
      } else {
        PushOkIff(outq[1..], data[n..]);
        forall k: nat | 0 < k <= |outq|
          ensures Through(outq, |data|, k) <==> Through(outq[1..], |data| - n, k - 1)
        {
          ThroughTail(outq, |data|, k);
        }
        if Push(outq[1..], data[n..]).status == Ok {
          var k: nat :| Through(outq[1..], |data[n..]|, k);
          assert Through(outq, |data|, k + 1);
        }
        if k: nat :| Through(outq, |data|, k) {
          assert Through(outq[1..], |data[n..]|, k - 1);
        }
      }
    }
  }

  lemma ThroughTail(outq: seq<Out>, len: nat, k: nat)
    requires 0 < k <= |outq| && outq[0].Moved? && outq[0].n < len
    ensures Through(outq, len, k) <==> Through(outq[1..], len - outq[0].n, k - 1)
  {
    MovedByTail(outq, k);
    assert forall i :: 1 <= i < |outq| ==> outq[i] == outq[1..][i - 1];
  }

  /** The next `n` transfers work, each moving something. */
  predicate Works(outq: seq<Out>, n: int) {
    n <= |outq| && forall i :: 0 <= i < n ==> outq[i].Moved? && outq[i].n >= 1
  }

  /** Over a working schedule a send succeeds, with at most a transfer a byte. */
  lemma {:induction false} PushWorks(outq: seq<Out>, data: seq<byte>, n: int)
    requires Works(outq, n) && n >= |data| && n >= 1
    ensures var p := Push(outq, data);
            p.status == Ok && Works(p.rest, n - if data == [] then 1 else |data|)
    decreases |outq|
  {
    var k := Min(outq[0].n, |data|);
    WorksTail(outq, n, 1);
    if k != |data| {
      PushWorks(outq[1..], data[k..], n - 1);
      WorksLess(Push(outq[1..], data[k..]).rest, n - 1 - |data[k..]|, n - |data|);
    } else {
      WorksLess(outq[1..], n - 1, n - if data == [] then 1 else |data|);
    }
  }

  lemma WorksTail(outq: seq<Out>, n: int, k: nat)
    requires Works(outq, n) && k <= |outq|
    ensures Works(outq[k..], n - k)
  {
  }

  lemma WorksLess(outq: seq<Out>, n: int, k: int)
    requires Works(outq, n) && k <= n
    ensures Works(outq, k)
  {
  }

  /** A bulk transfer of `n` bytes ends with a short packet, or is a zero-length one. */
  predicate ShortPacket(n: nat) {
    n == 0 || n % 512 != 0
  }

  predicate EndsShort(xfers: seq<seq<byte>>) {
    xfers != [] && ShortPacket(|xfers[|xfers| - 1]|)
  }

  /** How many of `len` bytes the last transfer of a send that succeeds moves: what those before it have
      left over. */
  function LastMove(outq: seq<Out>, len: nat): (n: nat)
    ensures n <= len && (len > 0 ==> n > 0)
    decreases |outq|
  {
    if outq == [] || outq[0].OutFail? || outq[0].n >= len then len else LastMove(outq[1..], len - outq[0].n)
  }

  /** A delivered buffer ends with a short packet exactly when its last transfer moved nothing or no
      multiple of 512 bytes. */
  lemma {:induction false} PushEndsShort(outq: seq<Out>, data: seq<byte>)
    requires Push(outq, data).status == Ok
    ensures EndsShort(Push(outq, data).xfers) <==> ShortPacket(LastMove(outq, |data|))
    decreases |outq|
  {
    hide ShortPacket;
    var k := Min(outq[0].n, |data|);
    if k != |data| {
      var rest := data[k..];
      PushDelivers(outq[1..], rest);
      PushEndsShort(outq[1..], rest);
      LastOfMore(data[..k], Push(outq[1..], rest).xfers);
    }
  }

  lemma LastOfMore(x: seq<byte>, xs: seq<seq<byte>>)
    requires xs != []
    ensures EndsShort([x] + xs) == EndsShort(xs)
  {
    hide ShortPacket;
  }

  /** Partial transfers break at 512-byte packet boundaries; a result of `len` or more moves everything. */
  predicate AtPacketBoundaries(outq: seq<Out>, len: nat) {
    forall i :: 0 <= i < |outq| && outq[i].Moved? ==> outq[i].n % 512 == 0 || outq[i].n >= len
  }

  /** If transfers break only at packet boundaries, the last one is as short as the buffer. */
  lemma {:induction false} LastAtBoundaries(outq: seq<Out>, len: nat)
    requires AtPacketBoundaries(outq, len)
    ensures ShortPacket(LastMove(outq, len)) <==> ShortPacket(len)
    decreases |outq|
  {
    hide ShortPacket;
    if outq != [] && outq[0].Moved? && outq[0].n < len {
      LastAtBoundaries(outq[1..], len - outq[0].n);
      SplitAtPackets(len, outq[0].n);
    }
  }

  lemma SplitAtPackets(len: nat, k: nat)
    requires k < len && k % 512 == 0
    ensures ShortPacket(len - k) <==> ShortPacket(len)
  {
  }
}
