/** usProtocol.c and usUsb.c in their own form: a device object whose fields and buffers the operations
    update in place, each proved against its function in Mux.dfy. */
module MuxDevice {
  import opened Base
  import opened Usb
  import opened Mux
  import opened Sending
  import opened Storage

  /** The part of a message no in-place header can reach: 256 bytes less the longest header. */
  const KEPT: nat := 220

  lemma OverlaySlice(before: seq<byte>, at: nat, header: seq<byte>, len: nat)
    requires at + |header| + len <= |before|
    ensures Overlay(before, at, header)[at..at + |header| + len]
         == header + before[at + |header|..at + |header| + len]
  {
  }

  /** A turn at the start of a message sends all of it, or 256 bytes or more, or nothing. */
  lemma TurnSteps(m: Link, msg: seq<byte>, cur: nat, win: nat)
    requires cur < |msg|
    ensures var t := SendTurn(m, msg, cur, win);
            && t.m.c.version == m.c.version
            && (t.status == Ok && cur == 0 && win % 256 == 0 ==>
                  var n := |t.seg.payload|; n == |msg| || n >= 256 || (n == 0 && t.win % 256 == 0))
  {
    hide SendTurn;
    TurnWindow(m, msg, cur, win);
    var part := TurnDelivers(m, msg, cur, win);
  }

  /** A turn, once its acknowledgement (if it needed one) and its segment have been dealt with. */
  lemma TurnIs(m: Link, msg: seq<byte>, cur: nat, win: nat, a: Sent, n: nat)
    requires cur < |msg| && a == if win == 0 then ReceiveAck(m) else Sent(m, Ok)
    requires a.status == Ok
    requires n == Min(Min(|msg| - cur, IOS_MAX_PACKET), if win == 0 then a.m.c.rxWin else win)
    ensures var s := SendTcp(a.m, TH_ACK, msg[cur..cur + n]);
            var t := SendTurn(m, msg, cur, win);
            && t.status == s.status
            && (s.status != Ok ==> t.m == s.m)
            && (s.status == Ok ==>
                  && t.m == s.m.(c := s.m.c.(txSeq := Add32(s.m.c.txSeq, n)))
                  && |t.seg.payload| == n && t.win == (if win == 0 then a.m.c.rxWin else win) - n)
  {
    hide SendTcp, ReceiveAck;
  }

  lemma TurnWaits(m: Link, msg: seq<byte>, cur: nat)
    requires cur < |msg| && ReceiveAck(m).status != Ok
    ensures var t, a := SendTurn(m, msg, cur, 0), ReceiveAck(m); t.status == a.status && t.m == a.m
  {
    hide SendTcp, ReceiveAck;
  }

  class Phone {
    var phoneType: PhoneType
    var c: Conn
    const interBuf: array<byte>

    // usbIOS: what the device will do, and what has gone over the wire.
    var inq: seq<In>
    var outq: seq<Out>
    var wire: seq<seq<byte>>

    constructor (phoneType: PhoneType, inq: seq<In>, outq: seq<Out>)
      ensures Valid() && fresh(interBuf)
      ensures Snap() == Link(phoneType, Conn(0, 0, 0, 0, 0, 0, 0, 0, 0, 0, 0, 0, 0), inq, outq, [])
    {
      c := Conn(0, 0, 0, 0, 0, 0, 0, 0, 0, 0, 0, 0, 0);
      interBuf := new byte[INTERBUF_SIZE](_ => 0);
      this.phoneType, this.inq, this.outq, wire := phoneType, inq, outq, [];
    }

    ghost predicate Valid()
      reads this
    {
      interBuf.Length == INTERBUF_SIZE && c.rxWin % 256 == 0
    }

    function Snap(): Link
      reads this
    {
      Link(phoneType, c, inq, outq, wire)
    }

    // ----- usUsb.c

    /** usUsb_BlukPacketReceive into buf[at..at + room]. */
    method BulkReceive(buf: array<byte>, at: nat, room: nat) returns (status: Status, n: nat)
      requires at + room <= buf.Length
      modifies this`inq, buf
      ensures var g := Pull(old(inq), room);
              && status == g.status && inq == g.rest && n == |g.bytes| <= room
              && buf[..] == Overlay(old(buf[..]), at, g.bytes)
              && (status != Ok ==> g.bytes == [])
    {
      n := 0;
      if inq == [] {
        status := UsbOffline;
      } else {
        var event := inq[0];
        inq := inq[1..];
        match event {
          case InFail(e) => status := e;
          case Data(b) =>
            if |b| > room {
              status := UsbOverflow;
            } else {
              Poke(buf, at, b);
              status, n := Ok, |b|;
            }
        }
      }
    }

    /** usUsb_BlukPacketSend of buf[at..at + len]. */
    method BulkSend(buf: array<byte>, at: nat, len: nat) returns (status: Status)
      requires at + len <= buf.Length
      modifies this`outq, this`wire
      ensures var p := Push(old(outq), buf[at..at + len]);
              status == p.status && outq == p.rest && wire == old(wire) + p.xfers
    {
      var already := 0;
      ghost var goal := Push(outq, buf[at..at + len]);
      while true
        invariant 0 <= already <= len
        invariant var p := Push(outq, buf[at + already..at + len]);
                  && p.status == goal.status && p.rest == goal.rest
                  && wire + p.xfers == old(wire) + goal.xfers
        decreases |outq|
      {
        if outq == [] {
          return UsbOffline;
        }
        var event := outq[0];
        outq := outq[1..];
        match event {
          case OutFail(e) => return e;
          case Moved(n) =>
            var transferred := Min(n, len - already);
            SplitSlice(buf[..], at + already, at + already + transferred, at + len);
            wire := wire + [buf[at + already..at + already + transferred]];
            already := already + transferred;
            if already >= len {
              return Ok;
            }
        }
      }
    }

    // ----- Sending

    /** itunes_SendTCP with its header at buf[at..] and the payload, if any, right behind it: the form
        all its callers use (the iOS header address of a data segment, or ackbuf or interBuf for a
        segment without data). */
    method SendTCP(flags: byte, buf: array<byte>, at: nat, len: nat) returns (status: Status)
      requires at + c.HeadSize() + len <= buf.Length && len < TWO32 - 36
      modifies this, buf
      ensures var s := SendTcp(old(Snap()), flags, old(buf[at + c.HeadSize()..at + c.HeadSize() + len]));
              && Snap() == s.m && status == s.status
              && buf[..] == Overlay(old(buf[..]), at, Header(old(c), flags, len))
      ensures phoneType == old(phoneType) && c.version == old(c.version) && c.rxWin == old(c.rxWin)
    {
      hide Header, Push;
      var header := Header(c, flags, len);
      ghost var before := buf[..];
      ghost var payload := before[at + |header|..at + |header| + len];
      var total := |header| + len;
      c := c.Stamped();
      Poke(buf, at, header);
      OverlaySlice(before, at, header, len);
      assert buf[at..at + total] == buf[..][at..at + total];
      status := BulkSend(buf, at, total);
      if status != Ok {
        return;
      }
      c := c.(txAcked := c.txAck);
      if total % 512 == 0 {
        assert buf[at..at + 0] == [];
        var ignored := BulkSend(buf, at, 0);
      }
    }

    /** A receive into a zeroed local buffer of 512 bytes. */
    method ReceiveSmall() returns (status: Status, buf: seq<byte>, n: nat)
      modifies this`inq
      ensures var g := Pull(old(inq), SMALL_BUFFER);
              && status == g.status && inq == g.rest && n == |g.bytes| <= SMALL_BUFFER
              && buf == Padded(g.bytes)
    {
      var buffer := new byte[SMALL_BUFFER](_ => 0);
      status, n := BulkReceive(buffer, 0, SMALL_BUFFER);
      buf := buffer[..];
    }

    /** itunes_ReceiveAck. */
    method ReceiveAckPacket() returns (status: Status)
      requires Valid()
      modifies this
      ensures Valid() && c.version == old(c.version)
      ensures var a := ReceiveAck(old(Snap())); Snap() == a.m && status == a.status
    {
      hide Padded, Pull, Be16At, Be32At;
      var buf, n;
      status, buf, n := ReceiveSmall();
      if status != Ok {
        return;
      }
      c := TakeMux(c, buf);
      var protocol := Be32At(buf, 0);
      if protocol == PROTO_CONTROL || protocol == PROTO_VERSION || n != c.HeadSize() {
        return ProRevAck;
      }
      c := TakeTcp(c, buf);
    }

    /** The body of the loop of itunes_SendProPackage: the rest of `msg` still lies in the buffer, and
        only the header's bytes just before it are written over. */
    method SendPart(buf: array<byte>, base: nat, cur: nat, size: nat, win: nat, ghost msg: seq<byte>)
      returns (status: Status, n: nat, left: nat)
      requires Valid() && buf != interBuf
      requires cur < size == |msg| < TWO32 - 36
      requires c.HeadSize() <= base && base + size <= buf.Length
      requires buf[base + cur..base + size] == msg[cur..]
      modifies this, buf
      ensures Valid()
      ensures var t := SendTurn(old(Snap()), msg, cur, win);
              && Snap() == t.m && status == t.status
              && (status == Ok ==> n == |t.seg.payload| && left == t.win)
      ensures var hd := old(c.HeadSize());
              forall k :: 0 <= k < buf.Length && !(base + cur - hd <= k < base + cur) ==> buf[k] == old(buf[k])
    {
      hide SendTcp, ReceiveAck, Header, SendTurn, Overlay, Add32;
      ghost var m0 := Snap();
      n, left := 0, win;
      if win == 0 {
        status := ReceiveAckPacket();
        if status != Ok {
          TurnWaits(m0, msg, cur);
          return;
        }
        left := c.rxWin;
      }
      n := Min(Min(size - cur, IOS_MAX_PACKET), left);
      left := left - n;
      FrontOf(buf[..], base + cur, base + size, msg, cur, n);
      ghost var m, before := Snap(), buf[..];
      TurnIs(m0, msg, cur, win, Sent(m, Ok), n);
      status := SendTCP(TH_ACK, buf, base + cur - c.HeadSize(), n);
      AfterHeader(before, buf[..], base + cur - m.c.HeadSize(), Header(m.c, TH_ACK, n));
      if status == Ok {
        c := c.(txSeq := Add32(c.txSeq, n));
      }
    }

    /** itunes_SendProPackage of buf[base..base + size], with room for the headers before it. Although
        every header after the first is written over payload bytes already sent, the wire gets the
        message as it was at the call, the first 220 bytes of it (its protocol header among them) are
        left as they were, and nothing beyond its end is touched. */
    method SendProPackage(buf: array<byte>, base: nat, size: nat) returns (status: Status)
      requires Valid() && buf != interBuf
      requires c.HeadSize() <= base && base + size <= buf.Length && size < TWO32 - 36
      modifies this, buf
      ensures Valid()
      ensures var r := SendMessage(old(Snap()), old(buf[base..base + size]));
              Snap() == r.m && status == r.status
      ensures buf[base..base + Min(size, KEPT)] == old(buf[base..base + Min(size, KEPT)])
      ensures buf[base + size..] == old(buf[base + size..])
      ensures buf[..base - old(c.HeadSize())] == old(buf[..base - c.HeadSize()])
    {
      hide SendTurn;
      if size == 0 {
        return Arg;
      }
      ghost var hd, msg, whole := c.HeadSize(), buf[base..base + size], buf[..];
      ghost var goal := SendMessage(Snap(), msg);
      var cur, win := 0, c.rxWin;
      while cur < size
        invariant Valid() && 0 <= cur <= size && 0 <= win && c.HeadSize() == hd
        invariant cur == size || cur >= 256 || (cur == 0 && win % 256 == 0)
        invariant forall k :: 0 <= k < buf.Length && !(base - hd <= k < base + size) ==> buf[k] == whole[k]
        invariant forall k :: base + cur <= k < base + size ==> buf[k] == whole[k]
        invariant forall k :: base <= k < base + Min(size, KEPT) ==> buf[k] == whole[k]
        invariant var r := SendFrom(Snap(), msg, cur, win); goal.m == r.m && goal.status == r.status
        decreases size - cur, |inq|
      {
        TurnSteps(Snap(), msg, cur, win);
        assert buf[base + cur..base + size] == msg[cur..];
        var n;
        status, n, win := SendPart(buf, base, cur, size, win, msg);
        if status != Ok {
          return;
        }
        cur := cur + n;
      }
      return Ok;
    }

    // ----- Receiving

    /** itunes_ResetReceive: wait until everything sent is acknowledged or the device falls silent, then
        forget the connection. */
    method ResetConnection()
      requires Valid()
      modifies this
      ensures Valid() && Snap() == ResetReceive(old(Snap()))
    {
      hide Padded, Pull, Be16At, Be32At, TakeTcp, ResetReceive;
      ghost var goal := ResetReceive(Snap());
      while c.rxAck != c.txSeq
        invariant Valid() && ResetReceive(Snap()) == goal
        decreases |inq|
      {
        PullShrinks(inq, SMALL_BUFFER);
        ResetTurn(Snap());
        var status, buf, n := ReceiveSmall();
        if status != Ok {
          break;
        }
        WindowOfTcp(TakeMux(c, buf), buf);
        c := TakeMux(c, buf);
        if n < c.HeadSize() {
          continue;
        }
        c := TakeTcp(c, buf);
      }
      ResetEnds(Snap());
      c := c.Zeroed();
    }

    /** The inner loop of itunes_RecvProPackage. */
    method GatherPacket(have: nat, total: nat) returns (status: Status)
      requires interBuf.Length == INTERBUF_SIZE && have <= INTERBUF_SIZE && total <= INTERBUF_SIZE
      modifies this`inq, interBuf
      ensures var h := Gather(old(inq), old(interBuf[..]), have, total);
              inq == h.inq && interBuf[..] == h.inter && status == h.status
    {
      hide Overlay, Gather, Pull;
      ghost var goal := Gather(inq, interBuf[..], have, total);
      var packageCurrent := have;
      var avalen := interBuf.Length - have;
      while packageCurrent < total
        invariant packageCurrent >= 0 && avalen >= 0 && packageCurrent + avalen == interBuf.Length
        invariant Gather(inq, interBuf[..], packageCurrent, total) == goal
        decreases |inq|
      {
        PullShrinks(inq, avalen);
        GatherTurn(inq, interBuf[..], packageCurrent, total);
        var n;
        OverlayNothing(interBuf[..], packageCurrent);
        status, n := BulkReceive(interBuf, packageCurrent, avalen);
        if status != Ok {
          return;
        }
        avalen := avalen - n;
        packageCurrent := packageCurrent + n;
      }
      GatherEnds(inq, interBuf[..], packageCurrent, total);
      return Ok;
    }

    /** itunes_RecvProPackage into buffer[at..at + room]. */
    method RecvProPackage(buffer: array<byte>, at: nat, room: nat) returns (status: Status, n: nat)
      requires Valid() && buffer != interBuf && at + room <= buffer.Length
      modifies this, interBuf, buffer
      ensures Valid()
      ensures var r := ReceivePackage(old(Snap()), old(interBuf[..]), room);
              && Snap() == r.m && interBuf[..] == r.inter && status == r.status
              && n == (if status == Ok then |r.payload| else 0)
              && buffer[..] == if status == Ok then Overlay(old(buffer[..]), at, r.payload) else old(buffer[..])
    {
      hide Gather, Be16At, Be32At, Overlay, Accept;
      n := 0;
      var got, packageTotal;
      OverlayNothing(interBuf[..], 0);
      status, got := BulkReceive(interBuf, 0, interBuf.Length);
      if status != Ok {
        return;
      }
      c := TakeMux(c, interBuf[..]);
      var protocol := Be32At(interBuf[..], 0);
      if protocol == PROTO_CONTROL || protocol == PROTO_VERSION || got < c.MuxSize() {
        return ProPackage, 0;
      }
      packageTotal := Be32At(interBuf[..], 4);
      if packageTotal > interBuf.Length {
        return ProPackage, 0;
      }
      status := GatherPacket(got, packageTotal);
      if status != Ok {
        return;
      }
      c := TakeTcp(c, interBuf[..]);
      status, n := AcceptPacket(packageTotal, buffer, at, room);
    }

    /** The end of itunes_RecvProPackage. */
    method AcceptPacket(packageTotal: nat, buffer: array<byte>, at: nat, room: nat)
      returns (status: Status, n: nat)
      requires Valid() && buffer != interBuf && at + room <= buffer.Length && packageTotal <= INTERBUF_SIZE
      modifies this, buffer
      ensures Valid()
      ensures var r := Accept(old(Snap()), interBuf[..], packageTotal, room);
              && Snap() == r.m && interBuf[..] == r.inter && status == r.status
              && n == (if status == Ok then |r.payload| else 0)
              && buffer[..] == if status == Ok then Overlay(old(buffer[..]), at, r.payload) else old(buffer[..])
    {
      hide SendTcp, ResetReceive, Header;
      n := 0;
      var head := c.HeadSize();
      if interBuf[c.MuxSize() + 13] != TH_ACK {
        ResetConnection();
        return ProRefuse, 0;
      }
      if packageTotal < head || packageTotal - head > room {
        return Undefined, 0;
      }
      n := packageTotal - head;
      if n > 0 {
        var ackbuf := new byte[SMALL_BUFFER](_ => 0);
        assert ackbuf[head..head + 0] == [];
        var ignored := SendTCP(TH_ACK, ackbuf, 0, 0);
        Poke(buffer, at, interBuf[head..packageTotal]);
      } else {
        OverlayNothing(buffer[..], at);
      }
      c := c.(txAck := Add32(c.txAck, n));
      status := Ok;
    }

    // ----- Connecting

    /** itunes_InterMemSendPacket: a small packet through interBuf; `data` is the packet. */
    method SendSmall(data: seq<byte>) returns (status: Status)
      requires Valid() && |data| < SMALL_BUFFER
      modifies this`outq, this`wire, interBuf
      ensures var s := Transmit(old(Snap()), data, c); Snap() == s.m && status == s.status
    {
      Poke(interBuf, 0, data);
      assert interBuf[0..|data|] == interBuf[..][0..|data|] == data;
      status := BulkSend(interBuf, 0, |data|);
    }

    /** itunes_getIOSProVersion. */
    method GetIosVersion(sport: u16) returns (status: Status)
      requires Valid()
      modifies this, interBuf
      ensures Valid() && phoneType == old(phoneType)
      ensures var v := GetVersion(old(Snap()), sport); Snap() == v.m && status == v.status
    {
      hide Push, Pull, Padded, Be32At;
      if c.version == 1 || c.version == 2 {
        return Ok;
      }
      c := c.Zeroed().(version := 0, itxSeq := 0, irxSeq := 0,
                       sport := sport, dport := IOS_PORT, txWin := IOS_WIN_SIZE);
      status := SendSmall(MuxHeader(c, PROTO_VERSION, 20) + Be32(2) + Be32(0) + Be32(0));
      if status != Ok {
        return;
      }
      var buf, n;
      status, buf, n := ReceiveSmall();
      if status != Ok {
        return;
      }
      var major := Be32At(buf, 8);
      if major != 1 && major != 2 {
        return ProVersion;
      }
      c := c.(version := major);
      if major == 2 {
        c := c.(itxSeq := 0, irxSeq := 0xffff);
        var setup := MuxHeader(c, PROTO_SETUP, 17) + [7];
        c := c.Stamped();
        status := SendSmall(setup);
      }
    }

    /** LINUX_ConnectIOSPhone. */
    method ConnectIosPhone(sport: u16) returns (status: Status)
      requires Valid()
      modifies this, interBuf
      ensures Valid()
      ensures var s := Connect(old(Snap()), sport); Snap() == s.m && status == s.status
    {
      hide SendTcp, GetVersion, Pull, Padded, Be32At, TakeTcp, Overlay, Greet;
      status := GetIosVersion(sport);
      if status != Ok {
        return;
      }
      assert interBuf[c.HeadSize()..c.HeadSize() + 0] == [];
      status := SendTCP(TH_SYN, interBuf, 0, 0);
      if status != Ok {
        return;
      }
      var cbuffer := new byte[SMALL_BUFFER](_ => 0);
      ghost var bytes := Pull(inq, SMALL_BUFFER).bytes;
      assert cbuffer[..] == seq(SMALL_BUFFER, _ => 0);
      var n;
      status, n := BulkReceive(cbuffer, 0, SMALL_BUFFER);
      if status != Ok {
        return;
      }
      PaddedIs(cbuffer[..], bytes);
      if Be32At(cbuffer[..], 4) > SMALL_BUFFER {
        return ProConnect;
      }
      var protocol := Be32At(cbuffer[..], 0);
      if protocol == PROTO_CONTROL {
        status, n := BulkReceive(cbuffer, 0, SMALL_BUFFER);
        if status != Ok {
          return ProConnect;
        }
      } else if protocol != PROTO_TCP {
        return ProConnect;
      }
      status := GreetPhone(cbuffer[..]);
    }

    /** The end of LINUX_ConnectIOSPhone: the answer to the SYN. */
    method GreetPhone(buf: seq<byte>) returns (status: Status)
      requires Valid() && |buf| == SMALL_BUFFER
      modifies this, interBuf
      ensures Valid()
      ensures var s := Greet(old(Snap()), buf); Snap() == s.m && status == s.status
    {
      hide SendTcp;
      c := TakeTcp(c, buf);
      var flags := buf[c.MuxSize() + 13];
      if flags != TH_SYNACK {
        if flags / 4 % 2 == 1 {
          c := c.Zeroed();
        }
        return ProConnect;
      }
      c := c.(txSeq := Add32(c.txSeq, 1), txAck := Add32(c.txAck, 1), rxRecvd := c.rxSeq);
      assert interBuf[c.HeadSize()..c.HeadSize() + 0] == [];
      status := SendTCP(TH_ACK, interBuf, 0, 0);
    }

    // ----- usProtocol.c: by kind of phone

    /** aoa_SendProPackage. */
    method AoaSendPackage(buf: array<byte>, base: nat, size: nat) returns (status: Status)
      requires Valid() && base + size <= buf.Length && size > 0
      modifies this
      ensures Valid()
      ensures var s := AoaFrom(old(Snap()), old(buf[base..base + size]), 0); Snap() == s.m && status == s.status
    {
      hide Push;
      ghost var msg := buf[base..base + size];
      ghost var goal := AoaFrom(Snap(), msg, 0);
      var already := 0;
      while already < size
        invariant Valid() && 0 <= already <= size && AoaFrom(Snap(), msg, already) == goal
      {
        var freeSize := size - already;
        var sndSize := if freeSize % 512 == 0 then freeSize - 1 else freeSize;
        assert buf[base + already..base + already + sndSize] == msg[already..already + sndSize];
        status := BulkSend(buf, base + already, sndSize);
        if status != Ok {
          return;
        }
        already := already + sndSize;
      }
      return Ok;
    }

    /** usProtocol_SendPackage, with the promises of both kinds of phone. */
    method SendPackage(buf: array<byte>, base: nat, size: nat) returns (status: Status)
      requires Valid() && buf != interBuf
      requires c.HeadSize() <= base && base + size <= buf.Length && size < TWO32 - 36
      modifies this, buf
      ensures Valid()
      ensures var s := Mux.SendPackage(old(Snap()), old(buf[base..base + size])); Snap() == s.m && status == s.status
      ensures buf[base..base + Min(size, KEPT)] == old(buf[base..base + Min(size, KEPT)])
      ensures buf[base + size..] == old(buf[base + size..])
      ensures buf[..base - old(c.HeadSize())] == old(buf[..base - c.HeadSize()])
    {
      hide SendMessage, AoaFrom;
      match phoneType {
        case Ios => status := SendProPackage(buf, base, size);
        case Android =>
          if size == 0 {
            return Arg;
          }
          status := AoaSendPackage(buf, base, size);
        case NoPhone => return Arg;
      }
    }

    /** usProtocol_RecvPackage into buffer[at..at + room]. */
    method RecvPackage(buffer: array<byte>, at: nat, room: nat) returns (status: Status, n: nat)
      requires Valid() && buffer != interBuf && at + room <= buffer.Length
      modifies this, interBuf, buffer
      ensures Valid()
      ensures var r := RecvAny(old(Snap()), old(interBuf[..]), room);
              && Snap() == r.m && interBuf[..] == r.inter && status == r.status
              && n == (if status == Ok then |r.payload| else 0)
              && buffer[..] == if status == Ok then Overlay(old(buffer[..]), at, r.payload) else old(buffer[..])
    {
      hide ReceivePackage, Overlay;
      match phoneType {
        case Ios => status, n := RecvProPackage(buffer, at, room);
        case Android =>
          OverlayNothing(buffer[..], at);
          status, n := BulkReceive(buffer, at, room);
        case NoPhone => return Arg, 0;
      }
    }

    // ----- usStorage.c

    /** usStorage_RecvPackage. */
    method RecvMessage(buffer: array<byte>) returns (status: Status, recvSize: nat)
      requires Valid() && buffer != interBuf
      modifies this, interBuf, buffer
      ensures Valid()
      ensures var s := Storage.RecvMessage(old(Snap()), old(interBuf[..]), old(buffer[..]));
              && Snap() == s.m && interBuf[..] == s.inter && buffer[..] == s.buf
              && status == s.status && recvSize == s.size
    {
      hide RecvAny, Le32At, Overlay;
      recvSize := 0;
      var curSize;
      status, curSize := RecvPackage(buffer, 0, buffer.Length);
      if status != Ok || curSize < PRO_HDR_SIZE {
        return;
      }
      var magic := Le32At(buffer[..], 0);
      if magic == PRO_BASIC_MAGIC || magic == SCSI_PHONE_MAGIC {
        return Ok, curSize;
      }
      var len := Signed32(Le32At(buffer[..], 16));
      if magic != PRO_FSONDEV_MAGIC || buffer.Length < len + PRO_HDR_SIZE {
        return;
      }
      var totalSize := (len + PRO_HDR_SIZE) % TWO32;
      ghost var goal := Assemble(Snap(), interBuf[..], buffer[..], curSize, totalSize);
      while curSize < totalSize
        invariant Valid() && 0 <= curSize <= buffer.Length
        invariant Assemble(Snap(), interBuf[..], buffer[..], curSize, totalSize) == goal
        decreases |inq|
      {
        var n;
        status, n := RecvPackage(buffer, curSize, buffer.Length - curSize);
        if status != Ok {
          return;
        }
        curSize := curSize + n;
      }
      return Ok, totalSize;
    }
  }

  lemma PaddedIs(buf: seq<byte>, bytes: seq<byte>)
    requires |bytes| <= SMALL_BUFFER && buf == Overlay(seq(SMALL_BUFFER, _ => 0), 0, bytes)
    ensures buf == Padded(bytes)
  {
  }

  lemma GatherTurn(inq: seq<In>, inter: seq<byte>, cur: nat, total: nat)
    requires cur < total <= |inter|
    ensures var g := Pull(inq, |inter| - cur);
            if g.status != Ok then Gather(inq, inter, cur, total) == Gathered(g.rest, inter, g.status)
            else
              && cur + |g.bytes| <= |inter|
              && Gather(inq, inter, cur, total) == Gather(g.rest, Overlay(inter, cur, g.bytes), cur + |g.bytes|, total)
  {
  }

  lemma GatherEnds(inq: seq<In>, inter: seq<byte>, cur: nat, total: nat)
    requires total <= |inter| && total <= cur
    ensures Gather(inq, inter, cur, total) == Gathered(inq, inter, Ok)
  {
  }

  lemma ResetTurn(m: Link)
    requires m.c.rxAck != m.c.txSeq
    ensures var g := Pull(m.inq, SMALL_BUFFER);
            if g.status != Ok then ResetReceive(m) == m.(inq := g.rest, c := m.c.Zeroed())
            else
              var buf := Padded(g.bytes);
              var c := TakeMux(m.c, buf);
              var c' := if |g.bytes| < c.HeadSize() then c else TakeTcp(c, buf);
              ResetReceive(m) == ResetReceive(m.(c := c', inq := g.rest))
  {
  }

  lemma ResetEnds(m: Link)
    ensures m.c.rxAck == m.c.txSeq ==> ResetReceive(m) == m.(c := m.c.Zeroed())
  {
  }

  lemma WindowOfTcp(c: Conn, buf: seq<byte>)
    requires |buf| >= c.HeadSize()
    ensures TakeTcp(c, buf).rxWin % 256 == 0
  {
  }

  lemma SplitSlice(whole: seq<byte>, i: nat, j: nat, k: nat)
    requires i <= j <= k <= |whole|
    ensures whole[i..k][..j - i] == whole[i..j] && whole[i..k][j - i..] == whole[j..k]
  {
  }

  lemma FrontOf(whole: seq<byte>, lo: nat, hi: nat, msg: seq<byte>, cur: nat, n: nat)
    requires lo + n <= hi <= |whole| && cur <= |msg| && whole[lo..hi] == msg[cur..]
    ensures cur + n <= |msg| && whole[lo..lo + n] == msg[cur..cur + n]
  {
    assert whole[lo..lo + n] == whole[lo..hi][..n];
  }

  lemma AfterHeader(before: seq<byte>, after: seq<byte>, at: nat, header: seq<byte>)
    requires at + |header| <= |before| && after == Overlay(before, at, header)
    ensures |after| == |before|
    ensures forall k :: 0 <= k < |before| && !(at <= k < at + |header|) ==> after[k] == before[k]
  {
  }
}
