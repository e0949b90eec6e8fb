/** usProtocol.c as functions on values: what each operation does to the connection
    fields, to the two USB schedules and to the wire. MuxDevice.dfy proves the program's form, which
    works in place on buffers, against these functions. */
module Mux {
  import opened Base
  import opened Usb

  const IOS_MAX_PACKET: nat := 32764
  const INTERBUF_SIZE: nat := 48 * 1024
  const SMALL_BUFFER: nat := 512
  const IOS_WIN_SIZE: u32 := 131072
  const IOS_PORT: u16 := 5555

  const PROTO_VERSION: u32 := 0
  const PROTO_CONTROL: u32 := 1
  const PROTO_SETUP: u32 := 2
  const PROTO_TCP: u32 := 6

  const TH_SYN: byte := 0x02
  const TH_RST: byte := 0x04
  const TH_ACK: byte := 0x10
  const TH_SYNACK: byte := 0x12

  /** The connection fields of mux_itunes. */
  datatype Conn = Conn(
    version: u32, itxSeq: u16, irxSeq: u16, sport: u16, dport: u16,
    txSeq: u32, txAck: u32, txAcked: u32, txWin: u32,
    rxSeq: u32, rxRecvd: u32, rxAck: u32, rxWin: u32)
  {
    /** sizeof(struct mux_header), or 8 for the first protocol version. */
    function MuxSize(): nat {
      if version < 2 then 8 else 16
    }

    /** headOffset: mux header and TCP header together. */
    function HeadSize(): nat {
      MuxSize() + 20
    }

    /** A mux header carries and then advances itx_seq, from version 2 on. */
    function Stamped(): Conn {
      if version < 2 then this else this.(itxSeq := (itxSeq + 1) % 0x1_0000)
    }

    function Zeroed(): Conn {
      this.(txSeq := 0, txAck := 0, txAcked := 0, rxSeq := 0, rxAck := 0, rxRecvd := 0, rxWin := 0)
    }
  }

  datatype PhoneType = NoPhone | Ios | Android

  /** A phone with the USB schedules ahead of it and the transfers already on the wire; `c` is used by
      iOS phones only. */
  datatype Link = Link(phone: PhoneType, c: Conn, inq: seq<In>, outq: seq<Out>, wire: seq<seq<byte>>)

  // ----- Headers

  function MuxHeader(c: Conn, proto: u32, total: u32): (h: seq<byte>)
    ensures |h| == c.MuxSize()
  {
    Be32(proto) + Be32(total) +
    if c.version < 2 then [] else Be32(0xfeedface) + Be16(c.itxSeq) + Be16(c.irxSeq)
  }

  function TcpHeader(c: Conn, flags: byte): (h: seq<byte>)
    ensures |h| == 20
  {
    Be16(c.sport) + Be16(c.dport) + Be32(c.txSeq) + Be32(c.txAck) +
    [0x50, flags] + Be16(c.txWin / 0x100 % 0x1_0000) + [0, 0, 0, 0]
  }

  /** The bytes itunes_SendTCP lays down before a payload of `len` bytes. */
  function Header(c: Conn, flags: byte, len: nat): (h: seq<byte>)
    requires len < TWO32 - 36
    ensures |h| == c.HeadSize()
  {
    MuxHeader(c, PROTO_TCP, c.HeadSize() + len) + TcpHeader(c, flags)
  }

  lemma MuxFields(c: Conn, proto: u32, total: u32)
    ensures var h := MuxHeader(c, proto, total);
            && Be32At(h, 0) == proto && Be32At(h, 4) == total
            && (c.version >= 2 ==> Be16At(h, 14) == c.irxSeq)
  {
    var h := MuxHeader(c, proto, total);
    var tail := if c.version < 2 then [] else Be32(0xfeedface) + Be16(c.itxSeq) + Be16(c.irxSeq);
    Be32RoundTrip(proto);
    Be32RoundTrip(total);
    Be16RoundTrip(c.irxSeq);
    assert h == [] + Be32(proto) + (Be32(total) + tail);
    Be32Inside([], Be32(proto), Be32(total) + tail);
    Be32Inside(Be32(proto), Be32(total), tail);
    if c.version >= 2 {
      var pre := Be32(proto) + Be32(total) + (Be32(0xfeedface) + Be16(c.itxSeq));
      assert h == pre + Be16(c.irxSeq) + [];
      Be16Inside(pre, Be16(c.irxSeq), []);
    }
  }

  lemma TcpFields(c: Conn, flags: byte)
    ensures var t := TcpHeader(c, flags);
            && Be32At(t, 4) == c.txSeq && Be32At(t, 8) == c.txAck && t[13] == flags
            && Be16At(t, 14) == c.txWin / 0x100 % 0x1_0000
  {
    var t := TcpHeader(c, flags);
    var ports, win := Be16(c.sport) + Be16(c.dport), Be16(c.txWin / 0x100 % 0x1_0000);
    var zeros: seq<byte> := [0, 0, 0, 0];
    Be32RoundTrip(c.txSeq);
    Be32RoundTrip(c.txAck);
    Be16RoundTrip(c.txWin / 0x100 % 0x1_0000);
    var pre := ports + Be32(c.txSeq) + Be32(c.txAck) + [0x50, flags];
    assert t == pre + win + zeros;
    Be16Inside(pre, win, zeros);
    assert t == ports + Be32(c.txSeq) + (Be32(c.txAck) + [0x50, flags] + win + zeros);
    Be32Inside(ports, Be32(c.txSeq), Be32(c.txAck) + [0x50, flags] + win + zeros);
    assert t == (ports + Be32(c.txSeq)) + Be32(c.txAck) + ([0x50, flags] + win + zeros);
    Be32Inside(ports + Be32(c.txSeq), Be32(c.txAck), [0x50, flags] + win + zeros);
  }

  /** What a receiver reads back out of a packet. */
  lemma {:induction false} HeaderFields(c: Conn, flags: byte, payload: seq<byte>)
    requires |payload| < TWO32 - 36
    ensures var p := Header(c, flags, |payload|) + payload;
            var mh := c.MuxSize();
            && Be32At(p, 0) == PROTO_TCP
            && Be32At(p, 4) == |p|
            && (c.version >= 2 ==> Be16At(p, 14) == c.irxSeq)
            && Be32At(p, mh + 4) == c.txSeq
            && Be32At(p, mh + 8) == c.txAck
            && p[mh + 13] == flags
            && Be16At(p, mh + 14) == c.txWin / 0x100 % 0x1_0000
            && p[mh + 20..] == payload
  {
    var total, mh := c.HeadSize() + |payload|, c.MuxSize();
    MuxFields(c, PROTO_TCP, total);
    TcpFields(c, flags);
    TwoHeaders(MuxHeader(c, PROTO_TCP, total), TcpHeader(c, flags), payload, mh);
  }

  /** Where the two headers lie in a packet. */
  lemma TwoHeaders(h: seq<byte>, t: seq<byte>, payload: seq<byte>, mh: nat)
    requires |h| == mh >= 8 && |t| == 20
    ensures var p := h + t + payload;
            && Be32At(p, 0) == Be32At(h, 0) && Be32At(p, 4) == Be32At(h, 4)
            && (mh >= 16 ==> Be16At(p, 14) == Be16At(h, 14))
            && Be32At(p, mh + 4) == Be32At(t, 4) && Be32At(p, mh + 8) == Be32At(t, 8)
            && p[mh + 13] == t[13] && Be16At(p, mh + 14) == Be16At(t, 14)
            && p[mh + 20..] == payload
  {
  }

  // ----- Sending

  datatype Sent = Sent(m: Link, status: Status)

  /** Bytes to the wire, then the connection fields `done` if all of them were moved. */
  function Transmit(m: Link, data: seq<byte>, done: Conn): Sent {
    var p := Push(m.outq, data);
    Sent(m.(c := if p.status == Ok then done else m.c, outq := p.rest, wire := m.wire + p.xfers), p.status)
  }

  /** itunes_SendTCP: header and payload in one send, and a zero-length packet (whose own result is
      ignored) when their length is a multiple of 512. */
  function SendTcp(m: Link, flags: byte, payload: seq<byte>): Sent
    requires |payload| < TWO32 - 36
  {
    var packet := Header(m.c, flags, |payload|) + payload;
    var c := m.c.Stamped();
    var s := Transmit(m.(c := c), packet, c.(txAcked := c.txAck));
    if s.status == Ok && |packet| % 512 == 0 then Sent(Transmit(s.m, [], s.m.c).m, Ok)
    else s
  }

  /** A fixed-size zeroed buffer after a receive of `bytes`. */
  function Padded(bytes: seq<byte>): (r: seq<byte>)
    requires |bytes| <= SMALL_BUFFER
    ensures |r| == SMALL_BUFFER && bytes <= r
  {
    bytes + seq(SMALL_BUFFER - |bytes|, _ => 0)
  }

  /** rx_seq, rx_ack and rx_win out of the TCP header at `mh`. */
  function TakeTcp(c: Conn, buf: seq<byte>): Conn
    requires |buf| >= c.HeadSize()
  {
    var mh := c.MuxSize();
    c.(rxSeq := Be32At(buf, mh + 4), rxAck := Be32At(buf, mh + 8), rxWin := Be16At(buf, mh + 14) * 0x100)
  }

  function TakeMux(c: Conn, buf: seq<byte>): Conn
    requires |buf| >= 16
  {
    if c.version >= 2 then c.(irxSeq := Be16At(buf, 14)) else c
  }

  /** itunes_ReceiveAck. */
  function ReceiveAck(m: Link): (r: Sent)
    ensures |r.m.inq| <= |m.inq| && (r.status == Ok ==> |r.m.inq| < |m.inq|)
  {
    var g := Pull(m.inq, SMALL_BUFFER);
    if g.status != Ok then Sent(m.(inq := g.rest), g.status)
    else
      var buf := Padded(g.bytes);
      var c := TakeMux(m.c, buf);
      if Be32At(buf, 0) == PROTO_CONTROL || Be32At(buf, 0) == PROTO_VERSION || |g.bytes| != c.HeadSize()
      then Sent(m.(inq := g.rest, c := c), ProRevAck)
      else Sent(m.(inq := g.rest, c := TakeTcp(c, buf)), Ok)
  }

  /** One TCP segment with the connection fields its header was made from. */
  datatype Segment = Segment(c: Conn, payload: seq<byte>)

  function Packet(s: Segment): seq<byte>
    requires |s.payload| < TWO32 - 36
  {
    Header(s.c, TH_ACK, |s.payload|) + s.payload
  }

  /** The outcome of one turn: the segment sent, if it was, and the window left after it. */
  datatype Turn = Turn(m: Link, status: Status, seg: Segment, win: nat)

  /** One turn of the loop of itunes_SendProPackage: wait for a window if there is none left, then send
      as much of `msg` from byte `cur` on as fits one packet and the window. A window refreshed to
      nothing makes an empty segment. */
  function SendTurn(m: Link, msg: seq<byte>, cur: nat, win: nat): (t: Turn)
    requires cur < |msg|
    ensures t.status == Ok ==>
              && cur + |t.seg.payload| <= |msg| && t.seg.payload == msg[cur..cur + |t.seg.payload|]
              && |t.m.inq| <= |m.inq| && (t.seg.payload == [] ==> |t.m.inq| < |m.inq|)
  {
    var a := if win == 0 then ReceiveAck(m) else Sent(m, Ok);
    if a.status != Ok then Turn(a.m, a.status, Segment(a.m.c, []), 0)
    else
      var w := if win == 0 then a.m.c.rxWin else win;
      var n := Min(Min(|msg| - cur, IOS_MAX_PACKET), w);
      var s := SendTcp(a.m, TH_ACK, msg[cur..cur + n]);
      if s.status != Ok then Turn(s.m, s.status, Segment(a.m.c, []), 0)
      else
        var c := s.m.c.(txSeq := Add32(s.m.c.txSeq, n));
        Turn(s.m.(c := c), Ok, Segment(a.m.c, msg[cur..cur + n]), w - n)
  }

  datatype SentAll = SentAll(m: Link, status: Status, segs: seq<Segment>)

  /** The loop of itunes_SendProPackage from byte `cur` of `msg` on, with `win` bytes of window left;
      `segs` are the segments fully sent. */
  function SendFrom(m: Link, msg: seq<byte>, cur: nat, win: nat): SentAll
    requires cur <= |msg|
    decreases |msg| - cur, |m.inq|
  {
    if cur == |msg| then SentAll(m, Ok, [])
    else
      var t := SendTurn(m, msg, cur, win);
      if t.status != Ok then SentAll(t.m, t.status, [])
      else
        var r := SendFrom(t.m, msg, cur + |t.seg.payload|, t.win);
        SentAll(r.m, r.status, [t.seg] + r.segs)
  }

  /** itunes_SendProPackage on the message `msg`. */
  function SendMessage(m: Link, msg: seq<byte>): SentAll {
    if msg == [] then SentAll(m, Arg, []) else SendFrom(m, msg, 0, m.c.rxWin)
  }

  /** The loop of aoa_SendProPackage: a send whose length would be a multiple of 512 is cut by one byte. */
  function AoaFrom(m: Link, msg: seq<byte>, already: nat): Sent
    requires already <= |msg|
    decreases |msg| - already
  {
    if already == |msg| then Sent(m, Ok)
    else
      var free := |msg| - already;
      var n := if free % 512 == 0 then free - 1 else free;
      var s := Transmit(m, msg[already..already + n], m.c);
      if s.status != Ok then s else AoaFrom(s.m, msg, already + n)
  }

  /** usProtocol_SendPackage. */
  function SendPackage(m: Link, msg: seq<byte>): Sent {
    match m.phone
    case Ios => var r := SendMessage(m, msg); Sent(r.m, r.status)
    case Android => if msg == [] then Sent(m, Arg) else AoaFrom(m, msg, 0)
    case NoPhone => Sent(m, Arg)
  }

  // ----- Receiving

  /** itunes_ResetReceive. */
  function ResetReceive(m: Link): Link
    decreases |m.inq|
  {
    if m.c.rxAck == m.c.txSeq then m.(c := m.c.Zeroed())
    else
      var g := Pull(m.inq, SMALL_BUFFER);
      if g.status != Ok then m.(inq := g.rest, c := m.c.Zeroed())
      else
        var buf := Padded(g.bytes);
        var c := TakeMux(m.c, buf);
        ResetReceive(m.(inq := g.rest, c := if |g.bytes| < c.HeadSize() then c else TakeTcp(c, buf)))
  }

  datatype Gathered = Gathered(inq: seq<In>, inter: seq<byte>, status: Status)

  /** The inner loop of itunes_RecvProPackage: fill interBuf up to `total` bytes. */
  function Gather(inq: seq<In>, inter: seq<byte>, cur: nat, total: nat): (r: Gathered)
    requires total <= |inter|
    ensures |r.inter| == |inter| && |r.inq| <= |inq|
    decreases |inq|
  {
    if cur >= total then Gathered(inq, inter, Ok)
    else
      var g := Pull(inq, |inter| - cur);
      if g.status != Ok then Gathered(g.rest, inter, g.status)
      else Gather(g.rest, Overlay(inter, cur, g.bytes), cur + |g.bytes|, total)
  }

  datatype Received = Received(m: Link, inter: seq<byte>, status: Status, payload: seq<byte>)

  /** itunes_RecvProPackage into a caller's buffer of `room` bytes; `inter` is interBuf, which keeps
      its old bytes where nothing is received over them. */
  function ReceivePackage(m: Link, inter: seq<byte>, room: int): (r: Received)
    requires |inter| == INTERBUF_SIZE
    ensures |r.inter| == INTERBUF_SIZE
    ensures r.status == Ok ==> |r.m.inq| < |m.inq| && |r.payload| <= room
  {
    var g := Pull(m.inq, INTERBUF_SIZE);
    if g.status != Ok then Received(m.(inq := g.rest), inter, g.status, [])
    else
      var buf := Overlay(inter, 0, g.bytes);
      var m1 := m.(inq := g.rest, c := TakeMux(m.c, buf));
      var total := Be32At(buf, 4);
      if || Be32At(buf, 0) == PROTO_CONTROL || Be32At(buf, 0) == PROTO_VERSION
         || |g.bytes| < m1.c.MuxSize() || total > INTERBUF_SIZE
      then Received(m1, buf, ProPackage, [])
      else
        var h := Gather(g.rest, buf, |g.bytes|, total);
        if h.status != Ok then Received(m1.(inq := h.inq), h.inter, h.status, [])
        else Accept(m1.(inq := h.inq, c := TakeTcp(m1.c, h.inter)), h.inter, total, room)
  }

  /** The end of itunes_RecvProPackage, with the whole packet of `total` bytes in interBuf. */
  function Accept(m: Link, inter: seq<byte>, total: nat, room: int): (r: Received)
    requires |inter| == INTERBUF_SIZE && total <= INTERBUF_SIZE
    ensures |r.inter| == INTERBUF_SIZE
    ensures r.status == Ok ==> r.m.inq == m.inq && |r.payload| <= room
  {
    var hd := m.c.HeadSize();
    if inter[m.c.MuxSize() + 13] != TH_ACK then Received(ResetReceive(m), inter, ProRefuse, [])
    else if total < hd || total - hd > room then Received(m, inter, Undefined, [])
    else
      var n := total - hd;
      var m1 := if n > 0 then SendTcp(m, TH_ACK, []).m else m;
      Received(m1.(c := m1.c.(txAck := Add32(m1.c.txAck, n))), inter, Ok, inter[hd..total])
  }

  /** usProtocol_RecvPackage: an Android phone's transfers are handed over as they come. */
  function RecvAny(m: Link, inter: seq<byte>, room: int): (r: Received)
    requires |inter| == INTERBUF_SIZE
    ensures |r.inter| == INTERBUF_SIZE
    ensures r.status == Ok ==> |r.m.inq| < |m.inq| && |r.payload| <= room
  {
    match m.phone
    case Ios => ReceivePackage(m, inter, room)
    case Android => var g := Pull(m.inq, room); Received(m.(inq := g.rest), inter, g.status, g.bytes)
    case NoPhone => Received(m, inter, Arg, [])
  }

  // ----- Connecting

  /** itunes_getIOSProVersion, with the source port that find_sport would hand out. */
  function GetVersion(m: Link, sport: u16): Sent {
    if m.c.version == 1 || m.c.version == 2 then Sent(m, Ok)
    else
      var c := m.c.Zeroed().(version := 0, itxSeq := 0, irxSeq := 0,
                             sport := sport, dport := IOS_PORT, txWin := IOS_WIN_SIZE);
      var s := Transmit(m.(c := c), MuxHeader(c, PROTO_VERSION, 20) + Be32(2) + Be32(0) + Be32(0), c);
      if s.status != Ok then s
      else
        var g := Pull(s.m.inq, SMALL_BUFFER);
        if g.status != Ok then Sent(s.m.(inq := g.rest), g.status)
        else
          var major := Be32At(Padded(g.bytes), 8);
          if major != 1 && major != 2 then Sent(s.m.(inq := g.rest), ProVersion)
          else
            var m1 := s.m.(inq := g.rest, c := s.m.c.(version := major));
            if major == 1 then Sent(m1, Ok)
            else
              var c1 := m1.c.(itxSeq := 0, irxSeq := 0xffff);
              Transmit(m1.(c := c1.Stamped()), MuxHeader(c1, PROTO_SETUP, 17) + [7], c1.Stamped())
  }

  /** LINUX_ConnectIOSPhone. */
  function Connect(m: Link, sport: u16): Sent {
    var v := GetVersion(m, sport);
    if v.status != Ok then v
    else
      var s := SendTcp(v.m, TH_SYN, []);
      if s.status != Ok then s
      else
        var g := Pull(s.m.inq, SMALL_BUFFER);
        var m1 := s.m.(inq := g.rest);
        if g.status != Ok then Sent(m1, g.status)
        else
          var buf := Padded(g.bytes);
          if Be32At(buf, 4) > SMALL_BUFFER then Sent(m1, ProConnect)
          else if Be32At(buf, 0) == PROTO_TCP then Greet(m1, buf)
          else if Be32At(buf, 0) == PROTO_CONTROL then
            var g2 := Pull(g.rest, SMALL_BUFFER);
            if g2.status != Ok then Sent(m1.(inq := g2.rest), ProConnect)
            else Greet(m1.(inq := g2.rest), Overlay(buf, 0, g2.bytes))
          else Sent(m1, ProConnect)
  }

  /** The answer to the SYN. */
  function Greet(m: Link, buf: seq<byte>): Sent
    requires |buf| == SMALL_BUFFER
  {
    var c := TakeTcp(m.c, buf);
    var flags := buf[c.MuxSize() + 13];
    if flags != TH_SYNACK then
      Sent(m.(c := if flags / 4 % 2 == 1 then c.Zeroed() else c), ProConnect)
    else
      SendTcp(m.(c := c.(txSeq := Add32(c.txSeq, 1), txAck := Add32(c.txAck, 1), rxRecvd := c.rxSeq)), TH_ACK, [])
  }
}
