/** usStorage.c: reassembly of a message from received packages, and the end-to-end round trip. */
module Storage {
  import opened Base
  import opened Usb
  import opened Mux
  import opened Sending

  const PRO_HDR_SIZE: nat := 24
  const PRO_BASIC_MAGIC: u32 := 0xffeeffee
  const PRO_FSONDEV_MAGIC: u32 := 0xffeeff02
  const SCSI_PHONE_MAGIC: u32 := 0xccddeeff

  datatype Stored = Stored(m: Link, inter: seq<byte>, buf: seq<byte>, status: Status, size: nat)

  /** usStorage_RecvPackage: `buf` is the caller's buffer; `size` is *recvSize, 0 for a package that is
      dropped. */
  function RecvMessage(m: Link, inter: seq<byte>, buf: seq<byte>): (s: Stored)
    requires |inter| == INTERBUF_SIZE
    ensures |s.inter| == INTERBUF_SIZE
  {
    var r := RecvAny(m, inter, |buf|);
    if r.status != Ok then Stored(r.m, r.inter, buf, r.status, 0)
    else
      var buf1, n := Overlay(buf, 0, r.payload), |r.payload|;
      if n < PRO_HDR_SIZE then Stored(r.m, r.inter, buf1, Ok, 0)
      else
        var magic, len := Le32At(buf1, 0), Signed32(Le32At(buf1, 16));
        if magic == PRO_BASIC_MAGIC || magic == SCSI_PHONE_MAGIC then Stored(r.m, r.inter, buf1, Ok, n)
        else if magic != PRO_FSONDEV_MAGIC || |buf| < len + PRO_HDR_SIZE then Stored(r.m, r.inter, buf1, Ok, 0)
        else Assemble(r.m, r.inter, buf1, n, (len + PRO_HDR_SIZE) % TWO32)
  }

  /** The loop of usStorage_RecvPackage, with `cur` of `total` bytes received. */
  function Assemble(m: Link, inter: seq<byte>, buf: seq<byte>, cur: nat, total: nat): (s: Stored)
    requires |inter| == INTERBUF_SIZE && cur <= |buf|
    ensures |s.inter| == INTERBUF_SIZE
    decreases |m.inq|
  {
    if cur >= total then Stored(m, inter, buf, Ok, total)
    else
      var r := RecvAny(m, inter, |buf| - cur);
      if r.status != Ok then Stored(r.m, r.inter, buf, r.status, 0)
      else Assemble(r.m, r.inter, Overlay(buf, cur, r.payload), cur + |r.payload|, total)
  }

  /** A file-system message: its len field is its size without the protocol header. */
  predicate WellFormed(msg: seq<byte>) {
    && PRO_HDR_SIZE <= |msg| < 0x8000_0000
    && Le32At(msg, 0) == PRO_FSONDEV_MAGIC && Le32At(msg, 16) == |msg| - PRO_HDR_SIZE
  }

  lemma NotEmpty(msg: seq<byte>)
    requires WellFormed(msg)
    ensures msg != [] && |msg| >= PRO_HDR_SIZE
  {
  }

  // ----- How packets arrive

  function Arrivals(parts: seq<seq<byte>>): seq<In> {
    if parts == [] then [] else [Data(parts[0])] + Arrivals(parts[1..])
  }

  /** A splitting of a packet into USB transfers, of which nothing follows the packet's last byte. The
      zero-length packet sent after a multiple of 512 bytes is not a transfer of its own: it is what ends
      the receiver's last transfer, which always asks for more bytes than the packet has left (RoomLeft). */
  predicate Split(parts: seq<seq<byte>>, packet: seq<byte>) {
    parts != [] && Flatten(parts) == packet && parts[|parts| - 1] != []
  }

  predicate Splits(cuts: seq<seq<seq<byte>>>, segs: seq<Segment>)
    requires Bounded(segs)
  {
    |cuts| == |segs| && forall i :: 0 <= i < |segs| ==> Split(cuts[i], Packet(segs[i]))
  }

  /** The first transfer holds `n` bytes, as many as the header the receiver reads out of it. */
  predicate Holds(parts: seq<seq<byte>>, n: nat) {
    parts != [] && |parts[0]| >= n
  }

  predicate AllHold(cuts: seq<seq<seq<byte>>>, n: nat) {
    forall i :: 0 <= i < |cuts| ==> Holds(cuts[i], n)
  }

  lemma AllHoldTail(cuts: seq<seq<seq<byte>>>, n: nat)
    requires cuts != []
    ensures AllHold(cuts, n) <==> Holds(cuts[0], n) && AllHold(cuts[1..], n)
  {
    hide Holds;
    assert forall i :: 1 <= i < |cuts| ==> cuts[i] == cuts[1..][i - 1];
  }

  /** A whole packet leaves room in interBuf, so a transfer into what is left of it is ended by the packet's
      last, short or zero-length USB packet and not by a full buffer. */
  lemma RoomLeft(s: Segment, cur: nat)
    requires |s.payload| <= IOS_MAX_PACKET && cur <= |Packet(s)|
    ensures INTERBUF_SIZE - cur > |Packet(s)| - cur
  {
    hide Header;
  }

  lemma SplitsTail(cuts: seq<seq<seq<byte>>>, segs: seq<Segment>, rest: seq<In>)
    requires segs != [] && Bounded(segs) && Splits(cuts, segs)
    ensures cuts != [] && Bounded(segs[1..]) && Splits(cuts[1..], segs[1..])
    ensures |segs[0].payload| <= IOS_MAX_PACKET && Split(cuts[0], Packet(segs[0]))
    ensures Inbox(cuts) + rest == Arrivals(cuts[0]) + (Inbox(cuts[1..]) + rest)
  {
    hide Packet, Split, Arrivals;
  }

  function Inbox(cuts: seq<seq<seq<byte>>>): seq<In> {
    if cuts == [] then [] else Arrivals(cuts[0]) + Inbox(cuts[1..])
  }

  lemma NoSplits(cuts: seq<seq<seq<byte>>>, rest: seq<In>)
    requires Bounded([]) && Splits(cuts, [])
    ensures Inbox(cuts) + rest == rest
  {
  }

  // ----- One package

  /** Filling interBuf from any splitting leaves exactly the packet's bytes there. */
  lemma {:induction false} GatherCut(parts: seq<seq<byte>>, rest: seq<In>, inter: seq<byte>, cur: nat, total: nat)
    requires total <= |inter| && cur + |Flatten(parts)| == total
    requires parts != [] ==> parts[|parts| - 1] != []
    ensures Gather(Arrivals(parts) + rest, inter, cur, total)
         == Gathered(rest, Overlay(inter, cur, Flatten(parts)), Ok)
    decreases |parts|
  {
    hide Overlay, Flatten, Arrivals, Gather;
    GatherTurns(Arrivals(parts) + rest, inter, cur, total);
    if parts == [] {
      NoParts(rest);
      OverlayNothing(inter, cur);
    } else {
      var inq := Arrivals(parts) + rest;
      FirstPart(parts, rest);
      LastNonEmpty(parts);
      var inter1 := Overlay(inter, cur, parts[0]);
      GatherCut(parts[1..], rest, inter1, cur + |parts[0]|, total);
      OverlayTwice(inter, cur, parts[0], Flatten(parts[1..]));
    }
  }

  lemma GatherTurns(inq: seq<In>, inter: seq<byte>, cur: nat, total: nat)
    requires total <= |inter|
    ensures cur >= total ==> Gather(inq, inter, cur, total) == Gathered(inq, inter, Ok)
    ensures cur < total && inq != [] && inq[0].Data? && |inq[0].bytes| <= |inter| - cur ==>
              var b := inq[0].bytes;
              Gather(inq, inter, cur, total) == Gather(inq[1..], Overlay(inter, cur, b), cur + |b|, total)
  {
    hide Overlay;
  }

  lemma NoParts(rest: seq<In>)
    ensures Flatten<byte>([]) == [] && Arrivals([]) + rest == rest
  {
  }

  lemma {:induction false} LastNonEmpty(parts: seq<seq<byte>>)
    requires parts != [] && parts[|parts| - 1] != []
    ensures Flatten(parts) != []
    ensures parts[1..] != [] ==> parts[1..][|parts[1..]| - 1] == parts[|parts| - 1]
  {
    if |parts| > 1 {
      LastNonEmpty(parts[1..]);
    }
  }

  /** The acknowledgement of a segment, as it goes out: a header without data, with flags TH_ACK, the
      receiver's own tx_seq and window, and tx_ack as it was before the segment is counted. */
  function AckOf(c: Conn, s: Segment): seq<byte> {
    Header(c.(irxSeq := if c.version >= 2 then s.c.irxSeq else c.irxSeq), TH_ACK, 0)
  }

  /** What a peer reads in it. */
  lemma AckReads(c: Conn, s: Segment)
    ensures var p, mh := AckOf(c, s), c.MuxSize();
            && |p| == c.HeadSize() && Be32At(p, 0) == PROTO_TCP && Be32At(p, 4) == |p|
            && Be32At(p, mh + 4) == c.txSeq && Be32At(p, mh + 8) == c.txAck && p[mh + 13] == TH_ACK
            && Be16At(p, mh + 14) == c.txWin / 0x100 % 0x1_0000
            && (c.version >= 2 ==> Be16At(p, 14) == s.c.irxSeq)
  {
    hide Header, Be32At, Be16At;
    assert AckOf(c, s) + [] == AckOf(c, s);
    HeaderFields(c.(irxSeq := if c.version >= 2 then s.c.irxSeq else c.irxSeq), TH_ACK, []);
  }

  /** The connection fields after a segment has been taken in: what its header said, tx_ack advanced by its
      payload, and, if it carried data, the acknowledgement stamped and, if that went out, noted. */
  function Took(c: Conn, s: Segment, acked: bool): Conn {
    var told := c.(irxSeq := if c.version >= 2 then s.c.irxSeq else c.irxSeq, rxSeq := s.c.txSeq,
                   rxAck := s.c.txAck, rxWin := s.c.txWin / 0x100 % 0x1_0000 * 0x100);
    var sent := if s.payload == [] then told else told.Stamped().(txAcked := if acked then c.txAck else c.txAcked);
    sent.(txAck := Add32(c.txAck, |s.payload|))
  }

  /** A segment has been taken in. One that carried data has been acknowledged: exactly its
      acknowledgement has gone out, or, if a transfer failed, a proper prefix of it; for an empty one
      nothing has. */
  predicate TakenIn(before: Link, after: Link, s: Segment) {
    && after.phone == before.phone && before.wire <= after.wire
    && (s.payload == [] ==>
          after.wire == before.wire && after.outq == before.outq && after.c == Took(before.c, s, false))
    && (s.payload != [] ==>
          var ack, added := AckOf(before.c, s), Flatten(after.wire[|before.wire|..]);
          var p := Push(before.outq, ack);
          && after.outq == p.rest && after.c == Took(before.c, s, p.status == Ok)
          && (if p.status == Ok then added == ack else added < ack))
  }

  /** The reading half of itunes_RecvProPackage: whatever the splitting, the packet ends up at the start
      of interBuf. */
  lemma ReceiveGathers(m: Link, inter: seq<byte>, packet: seq<byte>, parts: seq<seq<byte>>, rest: seq<In>, room: int)
    requires |inter| == INTERBUF_SIZE && m.c.HeadSize() <= |packet| <= INTERBUF_SIZE
    requires Split(parts, packet) && Holds(parts, m.c.MuxSize()) && m.inq == Arrivals(parts) + rest
    requires Be32At(packet, 0) == PROTO_TCP && Be32At(packet, 4) == |packet|
    ensures var buf, full := Overlay(inter, 0, parts[0]), Overlay(inter, 0, packet);
            var m' := m.(c := TakeTcp(TakeMux(m.c, buf), full), inq := rest);
            ReceivePackage(m, inter, room) == Accept(m', full, |packet|, room)
  {
    hide TakeTcp, Accept, Overlay, Be32At;
    assert m.inq[0] == Data(parts[0]) && m.inq[1..] == Arrivals(parts[1..]) + rest;
    assert packet == parts[0] + Flatten(parts[1..]);
    var buf, full := Overlay(inter, 0, parts[0]), Overlay(inter, 0, packet);
    LastNonEmpty(parts);
    GatherCut(parts[1..], rest, buf, |parts[0]|, |packet|);
    OverlayTwice(inter, 0, parts[0], Flatten(parts[1..]));
    FieldsOfStart(inter, parts[0], Flatten(parts[1..]));
  }

  lemma FieldsOfStart(inter: seq<byte>, first: seq<byte>, tail: seq<byte>)
    requires 8 <= |first| <= |inter|
    ensures var buf, packet := Overlay(inter, 0, first), first + tail;
            Be32At(buf, 0) == Be32At(packet, 0) && Be32At(buf, 4) == Be32At(packet, 4)
  {
  }

  /** The deciding half: the payload is handed over and acknowledged. */
  lemma AcceptDecodes(m: Link, full: seq<byte>, s: Segment, n: nat, room: int)
    requires |full| == INTERBUF_SIZE && n == m.c.HeadSize() + |s.payload| <= INTERBUF_SIZE && |s.payload| <= room
    requires full[m.c.MuxSize() + 13] == TH_ACK && full[m.c.HeadSize()..n] == s.payload
    ensures var r := Accept(m, full, n, room);
            var p := Push(m.outq, Header(m.c, TH_ACK, 0));
            var c := m.c.Stamped().(txAcked := if p.status == Ok then m.c.txAck else m.c.txAcked);
            && r.status == Ok && r.payload == s.payload
            && (s.payload == [] ==> r.m == m.(c := m.c.(txAck := Add32(m.c.txAck, 0))))
            && (s.payload != [] ==>
                  r.m == m.(c := c.(txAck := Add32(m.c.txAck, |s.payload|)), outq := p.rest, wire := m.wire + p.xfers))
  {
    hide Header, Push;
    assert Header(m.c, TH_ACK, 0) + [] == Header(m.c, TH_ACK, 0);
  }

  /** The header depends on these fields only. */
  lemma HeaderSame(a: Conn, b: Conn)
    requires a.version == b.version && a.itxSeq == b.itxSeq && a.irxSeq == b.irxSeq
    requires a.sport == b.sport && a.dport == b.dport
    requires a.txSeq == b.txSeq && a.txAck == b.txAck && a.txWin == b.txWin
    ensures Header(a, TH_ACK, 0) == Header(b, TH_ACK, 0)
  {
  }

  /** The deciding half as TakenIn says it. */
  lemma AcceptTakes(m: Link, told: Conn, rest: seq<In>, full: seq<byte>, s: Segment, n: nat, room: int)
    requires |full| == INTERBUF_SIZE && n == m.c.HeadSize() + |s.payload| <= INTERBUF_SIZE && |s.payload| <= room
    requires full[m.c.MuxSize() + 13] == TH_ACK && full[m.c.HeadSize()..n] == s.payload
    requires told == m.c.(irxSeq := if m.c.version >= 2 then s.c.irxSeq else m.c.irxSeq, rxSeq := s.c.txSeq,
                          rxAck := s.c.txAck, rxWin := s.c.txWin / 0x100 % 0x1_0000 * 0x100)
    ensures var r := Accept(m.(c := told, inq := rest), full, n, room);
            r.status == Ok && r.payload == s.payload && r.m.inq == rest && TakenIn(m, r.m, s)
  {
    hide Header, Push, Accept;
    var m1 := m.(c := told, inq := rest);
    AcceptDecodes(m1, full, s, n, room);
    HeaderSame(told, m.c.(irxSeq := if m.c.version >= 2 then s.c.irxSeq else m.c.irxSeq));
    var p := Push(m.outq, AckOf(m.c, s));
    PushDelivers(m.outq, AckOf(m.c, s));
    assert (m.wire + p.xfers)[|m.wire|..] == p.xfers;
    if p.status != Ok {
      assert AckOf(m.c, s) != [];
    }
  }

  /** itunes_RecvProPackage decodes a packet of itunes_SendTCP from a splitting of it exactly when the
      first transfer holds the mux header; on a shorter one it gives up, and leaves the other transfers. */
  lemma ReceiveDecodes(m: Link, inter: seq<byte>, s: Segment, parts: seq<seq<byte>>, rest: seq<In>, room: nat)
    requires |inter| == INTERBUF_SIZE && |s.payload| <= IOS_MAX_PACKET && |s.payload| <= room
    requires s.c.MuxSize() == m.c.MuxSize()
    requires Split(parts, Packet(s)) && m.inq == Arrivals(parts) + rest
    ensures var r := ReceivePackage(m, inter, room);
            if Holds(parts, m.c.MuxSize())
            then r.status == Ok && r.payload == s.payload && r.m.inq == rest && TakenIn(m, r.m, s)
            else r.status == ProPackage && r.m.inq == Arrivals(parts[1..]) + rest
  {
    hide Header, SendTcp, MuxHeader, TcpHeader, Accept, ReceivePackage, Be32At, Be16At, Arrivals, TakenIn, Flatten;
    var packet, mh := Packet(s), m.c.MuxSize();
    if Holds(parts, mh) {
      HeaderFields(s.c, TH_ACK, s.payload);
      ReceiveGathers(m, inter, packet, parts, rest, room);
      var buf, full := Overlay(inter, 0, parts[0]), Overlay(inter, 0, packet);
      FieldsFromPrefix(full, packet, mh);
      StartOfPacket(buf, parts[0], packet, mh);
      assert parts[0] <= packet by { FirstPart(parts, rest); }
      assert full[mh + 20..|packet|] == packet[mh + 20..];
      AcceptTakes(m, TakeTcp(TakeMux(m.c, buf), full), rest, full, s, |packet|, room);
    } else {
      FirstPart(parts, rest);
      ShortStart(m, inter, parts[0], room);
    }
  }

  lemma StartOfPacket(buf: seq<byte>, first: seq<byte>, packet: seq<byte>, mh: nat)
    requires first <= buf && mh <= |first| && |packet| >= 16 && |buf| >= 16
    ensures first <= packet && mh >= 16 ==> Be16At(buf, 14) == Be16At(packet, 14)
  {
  }

  /** A packet with any other flags, a reset among them, is refused, and the connection with it. */
  lemma ReceiveRefuses(m: Link, inter: seq<byte>, peer: Conn, flags: byte, payload: seq<byte>,
                       parts: seq<seq<byte>>, rest: seq<In>, room: nat)
    requires |inter| == INTERBUF_SIZE && |payload| <= IOS_MAX_PACKET && flags != TH_ACK
    requires peer.MuxSize() == m.c.MuxSize() && Holds(parts, m.c.MuxSize())
    requires Split(parts, Header(peer, flags, |payload|) + payload) && m.inq == Arrivals(parts) + rest
    ensures var r := ReceivePackage(m, inter, room); r.status == ProRefuse && r.payload == []
  {
    hide Header, SendTcp, ReceivePackage, Be32At, Be16At, Arrivals, Flatten, ResetReceive;
    var packet, mh := Header(peer, flags, |payload|) + payload, m.c.MuxSize();
    HeaderFields(peer, flags, payload);
    ReceiveGathers(m, inter, packet, parts, rest, room);
    FieldsFromPrefix(Overlay(inter, 0, packet), packet, mh);
  }

  /** Control and version packets, and packets larger than interBuf, are rejected at their first transfer. */
  lemma ReceiveRejects(m: Link, inter: seq<byte>, first: seq<byte>, rest: seq<In>, room: nat)
    requires |inter| == INTERBUF_SIZE && 8 <= |first| <= INTERBUF_SIZE && m.inq == [Data(first)] + rest
    requires Be32At(first, 0) == PROTO_CONTROL || Be32At(first, 0) == PROTO_VERSION || Be32At(first, 4) > INTERBUF_SIZE
    ensures var r := ReceivePackage(m, inter, room); r.status == ProPackage && r.m.inq == rest
  {
    hide Be32At, Be16At, Overlay;
    assert m.inq[1..] == rest;
    FieldsOfStart(inter, first, []);
    assert first + [] == first;
  }

  lemma ShortStart(m: Link, inter: seq<byte>, first: seq<byte>, room: nat)
    requires |inter| == INTERBUF_SIZE && |first| < m.c.MuxSize() && m.inq != [] && m.inq[0] == Data(first)
    ensures var r := ReceivePackage(m, inter, room); r.status == ProPackage && r.m.inq == m.inq[1..]
  {
    hide Be32At, Be16At, Overlay;
  }

  /** The fields read from interBuf are the packet's own. */
  lemma FieldsFromPrefix(full: seq<byte>, packet: seq<byte>, mh: nat)
    requires packet <= full && 8 <= mh && mh + 20 <= |packet|
    ensures Be32At(full, mh + 4) == Be32At(packet, mh + 4) && Be32At(full, mh + 8) == Be32At(packet, mh + 8)
    ensures full[mh + 13] == packet[mh + 13] && Be16At(full, mh + 14) == Be16At(packet, mh + 14)
  {
  }

  // ----- One message

  /** The reassembly loop appends the payloads of the segments and stops at the last of them, exactly when
      every packet's first transfer holds its mux header. */
  lemma {:induction false} AssembleSegments(
    segs: seq<Segment>, cuts: seq<seq<seq<byte>>>, rest: seq<In>,
    m: Link, inter: seq<byte>, buf: seq<byte>, cur: nat, total: nat)
    requires |inter| == INTERBUF_SIZE && Bounded(segs) && Splits(cuts, segs)
    requires m.phone == Ios
    requires forall i :: 0 <= i < |segs| ==> segs[i].c.MuxSize() == m.c.MuxSize()
    requires segs != [] ==> segs[|segs| - 1].payload != []
    requires cur + |Payloads(segs)| == total <= |buf|
    requires m.inq == Inbox(cuts) + rest
    ensures var s := Assemble(m, inter, buf, cur, total);
            if AllHold(cuts, m.c.MuxSize()) then
              && s.status == Ok && s.size == total && s.m.inq == rest
              && s.buf == Overlay(buf, cur, Payloads(segs))
              && s.m.c.txAck == Add32(m.c.txAck, |Payloads(segs)|) && s.m.c.txSeq == m.c.txSeq
            else s.status == ProPackage
    decreases |segs|
  {
    hide Header, ReceivePackage, SendTcp, Packet, Split, Add32, Arrivals, Flatten, Inbox, Splits, Bounded, Overlay,
         Holds, AllHold, TakenIn;
    var mux := m.c.MuxSize();
    if segs == [] {
      NoSplits(cuts, rest);
      NoneHold(cuts, mux);
      OverlayNothing(buf, cur);
      Add32Zero(m.c.txAck);
    } else {
      LastPayload(segs);
      var s := segs[0];
      SplitsTail(cuts, segs, rest);
      AllHoldTail(cuts, mux);
      assert Payloads(segs) == s.payload + Payloads(segs[1..]);
      ReceiveDecodes(m, inter, s, cuts[0], Inbox(cuts[1..]) + rest, |buf| - cur);
      if Holds(cuts[0], mux) {
        var r := ReceivePackage(m, inter, |buf| - cur);
        TakenInKeeps(m, r.m, s);
        var buf1 := Overlay(buf, cur, s.payload);
        AssembleSegments(segs[1..], cuts[1..], rest, r.m, r.inter, buf1, cur + |s.payload|, total);
        Add32Twice(m.c.txAck, |s.payload|, |Payloads(segs[1..])|);
        OverlayTwice(buf, cur, s.payload, Payloads(segs[1..]));
      }
    }
  }

  lemma NoneHold(cuts: seq<seq<seq<byte>>>, n: nat)
    requires Splits(cuts, [])
    ensures AllHold(cuts, n)
  {
  }

  lemma {:induction false} LastPayload(segs: seq<Segment>)
    requires segs != [] && segs[|segs| - 1].payload != []
    ensures Payloads(segs) != []
    ensures segs[1..] != [] ==> segs[1..][|segs[1..]| - 1] == segs[|segs| - 1]
  {
    if |segs| > 1 {
      LastPayload(segs[1..]);
    }
  }

  // ----- End to end

  /** A first fragment holds the protocol header, so the loop runs up to the length of the message. */
  lemma StartsMessage(m: Link, inter: seq<byte>, buf: seq<byte>, msg: seq<byte>)
    requires WellFormed(msg) && |inter| == INTERBUF_SIZE && |msg| <= |buf|
    requires var r := RecvAny(m, inter, |buf|);
             r.status == Ok && r.payload <= msg && PRO_HDR_SIZE <= |r.payload|
    ensures var r := RecvAny(m, inter, |buf|);
            RecvMessage(m, inter, buf) == Assemble(r.m, r.inter, Overlay(buf, 0, r.payload), |r.payload|, |msg|)
  {
    hide RecvAny, Assemble, Le32At;
    var r := RecvAny(m, inter, |buf|);
    var buf1 := Overlay(buf, 0, r.payload);
    assert forall i :: 0 <= i < PRO_HDR_SIZE ==> buf1[i] == msg[i] by {
      forall i | 0 <= i < PRO_HDR_SIZE
        ensures buf1[i] == msg[i]
      {
        assert buf1[i] == r.payload[i];
      }
    }
    Le32Same(buf1, msg, 0);
    Le32Same(buf1, msg, 16);
  }

  /** What one package decides about the message it starts, by its magic and its length: the two short
      requests are handed over as they came, and what is no message of this protocol, or too long for the
      buffer, is passed over. */
  lemma MagicDecides(m: Link, inter: seq<byte>, buf: seq<byte>)
    requires |inter| == INTERBUF_SIZE && RecvAny(m, inter, |buf|).status == Ok
    requires |RecvAny(m, inter, |buf|).payload| >= PRO_HDR_SIZE
    ensures var r, s := RecvAny(m, inter, |buf|), RecvMessage(m, inter, buf);
            var magic, len := Le32At(r.payload, 0), Signed32(Le32At(r.payload, 16));
            && (magic == PRO_BASIC_MAGIC || magic == SCSI_PHONE_MAGIC ==>
                  s == Stored(r.m, r.inter, Overlay(buf, 0, r.payload), Ok, |r.payload|))
            && (magic !in {PRO_BASIC_MAGIC, SCSI_PHONE_MAGIC, PRO_FSONDEV_MAGIC}
                || (magic == PRO_FSONDEV_MAGIC && len > |buf| - PRO_HDR_SIZE) ==>
                  s == Stored(r.m, r.inter, Overlay(buf, 0, r.payload), Ok, 0))
  {
    hide RecvAny, Assemble, Le32At;
    var r := RecvAny(m, inter, |buf|);
    var buf1 := Overlay(buf, 0, r.payload);
    assert r.payload <= buf1;
    Le32Same(buf1, r.payload, 0);
    Le32Same(buf1, r.payload, 16);
  }

  lemma FirstFragment(segs: seq<Segment>, msg: seq<byte>)
    requires segs != [] && segs[0].payload != [] && LongStart(segs, |msg|)
    requires WellFormed(msg) && Payloads(segs) == msg
    ensures segs[0].payload <= msg && PRO_HDR_SIZE <= |segs[0].payload|
    ensures msg == segs[0].payload + Payloads(segs[1..])
  {
  }

  lemma OverlayStart(buf: seq<byte>, a: seq<byte>, b: seq<byte>)
    requires |a| + |b| <= |buf|
    ensures Overlay(Overlay(buf, 0, a), |a|, b) == (a + b) + buf[|a + b|..]
  {
  }

  /** The message has been handed over: it stands at the start of the buffer, nothing behind it has been
      taken in, and all of it has been counted. */
  predicate Delivered(s: Stored, msg: seq<byte>, buf: seq<byte>, rest: seq<In>, before: Link)
    requires |msg| <= |buf|
  {
    && s.status == Ok && s.size == |msg| && s.buf == msg + buf[|msg|..] && s.m.inq == rest
    && s.m.c.txAck == Add32(before.c.txAck, |msg|) && s.m.c.txSeq == before.c.txSeq
  }

  /** A call that hands nothing over, and leaves the buffer alone and `inq` to come. */
  predicate Idle(s: Stored, buf: seq<byte>, inq: seq<In>) {
    s.status == Ok && s.size == 0 && s.buf == buf && s.m.inq == inq
  }

  /** The first package of a message whose first segment is not empty. */
  lemma FirstPackage(segs: seq<Segment>, msg: seq<byte>, cuts: seq<seq<seq<byte>>>, rest: seq<In>,
                     m: Link, inter: seq<byte>, buf: seq<byte>)
    requires segs != [] && segs[0].payload != []
    requires WellFormed(msg) && Payloads(segs) == msg && LongStart(segs, |msg|)
    requires m.phone == Ios && |inter| == INTERBUF_SIZE && |msg| <= |buf|
    requires Bounded(segs) && Splits(cuts, segs) && m.inq == Inbox(cuts) + rest
    requires segs[0].c.MuxSize() == m.c.MuxSize()
    ensures cuts != []
    ensures var r, s := ReceivePackage(m, inter, |buf|), segs[0];
            if Holds(cuts[0], m.c.MuxSize()) then
              && r.m.inq == Inbox(cuts[1..]) + rest && TakenIn(m, r.m, s)
              && |s.payload| + |Payloads(segs[1..])| == |msg| && msg == s.payload + Payloads(segs[1..])
              && RecvMessage(m, inter, buf)
                 == Assemble(r.m, r.inter, Overlay(buf, 0, s.payload), |s.payload|, |msg|)
            else RecvMessage(m, inter, buf).status == ProPackage
  {
    hide Header, ReceivePackage, Packet, Split, Arrivals, Flatten, Assemble, RecvMessage, LongStart, Payloads,
         WellFormed, Overlay, Inbox, Splits, Bounded, Holds, TakenIn;
    SplitsTail(cuts, segs, rest);
    FirstFragment(segs, msg);
    ReceiveDecodes(m, inter, segs[0], cuts[0], Inbox(cuts[1..]) + rest, |buf|);
    if Holds(cuts[0], m.c.MuxSize()) {
      StartsMessage(m, inter, buf, msg);
    } else {
      PassesOn(m, inter, buf);
    }
  }

  /** What taking in a segment leaves of the connection. */
  lemma TakenInKeeps(before: Link, after: Link, s: Segment)
    requires TakenIn(before, after, s)
    ensures after.phone == before.phone && after.c.MuxSize() == before.c.MuxSize()
    ensures after.c.txSeq == before.c.txSeq && after.c.txAck == Add32(before.c.txAck, |s.payload|)
  {
    hide AckOf, Push, Flatten;
  }

  /** The receiver's half: segments that carry a well-formed message, the first of them not empty. */
  lemma ReassembleMessage(segs: seq<Segment>, msg: seq<byte>, cuts: seq<seq<seq<byte>>>, rest: seq<In>,
                          m: Link, inter: seq<byte>, buf: seq<byte>)
    requires segs != [] && segs[0].payload != [] && segs[|segs| - 1].payload != []
    requires WellFormed(msg) && Payloads(segs) == msg && LongStart(segs, |msg|)
    requires m.phone == Ios && |inter| == INTERBUF_SIZE && |msg| <= |buf|
    requires Bounded(segs) && Splits(cuts, segs) && m.inq == Inbox(cuts) + rest
    requires forall i :: 0 <= i < |segs| ==> segs[i].c.MuxSize() == m.c.MuxSize()
    ensures var s := RecvMessage(m, inter, buf);
            if AllHold(cuts, m.c.MuxSize()) then Delivered(s, msg, buf, rest, m) else s.status == ProPackage
  {
    hide ReceivePackage, Packet, Split, Add32, Flatten, Assemble, RecvMessage, LongStart, Payloads,
         WellFormed, Overlay, Inbox, Splits, Bounded, Holds, AllHold, TakenIn;
    var mux := m.c.MuxSize();
    FirstPackage(segs, msg, cuts, rest, m, inter, buf);
    SplitsTail(cuts, segs, rest);
    AllHoldTail(cuts, mux);
    if Holds(cuts[0], mux) {
      var s, r := segs[0], ReceivePackage(m, inter, |buf|);
      TakenInKeeps(m, r.m, s);
      LastPayload(segs);
      AssembleSegments(segs[1..], cuts[1..], rest, r.m, r.inter, Overlay(buf, 0, s.payload), |s.payload|, |msg|);
      Add32Twice(m.c.txAck, |s.payload|, |Payloads(segs[1..])|);
      OverlayStart(buf, s.payload, Payloads(segs[1..]));
    }
  }

  lemma PassesOn(m: Link, inter: seq<byte>, buf: seq<byte>)
    requires m.phone == Ios && |inter| == INTERBUF_SIZE && ReceivePackage(m, inter, |buf|).status == ProPackage
    ensures RecvMessage(m, inter, buf).status == ProPackage
  {
    hide ReceivePackage;
  }

  /** A call that meets an empty segment takes in its packet and nothing else: no byte of the message is
      lost, and the rest of its packets are still to come. */
  lemma EmptySegmentIsIdle(s: Segment, parts: seq<seq<byte>>, rest: seq<In>, m: Link, inter: seq<byte>, buf: seq<byte>)
    requires m.phone == Ios && s.payload == [] && |inter| == INTERBUF_SIZE && s.c.MuxSize() == m.c.MuxSize()
    requires Split(parts, Packet(s)) && m.inq == Arrivals(parts) + rest
    ensures var t := RecvMessage(m, inter, buf);
            if Holds(parts, m.c.MuxSize()) then Idle(t, buf, rest) && TakenIn(m, t.m, s)
            else t.status == ProPackage
  {
    hide Header, ReceivePackage, Packet, Split, Arrivals, Assemble, Le32At, Holds, Overlay, TakenIn;
    ReceiveDecodes(m, inter, s, parts, rest, |buf|);
    OverlayNothing(buf, 0);
  }

  /** The result of the call number `n` (from 0) of usStorage_RecvPackage, made again and again as the main
      loop does while a call returns OK with nothing to handle. */
  function Call(m: Link, inter: seq<byte>, buf: seq<byte>, n: nat): Stored
    requires |inter| == INTERBUF_SIZE
    decreases n
  {
    var s := RecvMessage(m, inter, buf);
    if n == 0 then s else Call(s.m, s.inter, s.buf, n - 1)
  }

  /** The empty segments before the first that carries something: one for each window that the peer
      refreshed to nothing. */
  function Empties(segs: seq<Segment>): (n: nat)
    ensures n <= |segs| && (forall i :: 0 <= i < n ==> segs[i].payload == [])
    ensures n < |segs| ==> segs[n].payload != []
  {
    if segs == [] || segs[0].payload != [] then 0 else 1 + Empties(segs[1..])
  }

  /** How many of them come in packets whose first transfer holds the mux header, up to the first that does
      not. */
  function Waits(segs: seq<Segment>, cuts: seq<seq<seq<byte>>>, mux: nat): (n: nat)
    ensures n <= Empties(segs) && n <= |cuts|
  {
    if segs == [] || cuts == [] || segs[0].payload != [] || !Holds(cuts[0], mux) then 0
    else 1 + Waits(segs[1..], cuts[1..], mux)
  }

  lemma {:induction false} WaitsForAll(segs: seq<Segment>, cuts: seq<seq<seq<byte>>>, mux: nat)
    requires |cuts| == |segs| && AllHold(cuts, mux)
    ensures Waits(segs, cuts, mux) == Empties(segs)
  {
    hide Holds;
    if segs != [] && segs[0].payload == [] {
      AllHoldTail(cuts, mux);
      WaitsForAll(segs[1..], cuts[1..], mux);
    }
  }

  /** Call after call: those that meet empty segments are idle, and the one after them hands the message
      over. */
  lemma {:induction false} CallsDeliver(segs: seq<Segment>, msg: seq<byte>, cuts: seq<seq<seq<byte>>>, rest: seq<In>,
                                        m: Link, inter: seq<byte>, buf: seq<byte>, k: nat)
    requires segs != [] && segs[|segs| - 1].payload != []
    requires WellFormed(msg) && Payloads(segs) == msg && LongStart(segs, |msg|)
    requires m.phone == Ios && |inter| == INTERBUF_SIZE && |msg| <= |buf|
    requires Bounded(segs) && Splits(cuts, segs) && m.inq == Inbox(cuts) + rest
    requires forall i :: 0 <= i < |segs| ==> segs[i].c.MuxSize() == m.c.MuxSize()
    requires k <= Waits(segs, cuts, m.c.MuxSize())
    ensures var s := Call(m, inter, buf, k);
            if k < Waits(segs, cuts, m.c.MuxSize()) then Idle(s, buf, Inbox(cuts[k + 1..]) + rest)
            else if AllHold(cuts, m.c.MuxSize()) then Delivered(s, msg, buf, rest, m)
            else s.status == ProPackage
    decreases |segs|
  {
    hide RecvMessage, Packet, Add32, Arrivals, Split, WellFormed, Inbox, Splits, Bounded, Holds, AllHold, TakenIn;
    var mux := m.c.MuxSize();
    SplitsTail(cuts, segs, rest);
    AllHoldTail(cuts, mux);
    if segs[0].payload != [] {
      ReassembleMessage(segs, msg, cuts, rest, m, inter, buf);
    } else {
      EmptySegmentIsIdle(segs[0], cuts[0], Inbox(cuts[1..]) + rest, m, inter, buf);
      if k > 0 {
        var t := RecvMessage(m, inter, buf);
        TakenInKeeps(m, t.m, segs[0]);
        assert Payloads(segs) == [] + Payloads(segs[1..]) == Payloads(segs[1..]);
        NotEmpty(msg);
        Add32Zero(m.c.txAck);
        assert k < |cuts| ==> cuts[1..][k..] == cuts[k + 1..];
        CallsDeliver(segs[1..], msg, cuts[1..], rest, t.m, t.inter, t.buf, k - 1);
      }
    }
  }

  lemma AllCallsDeliver(segs: seq<Segment>, msg: seq<byte>, cuts: seq<seq<seq<byte>>>, rest: seq<In>,
                        m: Link, inter: seq<byte>, buf: seq<byte>)
    requires segs != [] && segs[|segs| - 1].payload != []
    requires WellFormed(msg) && Payloads(segs) == msg && LongStart(segs, |msg|)
    requires m.phone == Ios && |inter| == INTERBUF_SIZE && |msg| <= |buf|
    requires Bounded(segs) && Splits(cuts, segs) && m.inq == Inbox(cuts) + rest
    requires forall i :: 0 <= i < |segs| ==> segs[i].c.MuxSize() == m.c.MuxSize()
    ensures var mux := m.c.MuxSize();
            var n := Waits(segs, cuts, mux);
            && (forall k :: 0 <= k < n ==> Idle(Call(m, inter, buf, k), buf, Inbox(cuts[k + 1..]) + rest))
            && var s := Call(m, inter, buf, n);
               if AllHold(cuts, mux) then Delivered(s, msg, buf, rest, m) else s.status == ProPackage
  {
    hide WellFormed, Payloads, LongStart, Bounded, Splits, Inbox, Waits, Idle, Call, AllHold, Delivered;
    var n := Waits(segs, cuts, m.c.MuxSize());
    forall k | 0 <= k < n
      ensures Idle(Call(m, inter, buf, k), buf, Inbox(cuts[k + 1..]) + rest)
    {
      CallsDeliver(segs, msg, cuts, rest, m, inter, buf, k);
    }
    CallsDeliver(segs, msg, cuts, rest, m, inter, buf, n);
  }

  /** The round trip. A message sent by itunes_SendProPackage is cut into segments by any windows, and each
      segment's packet into USB transfers in any way. The calls of usStorage_RecvPackage that meet its
      leading empty segments return OK with nothing to handle, each having taken in exactly one packet;
      the next one hands the message over byte for byte, and takes in nothing behind it, exactly when
      every packet's first transfer holds its mux header. At the first that does not, the receiver gives
      up with a package error. */
  lemma RoundTrip(sender: Link, msg: seq<byte>, cuts: seq<seq<seq<byte>>>, rest: seq<In>,
                  receiver: Link, inter: seq<byte>, buf: seq<byte>)
    requires WellFormed(msg) && sender.c.rxWin % 256 == 0
    requires SendMessage(sender, msg).status == Ok
    requires receiver.phone == Ios && |inter| == INTERBUF_SIZE && |msg| <= |buf|
    requires receiver.c.MuxSize() == sender.c.MuxSize()
    requires Bounded(SendMessage(sender, msg).segs)
    requires Splits(cuts, SendMessage(sender, msg).segs)
    requires receiver.inq == Inbox(cuts) + rest
    ensures var segs, mux := SendMessage(sender, msg).segs, receiver.c.MuxSize();
            var n := Waits(segs, cuts, mux);
            && (forall k :: 0 <= k < n ==> Idle(Call(receiver, inter, buf, k), buf, Inbox(cuts[k + 1..]) + rest))
            && var s := Call(receiver, inter, buf, n);
               if AllHold(cuts, mux) then n == Empties(segs) && Delivered(s, msg, buf, rest, receiver)
               else s.status == ProPackage
  {
    hide SendMessage, Packet, Split, LongStart, Payloads, Call, Idle, Splits, Inbox, WellFormed, Delivered, AllHold,
         Waits, Holds, Empties, Bounded;
    var segs, mux := SendMessage(sender, msg).segs, receiver.c.MuxSize();
    SentSegments(sender, msg);
    AllCallsDeliver(segs, msg, cuts, rest, receiver, inter, buf);
    SameNumber(cuts, segs);
    if AllHold(cuts, mux) {
      WaitsForAll(segs, cuts, mux);
    }
  }

  /** What a message sent in full is cut into. */
  lemma SentSegments(sender: Link, msg: seq<byte>)
    requires WellFormed(msg) && sender.c.rxWin % 256 == 0 && SendMessage(sender, msg).status == Ok
    ensures var segs := SendMessage(sender, msg).segs;
            && segs != [] && segs[|segs| - 1].payload != []
            && Payloads(segs) == msg && LongStart(segs, |msg|)
            && forall i :: 0 <= i < |segs| ==> segs[i].c.MuxSize() == sender.c.MuxSize()
  {
    hide SendFrom, Packet, Add32, LongStart, Payloads, Numbered, WellFormed;
    SendDelivers(sender, msg, 0, sender.c.rxWin);
    SendNumbers(sender, msg, 0, sender.c.rxWin);
    SendStartsLong(sender, msg, 0, sender.c.rxWin);
    NotEmpty(msg);
    assert msg[0..] == msg;
  }

  lemma SameNumber(cuts: seq<seq<seq<byte>>>, segs: seq<Segment>)
    requires Bounded(segs) && Splits(cuts, segs)
    ensures |cuts| == |segs|
  {
  }

  /** Does the first segment of a message carry any of it? Only if the peer's window, or else the one it
      advertises next, is not zero. */
  predicate WindowOpens(m: Link) {
    m.c.rxWin != 0 || ReceiveAck(m).m.c.rxWin != 0
  }

  /** The first call is enough exactly when the sender's window opens at once. */
  lemma FirstCallDelivers(sender: Link, msg: seq<byte>)
    requires msg != [] && SendMessage(sender, msg).segs != []
    ensures Empties(SendMessage(sender, msg).segs) == 0 <==> WindowOpens(sender)
  {
    hide SendTcp, ReceiveAck;
  }

  // ----- Android

  lemma {:induction false} AssembleParts(parts: seq<seq<byte>>, rest: seq<In>,
                                         m: Link, inter: seq<byte>, buf: seq<byte>, cur: nat, total: nat)
    requires m.phone == Android && |inter| == INTERBUF_SIZE
    requires parts != [] ==> parts[|parts| - 1] != []
    requires cur + |Flatten(parts)| == total <= |buf| && m.inq == Arrivals(parts) + rest
    ensures Assemble(m, inter, buf, cur, total)
         == Stored(m.(inq := rest), inter, Overlay(buf, cur, Flatten(parts)), Ok, total)
    decreases |parts|
  {
    hide Overlay;
    if parts == [] {
      assert m.inq == rest;
      OverlayNothing(buf, cur);
    } else {
      LastNonEmpty(parts);
      var b := parts[0];
      assert m.inq[0] == Data(b) && m.inq[1..] == Arrivals(parts[1..]) + rest;
      AssembleParts(parts[1..], rest, m.(inq := m.inq[1..]), inter, Overlay(buf, cur, b), cur + |b|, total);
      OverlayTwice(buf, cur, b, Flatten(parts[1..]));
    }
  }

  /** The empty transfers before the first that brings something. */
  function EmptyParts(parts: seq<seq<byte>>): (n: nat)
    ensures n <= |parts| && (n < |parts| ==> parts[n] != [])
  {
    if parts == [] || parts[0] != [] then 0 else 1 + EmptyParts(parts[1..])
  }

  /** The result of the call that takes in the first byte of a message, with transfer `n`: the message, if
      that transfer holds the protocol header; otherwise nothing to handle, its bytes being lost. */
  predicate TakesStart(s: Stored, parts: seq<seq<byte>>, n: nat, msg: seq<byte>, rest: seq<In>,
                       m: Link, inter: seq<byte>, buf: seq<byte>)
    requires n < |parts| && |msg| <= |buf|
  {
    if |parts[n]| >= PRO_HDR_SIZE then s == Stored(m.(inq := rest), inter, msg + buf[|msg|..], Ok, |msg|)
    else s.status == Ok && s.size == 0 && s.m.inq == Arrivals(parts[n + 1..]) + rest
  }

  /** The calls that meet empty transfers are idle, and the next one takes in the start of the message. */
  predicate ArrivesAoa(parts: seq<seq<byte>>, msg: seq<byte>, rest: seq<In>, m: Link, inter: seq<byte>, buf: seq<byte>)
    requires |inter| == INTERBUF_SIZE && |msg| <= |buf|
  {
    var n := EmptyParts(parts);
    && n < |parts|
    && (forall k :: 0 <= k < n ==> Idle(Call(m, inter, buf, k), buf, Arrivals(parts[k + 1..]) + rest))
    && TakesStart(Call(m, inter, buf, n), parts, n, msg, rest, m, inter, buf)
  }

  /** Call after call over AOA: empty transfers cost an idle call each, before the one that takes in the
      first byte. */
  lemma {:induction false} CallsDeliverAoa(parts: seq<seq<byte>>, msg: seq<byte>, rest: seq<In>,
                                           m: Link, inter: seq<byte>, buf: seq<byte>, k: nat)
    requires WellFormed(msg) && Split(parts, msg) && k <= EmptyParts(parts)
    requires m.phone == Android && |inter| == INTERBUF_SIZE && |msg| <= |buf| && m.inq == Arrivals(parts) + rest
    ensures EmptyParts(parts) < |parts|
    ensures var s := Call(m, inter, buf, k);
            if k < EmptyParts(parts) then Idle(s, buf, Arrivals(parts[k + 1..]) + rest)
            else TakesStart(s, parts, k, msg, rest, m, inter, buf)
    decreases |parts|
  {
    hide RecvMessage, Flatten, Arrivals, WellFormed, Assemble, Overlay;
    NotEmpty(msg);
    FirstPart(parts, rest);
    LastNonEmpty(parts);
    assert |parts| == 1 ==> parts[0] == parts[|parts| - 1] != [];
    if parts[0] == [] {
      EmptyTransferIsIdle(m, inter, buf);
      assert [] + Flatten(parts[1..]) == Flatten(parts[1..]);
      var t := RecvMessage(m, inter, buf);
      CallsDeliverAoa(parts[1..], msg, rest, t.m, t.inter, t.buf, if k > 0 then k - 1 else 0);
      assert k > 0 ==> parts[1..][k - 1..] == parts[k..] && parts[1..][k..] == parts[k + 1..];
    } else {
      assert parts[0..] == parts;
      if Holds(parts, PRO_HDR_SIZE) {
        AoaMessage(parts, msg, rest, m, inter, buf);
      } else {
        ShortTransfer(m, inter, buf);
      }
    }
  }

  lemma EmptyTransferIsIdle(m: Link, inter: seq<byte>, buf: seq<byte>)
    requires m.phone == Android && |inter| == INTERBUF_SIZE && m.inq != [] && m.inq[0] == Data([])
    ensures RecvMessage(m, inter, buf) == Stored(m.(inq := m.inq[1..]), inter, buf, Ok, 0)
  {
    OverlayNothing(buf, 0);
  }

  lemma ShortTransfer(m: Link, inter: seq<byte>, buf: seq<byte>)
    requires m.phone == Android && |inter| == INTERBUF_SIZE && m.inq != [] && m.inq[0].Data?
    requires |m.inq[0].bytes| < PRO_HDR_SIZE <= |buf|
    ensures var s := RecvMessage(m, inter, buf); s.status == Ok && s.size == 0 && s.m.inq == m.inq[1..]
  {
    hide Overlay;
  }

  lemma AoaMessage(parts: seq<seq<byte>>, msg: seq<byte>, rest: seq<In>, m: Link, inter: seq<byte>, buf: seq<byte>)
    requires WellFormed(msg) && Split(parts, msg) && Holds(parts, PRO_HDR_SIZE)
    requires m.phone == Android && |inter| == INTERBUF_SIZE && |msg| <= |buf| && m.inq == Arrivals(parts) + rest
    ensures RecvMessage(m, inter, buf) == Stored(m.(inq := rest), inter, msg + buf[|msg|..], Ok, |msg|)
  {
    hide Overlay, Assemble, RecvMessage, Flatten, Arrivals, WellFormed;
    FirstPart(parts, rest);
    LastNonEmpty(parts);
    NotEmpty(msg);
    var b, tail := parts[0], Flatten(parts[1..]);
    StartsMessage(m, inter, buf, msg);
    AssembleParts(parts[1..], rest, m.(inq := m.inq[1..]), inter, Overlay(buf, 0, b), |b|, |msg|);
    OverlayStart(buf, b, tail);
  }

  /** The round trip over AOA: the bytes aoa_SendProPackage puts on the wire, cut into transfers in any way,
      are reassembled into the message by the call that takes in the first of them, exactly when the
      transfer that brings it holds the protocol header; the calls before it meet empty transfers and
      are idle. */
  lemma RoundTripAoa(sender: Link, msg: seq<byte>, parts: seq<seq<byte>>, rest: seq<In>,
                     receiver: Link, inter: seq<byte>, buf: seq<byte>)
    requires WellFormed(msg) && sender.phone == Android
    requires SendPackage(sender, msg).status == Ok
    requires receiver.phone == Android && |inter| == INTERBUF_SIZE && |msg| <= |buf|
    requires sender.wire <= SendPackage(sender, msg).m.wire
    requires Split(parts, Flatten(SendPackage(sender, msg).m.wire[|sender.wire|..]))
    requires receiver.inq == Arrivals(parts) + rest
    ensures ArrivesAoa(parts, msg, rest, receiver, inter, buf)
  {
    hide SendPackage, ArrivesAoa, Flatten, Arrivals, WellFormed, Split;
    NotEmpty(msg);
    SentWhole(sender, msg);
    AllCallsDeliverAoa(parts, msg, rest, receiver, inter, buf);
  }

  lemma SentWhole(sender: Link, msg: seq<byte>)
    requires msg != [] && sender.phone == Android && SendPackage(sender, msg).status == Ok
    ensures sender.wire <= SendPackage(sender, msg).m.wire
    ensures Flatten(SendPackage(sender, msg).m.wire[|sender.wire|..]) == msg
  {
    hide AoaFrom;
    AoaDelivers(sender, msg);
  }

  lemma AllCallsDeliverAoa(parts: seq<seq<byte>>, msg: seq<byte>, rest: seq<In>, m: Link, inter: seq<byte>, buf: seq<byte>)
    requires WellFormed(msg) && Split(parts, msg)
    requires m.phone == Android && |inter| == INTERBUF_SIZE && |msg| <= |buf| && m.inq == Arrivals(parts) + rest
    ensures ArrivesAoa(parts, msg, rest, m, inter, buf)
  {
    hide Call, Arrivals, WellFormed, Idle, TakesStart, Split, EmptyParts;
    var n := EmptyParts(parts);
    CallsDeliverAoa(parts, msg, rest, m, inter, buf, n);
    forall k | 0 <= k < n
      ensures Idle(Call(m, inter, buf, k), buf, Arrivals(parts[k + 1..]) + rest)
    {
      CallsDeliverAoa(parts, msg, rest, m, inter, buf, k);
    }
  }

  lemma FirstPart(parts: seq<seq<byte>>, rest: seq<In>)
    requires parts != []
    ensures Flatten(parts) == parts[0] + Flatten(parts[1..])
    ensures var inq := Arrivals(parts) + rest;
            inq != [] && inq[0] == Data(parts[0]) && inq[1..] == Arrivals(parts[1..]) + rest
  {
    hide Flatten;
    assert Flatten(parts) == parts[0] + Flatten(parts[1..]) by { FlattenFirst(parts); }
    var tail := Arrivals(parts[1..]);
    assert Arrivals(parts) + rest == [Data(parts[0])] + (tail + rest);
  }

  lemma FlattenFirst(parts: seq<seq<byte>>)
    requires parts != []
    ensures Flatten(parts) == parts[0] + Flatten(parts[1..])
  {
  }
}
