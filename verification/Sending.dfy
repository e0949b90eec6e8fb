/** What one itunes_SendProPackage call does, over every USB schedule and every window the peer
    advertises: delivery, sequence numbers, window accounting, fragment sizes, framing. */
module Sending {
  import opened Base
  import opened Usb
  import opened Mux

  /** The payload bytes of a run of segments. */
  function Payloads(segs: seq<Segment>): seq<byte> {
    if segs == [] then [] else segs[0].payload + Payloads(segs[1..])
  }

  predicate Bounded(segs: seq<Segment>) {
    forall i :: 0 <= i < |segs| ==> |segs[i].payload| <= IOS_MAX_PACKET
  }

  /** The bytes a run of segments puts on the wire. */
  function Packets(segs: seq<Segment>): seq<byte>
    requires Bounded(segs)
  {
    if segs == [] then [] else Packet(segs[0]) + Packets(segs[1..])
  }

  /** th_seq of each segment is `start` plus the payload sent before it, modulo 2^32. */
  predicate Numbered(segs: seq<Segment>, start: u32) {
    segs == [] ||
    (segs[0].c.txSeq == start && Numbered(segs[1..], Add32(start, |segs[0].payload|)))
  }

  /** The fields no send touches. */
  predicate SameEnds(a: Conn, b: Conn) {
    && a.version == b.version && a.sport == b.sport && a.dport == b.dport
    && a.txWin == b.txWin && a.txAck == b.txAck
  }

  /** Whole, or a multiple of 256 bytes or more: what a fragment that starts a message can be. */
  predicate LongStart(segs: seq<Segment>, size: nat) {
    segs == [] ||
    (if segs[0].payload == [] then LongStart(segs[1..], size)
     else |segs[0].payload| == size || |segs[0].payload| >= 256)
  }

  lemma Add32Twice(a: u32, m: nat, n: nat)
    ensures Add32(Add32(a, m), n) == Add32(a, m + n)
  {
  }

  lemma Add32Zero(a: u32)
    ensures Add32(a, 0) == a
  {
  }

  // ----- One segment

  /** A segment sent is on the wire whole; one that fails leaves a proper prefix. */
  lemma SendTcpDelivers(m: Link, flags: byte, payload: seq<byte>)
    requires |payload| < TWO32 - 36
    ensures var s := SendTcp(m, flags, payload);
            var packet := Header(m.c, flags, |payload|) + payload;
            && s.m.phone == m.phone && s.m.inq == m.inq && m.wire <= s.m.wire
            && SameEnds(m.c, s.m.c) && s.m.c.txSeq == m.c.txSeq && s.m.c.rxWin == m.c.rxWin
            && (s.status == Ok ==> Flatten(s.m.wire) == Flatten(m.wire) + packet)
            && (s.status != Ok ==> exists part :: part < packet && Flatten(s.m.wire) == Flatten(m.wire) + part)
            && (s.status == Ok || IsUsbError(s.status))
  {
    var packet := Header(m.c, flags, |payload|) + payload;
    var p := Push(m.outq, packet);
    PushDelivers(m.outq, packet);
    FlattenConcat(m.wire, p.xfers);
    var z := Push(p.rest, []);
    PushDelivers(p.rest, []);
    FlattenConcat(m.wire + p.xfers, z.xfers);
    if p.status != Ok {
      assert Flatten(p.xfers) < packet;
      assert Flatten(SendTcp(m, flags, payload).m.wire) == Flatten(m.wire) + Flatten(p.xfers);
    }
  }

  /** Framing, whatever partial transfers USB makes: what a sent segment put on the wire ends with a short
      or zero-length packet exactly when its last transfer was no multiple of 512 bytes, or the segment
      is one and the zero-length packet after it got through. */
  lemma SendTcpEndsShort(m: Link, flags: byte, payload: seq<byte>)
    requires |payload| < TWO32 - 36
    requires SendTcp(m, flags, payload).status == Ok
    ensures var total := m.c.HeadSize() + |payload|;
            var packet := Header(m.c, flags, |payload|) + payload;
            EndsShort(SendTcp(m, flags, payload).m.wire[|m.wire|..]) <==>
            || ShortPacket(LastMove(m.outq, total))
            || (total % 512 == 0 && Push(Push(m.outq, packet).rest, []).status == Ok)
  {
    var packet := Header(m.c, flags, |payload|) + payload;
    var p := Push(m.outq, packet);
    PushEndsShort(m.outq, packet);
    PushDelivers(m.outq, packet);
    var z := Push(p.rest, []);
    var s := SendTcp(m, flags, payload);
    if |packet| % 512 == 0 {
      assert s.m.wire[|m.wire|..] == p.xfers + z.xfers;
      EmptyPush(p.rest);
      if z.status != Ok {
        assert p.xfers + z.xfers == p.xfers;
      }
    } else {
      assert s.m.wire[|m.wire|..] == p.xfers;
    }
  }

  /** So with partial transfers at packet boundaries, exactly when the segment is no multiple of 512 bytes
      or the zero-length packet after it got through. */
  lemma SendTcpAtBoundaries(m: Link, flags: byte, payload: seq<byte>)
    requires |payload| < TWO32 - 36
    requires SendTcp(m, flags, payload).status == Ok
    requires AtPacketBoundaries(m.outq, m.c.HeadSize() + |payload|)
    ensures var total := m.c.HeadSize() + |payload|;
            var packet := Header(m.c, flags, |payload|) + payload;
            EndsShort(SendTcp(m, flags, payload).m.wire[|m.wire|..]) <==>
            total % 512 != 0 || Push(Push(m.outq, packet).rest, []).status == Ok
  {
    hide SendTcp, Push, EndsShort, AtPacketBoundaries;
    SendTcpEndsShort(m, flags, payload);
    LastAtBoundaries(m.outq, m.c.HeadSize() + |payload|);
  }

  /** An input on which a sent segment does not end short: 600 bytes, of which the first transfer moves 88
      and the second the last 512. */
  lemma EndsLong(m: Link, flags: byte, payload: seq<byte>)
    requires m.c.HeadSize() + |payload| == 600 && m.outq == [Moved(88), Moved(512)]
    ensures SendTcp(m, flags, payload).status == Ok
    ensures !EndsShort(SendTcp(m, flags, payload).m.wire[|m.wire|..])
  {
    hide Header;
    var packet := Header(m.c, flags, |payload|) + payload;
    assert m.outq[1..] == [Moved(512)];
    assert Push([Moved(512)], packet[88..]).status == Ok;
    assert LastMove([Moved(512)], 512) == 512;
    SendTcpEndsShort(m, flags, payload);
  }

  lemma EmptyPush(outq: seq<Out>)
    ensures var z := Push(outq, []);
            z.xfers == if z.status == Ok then [[]] else []
  {
  }

  /** An acknowledgement changes only what it reports; its window is a multiple of 256. */
  lemma AckFields(m: Link)
    ensures var a := ReceiveAck(m);
            && SameEnds(m.c, a.m.c) && a.m.c.txSeq == m.c.txSeq && a.m.wire == m.wire && a.m.outq == m.outq
            && (a.status == Ok ==> a.m.c.rxWin % 256 == 0)
  {
  }

  // ----- One turn of the loop

  /** A turn that succeeds puts one segment on the wire and counts its payload in tx_seq; one that fails
      leaves a part of a segment and tx_seq as it was. */
  lemma TurnDelivers(m: Link, msg: seq<byte>, cur: nat, win: nat) returns (part: seq<byte>)
    requires cur < |msg|
    ensures var t := SendTurn(m, msg, cur, win);
            && SameEnds(m.c, t.m.c)
            && t.m.c.txSeq == Add32(m.c.txSeq, if t.status == Ok then |t.seg.payload| else 0)
            && (t.status == Ok ==>
                  && |t.seg.payload| <= IOS_MAX_PACKET
                  && SameEnds(m.c, t.seg.c) && t.seg.c.txSeq == m.c.txSeq
                  && part == [] && Flatten(t.m.wire) == Flatten(m.wire) + Packet(t.seg))
            && (t.status != Ok ==> Flatten(t.m.wire) == Flatten(m.wire) + part)
  {
    hide SendTcp, ReceiveAck, Header;
    AckFields(m);
    part := [];
    var a := if win == 0 then ReceiveAck(m) else Sent(m, Ok);
    if a.status == Ok {
      var w := if win == 0 then a.m.c.rxWin else win;
      var n := Min(Min(|msg| - cur, IOS_MAX_PACKET), w);
      SendTcpDelivers(a.m, TH_ACK, msg[cur..cur + n]);
      var s := SendTcp(a.m, TH_ACK, msg[cur..cur + n]);
      if s.status != Ok {
        part :| Flatten(s.m.wire) == Flatten(m.wire) + part;
      }
    }
  }

  /** The window a turn charges its segment to, and how long the segment is. */
  lemma TurnWindow(m: Link, msg: seq<byte>, cur: nat, win: nat)
    requires cur < |msg|
    ensures var t := SendTurn(m, msg, cur, win);
            var w := if win == 0 then t.seg.c.rxWin else win;
            t.status == Ok ==>
              && |t.seg.payload| == Min(Min(|msg| - cur, IOS_MAX_PACKET), w) && t.win == w - |t.seg.payload|
              && t.m.c.rxWin == t.seg.c.rxWin
              && (if win == 0 then t.seg.c.rxWin % 256 == 0 else t.seg.c.rxWin == m.c.rxWin)
  {
    hide SendTcp, ReceiveAck, Header;
    AckFields(m);
    var a := if win == 0 then ReceiveAck(m) else Sent(m, Ok);
    if a.status == Ok {
      var w := if win == 0 then a.m.c.rxWin else win;
      SendTcpDelivers(a.m, TH_ACK, msg[cur..cur + Min(Min(|msg| - cur, IOS_MAX_PACKET), w)]);
    }
  }

  // ----- One call

  /** On success the segments carry exactly the rest of the message; on failure a proper prefix of it. */
  lemma {:induction false} SendDelivers(m: Link, msg: seq<byte>, cur: nat, win: nat)
    requires cur <= |msg|
    ensures var r := SendFrom(m, msg, cur, win);
            && Bounded(r.segs)
            && (r.status == Ok ==> Payloads(r.segs) == msg[cur..])
            && (r.status != Ok ==> Payloads(r.segs) < msg[cur..])
    decreases |msg| - cur, |m.inq|
  {
    hide SendTurn, Add32, SameEnds, Packet, Flatten;
    if cur < |msg| {
      var t := SendTurn(m, msg, cur, win);
      var part := TurnDelivers(m, msg, cur, win);
      if t.status == Ok {
        var n := |t.seg.payload|;
        SendDelivers(t.m, msg, cur + n, t.win);
        FirstPayload(t.seg, SendFrom(t.m, msg, cur + n, t.win).segs);
        assert t.seg.payload + msg[cur + n..] == msg[cur..];
      }
    }
  }

  lemma FirstPayload(s: Segment, segs: seq<Segment>)
    ensures Payloads([s] + segs) == s.payload + Payloads(segs)
  {
    assert ([s] + segs)[1..] == segs;
  }

  /** Sequence numbers: tx_seq advances by exactly the payload of the segments fully sent, whether the
      call succeeds or not, and each segment is numbered by what went before it. */
  lemma {:induction false} SendNumbers(m: Link, msg: seq<byte>, cur: nat, win: nat)
    requires cur <= |msg|
    ensures var r := SendFrom(m, msg, cur, win);
            && r.m.c.txSeq == Add32(m.c.txSeq, |Payloads(r.segs)|)
            && Numbered(r.segs, m.c.txSeq)
            && SameEnds(m.c, r.m.c)
            && (forall i :: 0 <= i < |r.segs| ==> SameEnds(m.c, r.segs[i].c))
    decreases |msg| - cur, |m.inq|
  {
    hide SendTurn, Add32, SameEnds, Packet, Flatten;
    SameEndsReflexive(m.c);
    Add32Zero(m.c.txSeq);
    if cur < |msg| {
      var t := SendTurn(m, msg, cur, win);
      var part := TurnDelivers(m, msg, cur, win);
      if t.status == Ok {
        var n := |t.seg.payload|;
        SendNumbers(t.m, msg, cur + n, t.win);
        var segs := SendFrom(t.m, msg, cur + n, t.win).segs;
        FirstPayload(t.seg, segs);
        assert ([t.seg] + segs)[1..] == segs;
        Add32Twice(m.c.txSeq, n, |Payloads(segs)|);
        SameEndsTransitive(m.c, t.m.c);
      }
    }
  }

  lemma SameEndsReflexive(a: Conn)
    ensures SameEnds(a, a)
  {
  }

  lemma SameEndsTransitive(a: Conn, b: Conn)
    requires SameEnds(a, b)
    ensures forall c :: SameEnds(b, c) ==> SameEnds(a, c)
  {
  }

  /** The wire holds the segments sent, whole and in order; only a call that fails leaves a part more. */
  lemma {:induction false} SendOnWire(m: Link, msg: seq<byte>, cur: nat, win: nat) returns (part: seq<byte>)
    requires cur <= |msg|
    ensures var r := SendFrom(m, msg, cur, win);
            && Bounded(r.segs)
            && (r.status == Ok ==> part == [])
            && Flatten(r.m.wire) == Flatten(m.wire) + Packets(r.segs) + part
    decreases |msg| - cur, |m.inq|
  {
    hide SendTurn, Packet, SameEnds, Add32, Flatten;
    if cur == |msg| {
      part := [];
    } else {
      var t := SendTurn(m, msg, cur, win);
      part := TurnDelivers(m, msg, cur, win);
      if t.status == Ok {
        part := SendOnWire(t.m, msg, cur + |t.seg.payload|, t.win);
        var r := SendFrom(t.m, msg, cur + |t.seg.payload|, t.win);
        var segs := [t.seg] + r.segs;
        assert segs[1..] == r.segs;
        assert Packets(segs) == Packet(t.seg) + Packets(r.segs);
        var w, p, q := Flatten(m.wire), Packet(t.seg), Packets(r.segs);
        assert w + p + q + part == w + (p + q) + part;
      }
    }
  }

  /** A message sent in full ends with a non-empty segment, and its first non-empty segment is either
      the whole message or at least 256 bytes: every window is a multiple of 256. */
  lemma {:induction false} SendStartsLong(m: Link, msg: seq<byte>, cur: nat, win: nat)
    requires cur <= |msg| && (cur == 0 ==> win % 256 == 0)
    ensures var r := SendFrom(m, msg, cur, win);
            && (cur == 0 ==> LongStart(r.segs, |msg|))
            && (r.status == Ok && cur < |msg| ==> r.segs != [] && r.segs[|r.segs| - 1].payload != [])
    decreases |msg| - cur, |m.inq|
  {
    hide SendTurn;
    if cur < |msg| {
      var t := SendTurn(m, msg, cur, win);
      TurnWindow(m, msg, cur, win);
      if t.status == Ok {
        SendStartsLong(t.m, msg, cur + |t.seg.payload|, t.win);
        var r := SendFrom(t.m, msg, cur + |t.seg.payload|, t.win);
        assert ([t.seg] + r.segs)[1..] == r.segs;
      }
    }
  }

  // ----- Window accounting

  /** A window the peer advertised, the payload sent since, and what is left of it. */
  datatype Account = Account(advertised: nat, since: nat, left: int) {
    predicate Balanced() {
      since + left == advertised && left >= 0
    }

    /** The account a segment is charged to: the old one, or a new one if nothing was left. */
    function Refreshed(s: Segment): Account {
      if left == 0 then Account(s.c.rxWin, 0, s.c.rxWin) else this
    }

    function Charged(s: Segment): Account {
      var a := Refreshed(s);
      Account(a.advertised, a.since + |s.payload|, a.left - |s.payload|)
    }
  }

  function Replay(segs: seq<Segment>, acc: Account): Account {
    if segs == [] then acc else Replay(segs[1..], acc.Charged(segs[0]))
  }

  /** Each segment is as long as the rest of the message, the packet limit and its window allow, and
      the window it was charged to is the one the connection last received. */
  predicate Planned(segs: seq<Segment>, acc: Account, remaining: int) {
    segs == [] ||
    (var s, a := segs[0], acc.Refreshed(segs[0]);
     && a.advertised == s.c.rxWin
     && |s.payload| == Min(Min(remaining, IOS_MAX_PACKET), a.left)
     && Planned(segs[1..], acc.Charged(s), remaining - |s.payload|))
  }

  lemma {:induction false} SendPlanned(m: Link, msg: seq<byte>, cur: nat, acc: Account)
    requires cur <= |msg| && acc.Balanced() && acc.advertised == m.c.rxWin
    ensures Planned(SendFrom(m, msg, cur, acc.left).segs, acc, |msg| - cur)
    decreases |msg| - cur, |m.inq|
  {
    hide SendTurn;
    if cur < |msg| {
      var t := SendTurn(m, msg, cur, acc.left);
      TurnWindow(m, msg, cur, acc.left);
      if t.status == Ok {
        SendPlanned(t.m, msg, cur + |t.seg.payload|, acc.Charged(t.seg));
        var r := SendFrom(t.m, msg, cur + |t.seg.payload|, t.win);
        assert ([t.seg] + r.segs)[1..] == r.segs;
      }
    }
  }

  /** Throughout a call, the bytes sent since the last window refresh plus the budget left equal the
      window the peer advertised, so no segment exceeds it. */
  lemma {:induction false} WindowKept(segs: seq<Segment>, acc: Account, remaining: nat, i: nat)
    requires acc.Balanced() && Planned(segs, acc, remaining)
    requires i <= |segs| && |Payloads(segs)| <= remaining
    ensures Replay(segs[..i], acc).Balanced()
    ensures i > 0 ==> Replay(segs[..i], acc).advertised == segs[i - 1].c.rxWin
    decreases i
  {
    if i > 0 {
      assert segs[..i][1..] == segs[1..][..i - 1];
      WindowKept(segs[1..], acc.Charged(segs[0]), remaining - |segs[0].payload|, i - 1);
    }
  }

  // ----- Android

  /** Where aoa_SendProPackage cuts a message: never at a multiple of 512 bytes. */
  function AoaCut(size: nat): nat
    requires size > 0
  {
    if size % 512 == 0 then size - 1 else size
  }

  /** At most two sends, the first of AoaCut bytes and the second of one byte. */
  lemma AoaSends(m: Link, msg: seq<byte>)
    requires msg != []
    ensures var cut := AoaCut(|msg|);
            var p := Push(m.outq, msg[..cut]);
            var q := Push(p.rest, msg[cut..]);
            && cut % 512 != 0 && (cut < |msg| ==> cut + 1 == |msg|)
            && AoaFrom(m, msg, 0) ==
               if p.status != Ok || cut == |msg| then Sent(m.(outq := p.rest, wire := m.wire + p.xfers), p.status)
               else Sent(m.(outq := q.rest, wire := m.wire + p.xfers + q.xfers), q.status)
  {
    hide Push;
    var cut := AoaCut(|msg|);
    assert msg[0..cut] == msg[..cut];
    var p := Push(m.outq, msg[..cut]);
    if cut < |msg| && p.status == Ok {
      assert msg[cut..cut + 1] == msg[cut..];
      var m1 := m.(outq := p.rest, wire := m.wire + p.xfers);
      var q := Push(p.rest, msg[cut..]);
      assert m1.(c := m1.c) == m1;
      assert AoaFrom(m, msg, 0) == AoaFrom(m1, msg, cut);
      assert AoaFrom(m1, msg, cut) == Sent(m1.(outq := q.rest, wire := m1.wire + q.xfers), q.status);
    }
  }

  /** Delivery over AOA: a call that succeeds has put exactly the message on the wire, one that fails a
      proper prefix of it. */
  lemma AoaDelivers(m: Link, msg: seq<byte>)
    requires msg != []
    ensures m.wire <= AoaFrom(m, msg, 0).m.wire
    ensures var s := AoaFrom(m, msg, 0);
            var sent := Flatten(s.m.wire[|m.wire|..]);
            && (s.status == Ok ==> sent == msg)
            && (s.status != Ok ==> sent <= msg && |sent| < |msg|)
  {
    hide Push;
    AoaSends(m, msg);
    var cut := AoaCut(|msg|);
    var head, tail := msg[..cut], msg[cut..];
    assert msg == head + tail;
    PushDelivers(m.outq, head);
    var p := Push(m.outq, head);
    PushDelivers(p.rest, tail);
    var q := Push(p.rest, tail);
    FlattenConcat(p.xfers, q.xfers);
    assert AoaFrom(m, msg, 0).m.wire[|m.wire|..] ==
           if p.status != Ok || cut == |msg| then p.xfers else p.xfers + q.xfers;
  }

  /** Framing over AOA, whatever partial transfers USB makes: of the at most two sends of a call that
      succeeds, the second, of one byte, always ends with a short packet; the first exactly when its last
      transfer was no multiple of 512 bytes, so always if transfers break at packet boundaries. */
  lemma AoaEndsShort(m: Link, msg: seq<byte>)
    requires msg != [] && AoaFrom(m, msg, 0).status == Ok
    ensures var cut := AoaCut(|msg|);
            var p := Push(m.outq, msg[..cut]);
            && p.status == Ok
            && (EndsShort(p.xfers) <==> ShortPacket(LastMove(m.outq, cut)))
            && (AtPacketBoundaries(m.outq, cut) ==> EndsShort(p.xfers))
            && (cut < |msg| ==> EndsShort(Push(p.rest, msg[cut..]).xfers))
  {
    hide Push, AtPacketBoundaries, EndsShort;
    AoaSends(m, msg);
    var cut := AoaCut(|msg|);
    var p := Push(m.outq, msg[..cut]);
    PushEndsShort(m.outq, msg[..cut]);
    if AtPacketBoundaries(m.outq, cut) {
      LastAtBoundaries(m.outq, cut);
    }
    if cut < |msg| {
      PushEndsShort(p.rest, msg[cut..]);
      assert LastMove(p.rest, 1) == 1;
    }
  }
}
