/** The sequence counters of an iOS connection over whole sessions. */
module Session {
  import opened Base
  import opened Usb
  import opened Mux
  import opened Sending

  datatype Op = Send(msg: seq<byte>) | Receive(room: nat)

  /** A connection, with what its counters started from and the payload bytes moved since. */
  datatype World = World(m: Link, inter: seq<byte>, txBase: u32, rxBase: u32, sent: nat, received: nat) {
    ghost predicate Counted() {
      && |inter| == INTERBUF_SIZE
      && m.c.txSeq == Add32(txBase, sent)
      && m.c.txAck == Add32(rxBase, received)
    }
  }

  /** One call. Sent counts the payload of the segments fully sent, even if the call then fails; a call
      that meets a reset connection starts both counters from zero. */
  function Act(w: World, op: Op): (r: World)
    requires |w.inter| == INTERBUF_SIZE
    ensures |r.inter| == INTERBUF_SIZE
  {
    match op
    case Send(msg) =>
      var r := SendMessage(w.m, msg);
      w.(m := r.m, sent := w.sent + |Payloads(r.segs)|)
    case Receive(room) =>
      var r := ReceivePackage(w.m, w.inter, room);
      if r.status == ProRefuse then World(r.m, r.inter, 0, 0, 0, 0)
      else w.(m := r.m, inter := r.inter, received := w.received + if r.status == Ok then |r.payload| else 0)
  }

  function Run(w: World, ops: seq<Op>): (r: World)
    requires |w.inter| == INTERBUF_SIZE
    ensures |r.inter| == INTERBUF_SIZE
    decreases |ops|
  {
    if ops == [] then w else Run(Act(w, ops[0]), ops[1..])
  }

  /** No call of the run meets a reset connection. */
  predicate Undisturbed(w: World, ops: seq<Op>)
    requires |w.inter| == INTERBUF_SIZE
    decreases |ops|
  {
    ops == [] ||
    ((ops[0].Receive? ==> ReceivePackage(w.m, w.inter, ops[0].room).status != ProRefuse) &&
     Undisturbed(Act(w, ops[0]), ops[1..]))
  }

  lemma {:induction false} ResetZeroes(m: Link)
    ensures ResetReceive(m).c.txSeq == 0 && ResetReceive(m).c.txAck == 0
    decreases |m.inq|
  {
    hide TakeTcp, TakeMux, Padded, Be16At, Be32At;
    var g := Pull(m.inq, SMALL_BUFFER);
    if m.c.rxAck != m.c.txSeq && g.status == Ok {
      var buf := Padded(g.bytes);
      var c := TakeMux(m.c, buf);
      ResetZeroes(m.(inq := g.rest, c := if |g.bytes| < c.HeadSize() then c else TakeTcp(c, buf)));
    }
  }

  /** What a receive does to the two counters. */
  lemma ReceiveCounts(m: Link, inter: seq<byte>, room: int)
    requires |inter| == INTERBUF_SIZE
    ensures var r := ReceivePackage(m, inter, room);
            && (r.status == Ok ==> r.m.c.txSeq == m.c.txSeq && r.m.c.txAck == Add32(m.c.txAck, |r.payload|))
            && (r.status == ProRefuse ==> r.m.c.txSeq == 0 && r.m.c.txAck == 0)
            && (r.status != Ok && r.status != ProRefuse ==> r.m.c.txSeq == m.c.txSeq && r.m.c.txAck == m.c.txAck)
  {
    hide Accept, Overlay, Be32At, Be16At, Gather;
    var g := Pull(m.inq, INTERBUF_SIZE);
    if g.status == Ok {
      var buf := Overlay(inter, 0, g.bytes);
      var m1 := m.(inq := g.rest, c := TakeMux(m.c, buf));
      var total := Be32At(buf, 4);
      if total <= INTERBUF_SIZE {
        var h := Gather(g.rest, buf, |g.bytes|, total);
        GatherStatus(g.rest, buf, |g.bytes|, total);
        AcceptCounts(m1.(inq := h.inq, c := TakeTcp(m1.c, h.inter)), h.inter, total, room);
      }
    }
  }

  lemma {:induction false} GatherStatus(inq: seq<In>, inter: seq<byte>, cur: nat, total: nat)
    requires total <= |inter|
    ensures Gather(inq, inter, cur, total).status != ProRefuse
    decreases |inq|
  {
    hide Overlay;
    if cur < total {
      var g := Pull(inq, |inter| - cur);
      if g.status == Ok {
        GatherStatus(g.rest, Overlay(inter, cur, g.bytes), cur + |g.bytes|, total);
      }
    }
  }

  lemma AcceptCounts(m: Link, inter: seq<byte>, total: nat, room: int)
    requires |inter| == INTERBUF_SIZE && total <= INTERBUF_SIZE
    ensures var r := Accept(m, inter, total, room);
            && (r.status == Ok ==> r.m.c.txSeq == m.c.txSeq && r.m.c.txAck == Add32(m.c.txAck, |r.payload|))
            && (r.status == ProRefuse ==> r.m.c.txSeq == 0 && r.m.c.txAck == 0)
            && (r.status != Ok && r.status != ProRefuse ==> r.m.c.txSeq == m.c.txSeq && r.m.c.txAck == m.c.txAck)
  {
    hide ResetReceive, SendTcp, Header;
    ResetZeroes(m);
    SendTcpDelivers(m, TH_ACK, []);
  }

  /** Every call keeps the counters in step with the bytes moved, and so does every run of calls,
      whatever they return. */
  lemma {:induction false} RunCounts(w: World, ops: seq<Op>)
    requires w.Counted()
    ensures Run(w, ops).Counted()
    ensures Undisturbed(w, ops) ==> Run(w, ops).txBase == w.txBase && Run(w, ops).rxBase == w.rxBase
    decreases |ops|
  {
    hide ReceivePackage, SendFrom, Add32;
    if ops != [] {
      match ops[0] {
        case Send(msg) =>
          Add32Zero(w.m.c.txSeq);
          SendNumbers(w.m, msg, 0, w.m.c.rxWin);
          var r := SendMessage(w.m, msg);
          Add32Twice(w.txBase, w.sent, |Payloads(r.segs)|);
        case Receive(room) =>
          ReceiveCounts(w.m, w.inter, room);
          Add32Zero(0);
          Add32Twice(w.rxBase, w.received, |ReceivePackage(w.m, w.inter, room).payload|);
      }
      RunCounts(Act(w, ops[0]), ops[1..]);
    }
  }

  /** A connect that succeeds has counted the SYN on both sides. */
  lemma ConnectCounts(m: Link, sport: u16)
    requires Connect(m, sport).status == Ok
    ensures var anew := !(m.c.version == 1 || m.c.version == 2);
            && Connect(m, sport).m.c.txSeq == Add32(if anew then 0 else m.c.txSeq, 1)
            && Connect(m, sport).m.c.txAck == Add32(if anew then 0 else m.c.txAck, 1)
  {
    hide SendTcp, Header, Padded, Be32At, Be16At, Overlay, Greet, Pull;
    VersionCounts(m, sport);
    var v := GetVersion(m, sport);
    SendTcpDelivers(v.m, TH_SYN, []);
    var s := SendTcp(v.m, TH_SYN, []);
    var g := Pull(s.m.inq, SMALL_BUFFER);
    var m1 := s.m.(inq := g.rest);
    PullShrinks(s.m.inq, SMALL_BUFFER);
    GreetCounts(m1, Padded(g.bytes));
    var g2 := Pull(g.rest, SMALL_BUFFER);
    PullShrinks(g.rest, SMALL_BUFFER);
    if g2.status == Ok {
      GreetCounts(m1.(inq := g2.rest), Overlay(Padded(g.bytes), 0, g2.bytes));
    }
  }

  lemma VersionCounts(m: Link, sport: u16)
    requires GetVersion(m, sport).status == Ok
    ensures var anew := !(m.c.version == 1 || m.c.version == 2);
            var v := GetVersion(m, sport);
            && v.m.c.txSeq == (if anew then 0 else m.c.txSeq)
            && v.m.c.txAck == (if anew then 0 else m.c.txAck)
  {
    hide Push, Pull, MuxHeader, Be32, Be32At, Padded;
  }

  lemma GreetCounts(m: Link, buf: seq<byte>)
    requires |buf| == SMALL_BUFFER
    ensures var s := Greet(m, buf);
            s.status == Ok ==> s.m.c.txSeq == Add32(m.c.txSeq, 1) && s.m.c.txAck == Add32(m.c.txAck, 1)
  {
    hide SendTcp, Header;
    var c := TakeTcp(m.c, buf);
    var c1 := c.(txSeq := Add32(c.txSeq, 1), txAck := Add32(c.txAck, 1), rxRecvd := c.rxSeq);
    SendTcpDelivers(m.(c := c1), TH_ACK, []);
  }

  /** Over any interleaving of sends and receives after a connect that began from zeroed counters, and
      until a reset, tx_seq is one more than the payload bytes sent and tx_ack one more than those
      received, modulo 2^32. */
  lemma SessionCounters(m: Link, sport: u16, inter: seq<byte>, ops: seq<Op>)
    requires Connect(m, sport).status == Ok && |inter| == INTERBUF_SIZE
    requires (m.c.version != 1 && m.c.version != 2) || (m.c.txSeq == 0 && m.c.txAck == 0)
    requires Undisturbed(World(Connect(m, sport).m, inter, 1, 1, 0, 0), ops)
    ensures var r := Run(World(Connect(m, sport).m, inter, 1, 1, 0, 0), ops);
            r.m.c.txSeq == (1 + r.sent) % TWO32 && r.m.c.txAck == (1 + r.received) % TWO32
  {
    hide Connect;
    ConnectCounts(m, sport);
    RunCounts(World(Connect(m, sport).m, inter, 1, 1, 0, 0), ops);
  }
}
