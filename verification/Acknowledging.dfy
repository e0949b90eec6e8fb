/** What the receiver of a message sends back over whole messages: one acknowledgement for each segment that
    carried data, in order. */
module Acknowledging {
  import opened Base
  import opened Usb
  import opened Mux
  import opened Sending
  import opened Storage

  /** The acknowledgements of a run of segments, each made from the fields as the segments before it left
      them. */
  function AckBytes(c: Conn, segs: seq<Segment>): seq<byte>
    decreases |segs|
  {
    if segs == [] then []
    else (if segs[0].payload == [] then [] else AckOf(c, segs[0])) + AckBytes(Took(c, segs[0], true), segs[1..])
  }

  /** The segments that carry data. */
  function Carrying(segs: seq<Segment>): seq<Segment> {
    if segs == [] then [] else (if segs[0].payload == [] then [] else [segs[0]]) + Carrying(segs[1..])
  }

  /** They are as many headers as there are segments with data. */
  lemma {:induction false} AcksCount(c: Conn, segs: seq<Segment>)
    ensures |AckBytes(c, segs)| == c.HeadSize() * |Carrying(segs)|
    decreases |segs|
  {
    hide AckOf;
    if segs != [] {
      AckReads(c, segs[0]);
      AcksCount(Took(c, segs[0], true), segs[1..]);
      Times(c.HeadSize(), |Carrying(segs[1..])|);
    }
  }

  /** A header of a connection at `at`, acknowledging all before `ack`. */
  predicate AckAt(bytes: seq<byte>, at: nat, c: Conn, ack: u32) {
    && at + c.HeadSize() <= |bytes|
    && Be32At(bytes, at + c.MuxSize() + 8) == ack && Be32At(bytes, at + c.MuxSize() + 4) == c.txSeq
    && bytes[at + c.MuxSize() + 13] == TH_ACK
  }

  /** The one after the first `i` of them acknowledges exactly the payload of these: its th_ack is tx_ack
      plus their bytes, modulo 2^32. */
  lemma {:induction false} AcksAdvance(c: Conn, segs: seq<Segment>, i: nat)
    requires i < |Carrying(segs)|
    ensures AckAt(AckBytes(c, segs), c.HeadSize() * i, c, Add32(c.txAck, |Payloads(Carrying(segs)[..i])|))
    decreases |segs|
  {
    hide AckOf, AckAt, Add32, AckBytes, Took;
    var s, t := segs[0], Took(c, segs[0], true);
    var rest := AckBytes(t, segs[1..]);
    AckBytesFirst(c, segs);
    TookKeeps(c, s);
    var more := Carrying(segs[1..]);
    if s.payload == [] {
      Add32Zero(c.txAck);
      assert [] + rest == rest && [] + more == more;
      AcksAdvance(t, segs[1..], i);
      SameConn(rest, c.HeadSize() * i, c, t, Add32(c.txAck, |Payloads(more[..i])|));
    } else if i == 0 {
      Add32Zero(c.txAck);
      assert Payloads(Carrying(segs)[..0]) == [];
      FirstAckAt(c, s, rest);
    } else {
      assert Carrying(segs)[..i] == [s] + more[..i - 1];
      FirstPayload(s, more[..i - 1]);
      Add32Twice(c.txAck, |s.payload|, |Payloads(more[..i - 1])|);
      AcksAdvance(t, segs[1..], i - 1);
      AckReads(c, s);
      Times(c.HeadSize(), i - 1);
      LaterAckAt(AckOf(c, s), rest, c.HeadSize() * (i - 1), c, t, Add32(c.txAck, |Payloads([s] + more[..i - 1])|));
    }
  }

  lemma TookKeeps(c: Conn, s: Segment)
    ensures var t := Took(c, s, true);
            t.MuxSize() == c.MuxSize() && t.txSeq == c.txSeq && t.txAck == Add32(c.txAck, |s.payload|)
  {
  }

  lemma SameConn(bytes: seq<byte>, at: nat, c: Conn, t: Conn, ack: u32)
    requires c.MuxSize() == t.MuxSize() && c.txSeq == t.txSeq && AckAt(bytes, at, t, ack)
    ensures AckAt(bytes, at, c, ack)
  {
  }

  lemma FirstAckAt(c: Conn, s: Segment, rest: seq<byte>)
    ensures AckAt(AckOf(c, s) + rest, 0, c, c.txAck)
  {
    hide AckOf, Be32At;
    AckReads(c, s);
    Be32In(AckOf(c, s), rest, c.MuxSize() + 4);
    Be32In(AckOf(c, s), rest, c.MuxSize() + 8);
  }

  lemma LaterAckAt(first: seq<byte>, rest: seq<byte>, at: nat, c: Conn, t: Conn, ack: u32)
    requires c.MuxSize() == t.MuxSize() && c.txSeq == t.txSeq && |first| == c.HeadSize() && AckAt(rest, at, t, ack)
    ensures AckAt(first + rest, c.HeadSize() + at, c, ack)
  {
    hide Be32At;
    Be32Behind(first, rest, at + c.MuxSize() + 4);
    Be32Behind(first, rest, at + c.MuxSize() + 8);
  }

  lemma Times(h: nat, n: nat)
    ensures h * (n + 1) == h + h * n
  {
  }

  lemma Be32In(a: seq<byte>, b: seq<byte>, k: nat)
    requires k + 4 <= |a|
    ensures Be32At(a + b, k) == Be32At(a, k)
  {
  }

  lemma Be32Behind(a: seq<byte>, b: seq<byte>, k: nat)
    requires k + 4 <= |b|
    ensures Be32At(a + b, |a| + k) == Be32At(b, k)
  {
  }

  /** Over a working schedule, taking in one segment puts exactly its acknowledgement on the wire. */
  lemma TakenInWorks(before: Link, after: Link, s: Segment, n: int)
    requires TakenIn(before, after, s) && Works(before.outq, n) && n >= 36
    ensures Works(after.outq, n - 36) && after.c == Took(before.c, s, true)
    ensures Flatten(after.wire) ==
            Flatten(before.wire) + if s.payload == [] then [] else AckOf(before.c, s)
  {
    hide AckOf, Works, Flatten, Push;
    if s.payload == [] {
      WorksLess(before.outq, n, n - 36);
      assert Flatten(before.wire) + [] == Flatten(before.wire);
    } else {
      var ack := AckOf(before.c, s);
      AckReads(before.c, s);
      PushWorks(before.outq, ack, n);
      WorksLess(Push(before.outq, ack).rest, n - |ack|, n - 36);
      FlattenConcat(before.wire, after.wire[|before.wire|..]);
      assert before.wire + after.wire[|before.wire|..] == after.wire;
    }
  }

  predicate SameMux(segs: seq<Segment>, c: Conn) {
    forall i :: 0 <= i < |segs| ==> segs[i].c.MuxSize() == c.MuxSize()
  }

  lemma SameMuxTail(segs: seq<Segment>, c: Conn, d: Conn)
    requires segs != [] && SameMux(segs, c) && c.MuxSize() == d.MuxSize()
    ensures SameMux(segs[1..], d) && segs[0].c.MuxSize() == c.MuxSize()
  {
  }

  /** The reassembly loop acknowledges every segment with data it takes in. */
  lemma {:induction false} AssembleAcks(
    segs: seq<Segment>, cuts: seq<seq<seq<byte>>>, rest: seq<In>,
    m: Link, inter: seq<byte>, buf: seq<byte>, cur: nat, total: nat, n: int)
    requires |inter| == INTERBUF_SIZE && Bounded(segs) && Splits(cuts, segs) && AllHold(cuts, m.c.MuxSize())
    requires m.phone == Ios
    requires SameMux(segs, m.c)
    requires segs != [] ==> segs[|segs| - 1].payload != []
    requires cur + |Payloads(segs)| == total <= |buf|
    requires m.inq == Inbox(cuts) + rest && Works(m.outq, n) && n >= 36 * |segs|
    ensures Flatten(Assemble(m, inter, buf, cur, total).m.wire) == Flatten(m.wire) + AckBytes(m.c, segs)
    decreases |segs|
  {
    hide ReceivePackage, Packet, Split, Arrivals, Flatten, Inbox, Splits, Bounded, Overlay, Holds, AllHold, Works,
         AckOf, TakenIn, AckBytes, Took, SameMux;
    if segs != [] {
      AckBytesFirst(m.c, segs);
      LastPayload(segs);
      var s := segs[0];
      SameMuxTail(segs, m.c, m.c);
      SplitsTail(cuts, segs, rest);
      AllHoldTail(cuts, m.c.MuxSize());
      assert Payloads(segs) == s.payload + Payloads(segs[1..]);
      ReceiveDecodes(m, inter, s, cuts[0], Inbox(cuts[1..]) + rest, |buf| - cur);
      var r := ReceivePackage(m, inter, |buf| - cur);
      TakenInWorks(m, r.m, s, n);
      TakenInKeeps(m, r.m, s);
      SameMuxTail(segs, m.c, r.m.c);
      var buf1 := Overlay(buf, cur, s.payload);
      AssembleAcks(segs[1..], cuts[1..], rest, r.m, r.inter, buf1, cur + |s.payload|, total, n - 36);
      var w, a := Flatten(m.wire), if s.payload == [] then [] else AckOf(m.c, s);
      Associates(w, a, AckBytes(r.m.c, segs[1..]));
    } else {
      NoAckBytes(m.c);
      assert Flatten(m.wire) + [] == Flatten(m.wire);
    }
  }

  /** One call acknowledges the whole message. */
  lemma MessageAcks(segs: seq<Segment>, msg: seq<byte>, cuts: seq<seq<seq<byte>>>, rest: seq<In>,
                    m: Link, inter: seq<byte>, buf: seq<byte>, n: int)
    requires segs != [] && segs[0].payload != [] && segs[|segs| - 1].payload != []
    requires WellFormed(msg) && Payloads(segs) == msg && LongStart(segs, |msg|)
    requires m.phone == Ios && |inter| == INTERBUF_SIZE && |msg| <= |buf|
    requires Bounded(segs) && Splits(cuts, segs) && AllHold(cuts, m.c.MuxSize()) && m.inq == Inbox(cuts) + rest
    requires SameMux(segs, m.c)
    requires Works(m.outq, n) && n >= 36 * |segs|
    ensures Flatten(RecvMessage(m, inter, buf).m.wire) == Flatten(m.wire) + AckBytes(m.c, segs)
  {
    hide ReceivePackage, Packet, Split, Flatten, Assemble, RecvMessage, LongStart, Payloads, Took,
         WellFormed, Overlay, Inbox, Splits, Bounded, Holds, AllHold, Works, AckOf, TakenIn, AckBytes, SameMux;
    SameMuxTail(segs, m.c, m.c);
    FirstPackage(segs, msg, cuts, rest, m, inter, buf);
    SplitsTail(cuts, segs, rest);
    AllHoldTail(cuts, m.c.MuxSize());
    var s, r := segs[0], ReceivePackage(m, inter, |buf|);
    LastPayload(segs);
    TakenInWorks(m, r.m, s, n);
    TakenInKeeps(m, r.m, s);
    SameMuxTail(segs, m.c, r.m.c);
    var more, buf1 := segs[1..], Overlay(buf, 0, s.payload);
    assert AllHold(cuts[1..], r.m.c.MuxSize()) && Splits(cuts[1..], more) && SameMux(more, r.m.c);
    assert |s.payload| + |Payloads(more)| == |msg| <= |buf1| && n - 36 >= 36 * |more|;
    AssembleAcks(more, cuts[1..], rest, r.m, r.inter, buf1, |s.payload|, |msg|, n - 36);
    AckBytesFirst(m.c, segs);
    Associates(Flatten(m.wire), AckOf(m.c, s), AckBytes(r.m.c, segs[1..]));
  }

  lemma NoAckBytes(c: Conn)
    ensures AckBytes(c, []) == []
  {
  }

  lemma AckBytesFirst(c: Conn, segs: seq<Segment>)
    requires segs != []
    ensures AckBytes(c, segs) ==
            (if segs[0].payload == [] then [] else AckOf(c, segs[0])) + AckBytes(Took(c, segs[0], true), segs[1..])
  {
    hide AckOf, Took;
  }

  lemma Associates(a: seq<byte>, b: seq<byte>, c: seq<byte>)
    ensures a + (b + c) == (a + b) + c
  {
  }

  /** Over the repeated calls too: those that meet empty segments send nothing. */
  lemma {:induction false} CallsAcknowledge(segs: seq<Segment>, msg: seq<byte>, cuts: seq<seq<seq<byte>>>, rest: seq<In>,
                                            m: Link, inter: seq<byte>, buf: seq<byte>, n: int)
    requires segs != [] && segs[|segs| - 1].payload != []
    requires WellFormed(msg) && Payloads(segs) == msg && LongStart(segs, |msg|)
    requires m.phone == Ios && |inter| == INTERBUF_SIZE && |msg| <= |buf|
    requires Bounded(segs) && Splits(cuts, segs) && AllHold(cuts, m.c.MuxSize()) && m.inq == Inbox(cuts) + rest
    requires SameMux(segs, m.c)
    requires Works(m.outq, n) && n >= 36 * |segs|
    ensures Flatten(Call(m, inter, buf, Empties(segs)).m.wire) == Flatten(m.wire) + AckBytes(m.c, segs)
    decreases |segs|
  {
    hide RecvMessage, Packet, Arrivals, Flatten, Split, WellFormed, Inbox, Splits, Bounded, Holds, AllHold, Works,
         AckOf, TakenIn, Took;
    SplitsTail(cuts, segs, rest);
    AllHoldTail(cuts, m.c.MuxSize());
    if segs[0].payload != [] {
      MessageAcks(segs, msg, cuts, rest, m, inter, buf, n);
    } else {
      EmptySegmentIsIdle(segs[0], cuts[0], Inbox(cuts[1..]) + rest, m, inter, buf);
      var t := RecvMessage(m, inter, buf);
      TakenInWorks(m, t.m, segs[0], n);
      TakenInKeeps(m, t.m, segs[0]);
      SameMuxTail(segs, m.c, t.m.c);
      assert Payloads(segs) == [] + Payloads(segs[1..]) == Payloads(segs[1..]);
      NotEmpty(msg);
      CallsAcknowledge(segs[1..], msg, cuts[1..], rest, t.m, t.inter, t.buf, n - 36);
      assert Flatten(m.wire) + [] == Flatten(m.wire) && [] + AckBytes(t.m.c, segs[1..]) == AckBytes(t.m.c, segs[1..]);
    }
  }

  /** The other half of the round trip: when the receiver's transfers work, the calls that hand a message
      over put exactly one acknowledgement for each of its segments with data on the wire, in order. */
  lemma RoundTripAcknowledges(sender: Link, msg: seq<byte>, cuts: seq<seq<seq<byte>>>, rest: seq<In>,
                              receiver: Link, inter: seq<byte>, buf: seq<byte>)
    requires WellFormed(msg) && sender.c.rxWin % 256 == 0
    requires SendMessage(sender, msg).status == Ok
    requires receiver.phone == Ios && |inter| == INTERBUF_SIZE && |msg| <= |buf|
    requires receiver.c.MuxSize() == sender.c.MuxSize()
    requires Bounded(SendMessage(sender, msg).segs)
    requires Splits(cuts, SendMessage(sender, msg).segs) && AllHold(cuts, receiver.c.MuxSize())
    requires receiver.inq == Inbox(cuts) + rest && Works(receiver.outq, 36 * |SendMessage(sender, msg).segs|)
    ensures var segs := SendMessage(sender, msg).segs;
            Flatten(Call(receiver, inter, buf, Empties(segs)).m.wire) == Flatten(receiver.wire) + AckBytes(receiver.c, segs)
  {
    hide SendMessage, Packet, Split, LongStart, Payloads, Call, Splits, Inbox, WellFormed, AllHold, Holds, Empties,
         Bounded, Works, Flatten, AckBytes;
    SentSegments(sender, msg);
    var segs := SendMessage(sender, msg).segs;
    CallsAcknowledge(segs, msg, cuts, rest, receiver, inter, buf, 36 * |segs|);
  }
}
