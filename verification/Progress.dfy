/** When the sends of usProtocol.c succeed: which acknowledgements itunes_ReceiveAck takes, and how many of
    them and how many working transfers a message needs. */
module Progress {
  import opened Base
  import opened Usb
  import opened Mux
  import opened Sending

  // ----- One acknowledgement

  /** The window a header advertises, as its receiver reads it. */
  function Window(peer: Conn): u32 {
    peer.txWin / 0x100 % 0x1_0000 * 0x100
  }

  /** What the header of a peer's segment tells the receiver. */
  function Told(c: Conn, peer: Conn): Conn {
    c.(irxSeq := if c.version >= 2 then peer.irxSeq else c.irxSeq,
       rxSeq := peer.txSeq, rxAck := peer.txAck, rxWin := Window(peer))
  }

  /** A segment without data that comes in one transfer is accepted as an acknowledgement: its fields are
      taken, and nothing behind it is. */
  lemma AckAccepted(m: Link, peer: Conn, rest: seq<In>)
    requires peer.MuxSize() == m.c.MuxSize() && m.inq == [Data(Header(peer, TH_ACK, 0))] + rest
    ensures ReceiveAck(m) == Sent(m.(inq := rest, c := Told(m.c, peer)), Ok)
  {
    hide Header, Be32At, Be16At;
    var packet := Header(peer, TH_ACK, 0);
    assert packet + [] == packet;
    HeaderFields(peer, TH_ACK, []);
    var buf := Padded(packet);
    FieldsKept(packet, buf, m.c.MuxSize());
    assert m.inq[1..] == rest;
    assert |packet| == m.c.HeadSize();
  }

  lemma FieldsKept(packet: seq<byte>, buf: seq<byte>, mh: nat)
    requires packet <= buf && 8 <= mh <= 16 && |packet| == mh + 20
    ensures Be32At(buf, 0) == Be32At(packet, 0) && Be16At(buf, 14) == Be16At(packet, 14)
    ensures Be32At(buf, mh + 4) == Be32At(packet, mh + 4) && Be32At(buf, mh + 8) == Be32At(packet, mh + 8)
    ensures Be16At(buf, mh + 14) == Be16At(packet, mh + 14)
  {
  }

  /** Any other packet is refused: a control or a version packet, and one of any other size. Of the
      connection only irx_seq may change. */
  lemma AckRefused(m: Link, packet: seq<byte>, rest: seq<In>)
    requires |packet| <= SMALL_BUFFER && m.inq == [Data(packet)] + rest
    requires || |packet| != m.c.HeadSize()
             || Be32At(packet, 0) == PROTO_CONTROL || Be32At(packet, 0) == PROTO_VERSION
    ensures var a := ReceiveAck(m);
            a.status == ProRevAck && a.m == m.(inq := rest, c := m.c.(irxSeq := a.m.c.irxSeq))
  {
    hide Be16At;
    assert m.inq[1..] == rest;
    if |packet| >= 4 {
      assert Be32At(Padded(packet), 0) == Be32At(packet, 0);
    }
  }

  // ----- One segment

  /** Over a working schedule a segment is sent, with at most a transfer a byte and one more. */
  lemma SendTcpWorks(m: Link, flags: byte, payload: seq<byte>, n: int)
    requires |payload| < TWO32 - 36 && Works(m.outq, n) && n >= m.c.HeadSize() + |payload| + 1
    ensures var s := SendTcp(m, flags, payload);
            s.status == Ok && Works(s.m.outq, n - (m.c.HeadSize() + |payload| + 1))
  {
    hide Header, Push, Works;
    var packet := Header(m.c, flags, |payload|) + payload;
    PushWorks(m.outq, packet, n);
    var p := Push(m.outq, packet);
    if |packet| % 512 == 0 {
      PushWorks(p.rest, [], n - |packet|);
    } else {
      WorksLess(p.rest, n - |packet|, n - |packet| - 1);
    }
  }

  /** A turn with some window left, or an acknowledgement waiting, sends what the window allows. */
  lemma TurnWorks(m: Link, msg: seq<byte>, cur: nat, win: nat, peer: Conn, rest: seq<In>, n: int)
    requires cur < |msg| && peer.MuxSize() == m.c.MuxSize()
    requires win == 0 ==> m.inq == [Data(Header(peer, TH_ACK, 0))] + rest
    requires var k := Min(Min(|msg| - cur, IOS_MAX_PACKET), if win == 0 then Window(peer) else win);
             Works(m.outq, n) && n >= 37 + k
    ensures var t := SendTurn(m, msg, cur, win);
            var w := if win == 0 then Window(peer) else win;
            var k := Min(Min(|msg| - cur, IOS_MAX_PACKET), w);
            && t.status == Ok && |t.seg.payload| == k && t.win == w - k
            && t.m.inq == (if win == 0 then rest else m.inq) && t.m.c.MuxSize() == m.c.MuxSize()
            && Works(t.m.outq, n - (37 + k))
  {
    hide SendTcp, ReceiveAck, Header, Works;
    if win == 0 {
      AckAccepted(m, peer, rest);
    }
    var a := if win == 0 then ReceiveAck(m) else Sent(m, Ok);
    var w := if win == 0 then a.m.c.rxWin else win;
    var k := Min(Min(|msg| - cur, IOS_MAX_PACKET), w);
    SendTcpWorks(a.m, TH_ACK, msg[cur..cur + k], n);
    SendTcpDelivers(a.m, TH_ACK, msg[cur..cur + k]);
    WorksLess(SendTcp(a.m, TH_ACK, msg[cur..cur + k]).m.outq, n - (m.c.HeadSize() + k + 1), n - (37 + k));
  }

  // ----- One message

  /** The peers' acknowledgements, each in a transfer of its own. */
  function Acks(peers: seq<Conn>): seq<In> {
    if peers == [] then [] else [Data(Header(peers[0], TH_ACK, 0))] + Acks(peers[1..])
  }

  predicate SameSize(peers: seq<Conn>, c: Conn) {
    forall i :: 0 <= i < |peers| ==> peers[i].MuxSize() == c.MuxSize()
  }

  function Granted(peers: seq<Conn>): nat {
    if peers == [] then 0 else Window(peers[0]) + Granted(peers[1..])
  }

  /** How many of the acknowledgements it takes until their windows and the budget left, `win`, cover
      `need` bytes. */
  function Taken(need: int, win: nat, peers: seq<Conn>): (k: nat)
    ensures k <= |peers|
    decreases |peers|
  {
    if need <= win || peers == [] then 0 else 1 + Taken(need - win, Window(peers[0]), peers[1..])
  }

  lemma FirstAck(peers: seq<Conn>, rest: seq<In>)
    requires peers != []
    ensures var inq := Acks(peers) + rest;
            inq != [] && inq == [Data(Header(peers[0], TH_ACK, 0))] + (Acks(peers[1..]) + rest)
  {
    hide Header;
  }

  lemma NoAcks(rest: seq<In>)
    ensures Acks([]) + rest == rest
  {
  }

  /** Enough is enough: with the acknowledgements of a peer waiting and a working schedule, the rest of a
      message is sent exactly when the windows they grant and the budget left cover it, and takes in no
      more of them than that. */
  lemma {:induction false} SendFromSucceeds(m: Link, msg: seq<byte>, cur: nat, win: nat, peers: seq<Conn>, rest: seq<In>, n: int)
    requires cur <= |msg| && SameSize(peers, m.c) && m.inq == Acks(peers) + rest
    requires Works(m.outq, n) && n >= 38 * (|msg| - cur + |peers|)
    ensures var r := SendFrom(m, msg, cur, win);
            if win + Granted(peers) >= |msg| - cur
            then r.status == Ok && r.m.inq == Acks(peers[Taken(|msg| - cur, win, peers)..]) + rest
            else rest == [] ==> r.status == UsbOffline
    decreases |msg| - cur, |peers|
  {
    hide SendTurn, Header, Acks, Works, Window;
    assert peers[0..] == peers;
    if cur < |msg| {
      if win == 0 && peers == [] {
        NoAcks(rest);
        if rest == [] {
          Silence(m, msg, cur);
        }
      } else {
        var w := if win == 0 then Window(peers[0]) else win;
        var k := Min(Min(|msg| - cur, IOS_MAX_PACKET), w);
        var tail := if win == 0 then peers[1..] else peers;
        var peer := if peers == [] then m.c else peers[0];
        if peers != [] {
          FirstAck(peers, rest);
        }
        TurnWorks(m, msg, cur, win, peer, Acks(peers[if peers == [] then 0 else 1..]) + rest, n);
        var t := SendTurn(m, msg, cur, win);
        SendFromSucceeds(t.m, msg, cur + k, t.win, tail, rest, n - (37 + k));
        assert win == 0 ==> forall i :: 0 <= i <= |tail| ==> tail[i..] == peers[i + 1..];
      }
    }
  }

  lemma Silence(m: Link, msg: seq<byte>, cur: nat)
    requires cur < |msg| && m.inq == []
    ensures SendTurn(m, msg, cur, 0).status == UsbOffline
  {
  }

  /** itunes_SendProPackage succeeds whenever the outbound transfers work and enough acknowledgements are
      waiting; with nothing else to come, exactly then. */
  lemma SendSucceeds(m: Link, msg: seq<byte>, peers: seq<Conn>, rest: seq<In>)
    requires msg != [] && SameSize(peers, m.c) && m.inq == Acks(peers) + rest
    requires Works(m.outq, 38 * (|msg| + |peers|))
    ensures var r := SendMessage(m, msg);
            if m.c.rxWin + Granted(peers) >= |msg|
            then r.status == Ok && r.m.inq == Acks(peers[Taken(|msg|, m.c.rxWin, peers)..]) + rest
            else rest == [] ==> r.status == UsbOffline
  {
    hide SendFrom, Acks, Works, Granted, Taken;
    SendFromSucceeds(m, msg, 0, m.c.rxWin, peers, rest, 38 * (|msg| + |peers|));
  }

  /** aoa_SendProPackage succeeds whenever the transfers work. */
  lemma AoaSucceeds(m: Link, msg: seq<byte>)
    requires msg != [] && Works(m.outq, |msg|)
    ensures AoaFrom(m, msg, 0).status == Ok
  {
    hide Push, Works, AoaFrom;
    AoaSends(m, msg);
    var cut := AoaCut(|msg|);
    PushWorks(m.outq, msg[..cut], |msg|);
    if cut < |msg| {
      PushWorks(Push(m.outq, msg[..cut]).rest, msg[cut..], 1);
    }
  }

  /** So usProtocol_SendPackage does, for either kind of phone. */
  lemma PackageSucceeds(m: Link, msg: seq<byte>, peers: seq<Conn>, rest: seq<In>)
    requires msg != [] && Works(m.outq, 38 * (|msg| + |peers|))
    requires m.phone == Android ||
             (m.phone == Ios && SameSize(peers, m.c) && m.inq == Acks(peers) + rest
              && m.c.rxWin + Granted(peers) >= |msg|)
    ensures SendPackage(m, msg).status == Ok
  {
    hide SendMessage, AoaFrom, Acks, Works, Granted;
    if m.phone == Android {
      WorksLess(m.outq, 38 * (|msg| + |peers|), |msg|);
      AoaSucceeds(m, msg);
    } else {
      SendSucceeds(m, msg, peers, rest);
    }
  }

  // ----- Connecting

  /** The fields a peer's header sets when it answers a SYN. */
  function Answered(c: Conn, peer: Conn): Conn {
    c.(rxSeq := peer.txSeq, rxAck := peer.txAck, rxWin := Window(peer), rxRecvd := peer.txSeq,
       txSeq := Add32(c.txSeq, 1), txAck := Add32(c.txAck, 1))
  }

  /** A SYN-ACK is answered with an acknowledgement, and counts for one on both sides. */
  lemma GreetSucceeds(m: Link, peer: Conn, buf: seq<byte>, n: int)
    requires peer.MuxSize() == m.c.MuxSize() && Works(m.outq, n) && n >= 37
    requires |buf| == SMALL_BUFFER && Header(peer, TH_SYNACK, 0) <= buf
    ensures var s := Greet(m, buf);
            && s == SendTcp(m.(c := Answered(m.c, peer)), TH_ACK, []) && s.status == Ok
  {
    hide Header, SendTcp, Be32At, Be16At, Works, Add32;
    var packet := Header(peer, TH_SYNACK, 0);
    assert packet + [] == packet;
    HeaderFields(peer, TH_SYNACK, []);
    FieldsKept(packet, buf, m.c.MuxSize());
    assert buf[m.c.MuxSize() + 13] == packet[m.c.MuxSize() + 13];
    SendTcpWorks(m.(c := Answered(m.c, peer)), TH_ACK, [], n);
  }

  /** Any other flags are a refusal; a reset among them zeroes the counters. */
  lemma GreetRefuses(m: Link, buf: seq<byte>)
    requires |buf| == SMALL_BUFFER && buf[m.c.MuxSize() + 13] != TH_SYNACK
    ensures var s, flags := Greet(m, buf), buf[m.c.MuxSize() + 13];
            && s.status == ProConnect && s.m.inq == m.inq && s.m.wire == m.wire
            && (flags / 4 % 2 == 1 ==> s.m.c == s.m.c.Zeroed())
  {
    hide Be32At, Be16At;
  }

  /** What may stand before the answer to the SYN: nothing, or one control packet. */
  predicate Prelude(before: seq<In>, ctl: seq<byte>) {
    before == [] ||
    (before == [Data(ctl)] && 8 <= |ctl| <= SMALL_BUFFER
     && Be32At(ctl, 0) == PROTO_CONTROL && Be32At(ctl, 4) <= SMALL_BUFFER)
  }

  /** The buffer the answer is read in. */
  function AnswerIn(before: seq<In>, ctl: seq<byte>, packet: seq<byte>): seq<byte>
    requires |packet| <= SMALL_BUFFER && Prelude(before, ctl)
  {
    if before == [] then Padded(packet) else Overlay(Padded(ctl), 0, packet)
  }

  lemma AnswerHolds(before: seq<In>, ctl: seq<byte>, packet: seq<byte>)
    requires |packet| <= SMALL_BUFFER && Prelude(before, ctl)
    ensures var buf := AnswerIn(before, ctl, packet); |buf| == SMALL_BUFFER && packet <= buf
  {
    hide Be32At;
  }

  /** The answer to the SYN reaches the greeting, behind a control packet or not. */
  lemma ConnectGreets(m: Link, sport: u16, before: seq<In>, ctl: seq<byte>, packet: seq<byte>, rest: seq<In>)
    requires 8 <= |packet| <= SMALL_BUFFER && Be32At(packet, 0) == PROTO_TCP && Be32At(packet, 4) <= SMALL_BUFFER
    requires Prelude(before, ctl)
    requires var v := GetVersion(m, sport);
             v.status == Ok && v.m.inq == before + [Data(packet)] + rest && Works(v.m.outq, 37)
    ensures var s := SendTcp(GetVersion(m, sport).m, TH_SYN, []);
            s.status == Ok && Connect(m, sport) == Greet(s.m.(inq := rest), AnswerIn(before, ctl, packet))
  {
    hide SendTcp, Be32At, Works, Greet, GetVersion;
    var v := GetVersion(m, sport).m;
    SendTcpWorks(v, TH_SYN, [], 37);
    SendTcpDelivers(v, TH_SYN, []);
    var s := SendTcp(v, TH_SYN, []).m;
    FieldsFirst(packet, Padded(packet));
    if before == [] {
      assert s.inq == [Data(packet)] + rest && s.inq[1..] == rest;
    } else {
      assert s.inq == [Data(ctl)] + ([Data(packet)] + rest) && s.inq[1..] == [Data(packet)] + rest;
      assert s.inq[1..][1..] == rest;
      FieldsFirst(ctl, Padded(ctl));
    }
  }

  lemma FieldsFirst(packet: seq<byte>, buf: seq<byte>)
    requires packet <= buf && |packet| >= 8
    ensures Be32At(buf, 0) == Be32At(packet, 0) && Be32At(buf, 4) == Be32At(packet, 4)
  {
  }

  /** Once the version is agreed, a phone that answers the SYN is connected exactly when the answer is a
      SYN-ACK, with that packet and nothing behind it taken in; any other answer is a refusal. */
  lemma ConnectDecides(m: Link, sport: u16, before: seq<In>, ctl: seq<byte>, peer: Conn, flags: byte, rest: seq<In>)
    requires Prelude(before, ctl)
    requires var v := GetVersion(m, sport);
             && v.status == Ok && v.m.inq == before + [Data(Header(peer, flags, 0))] + rest && Works(v.m.outq, 74)
             && peer.MuxSize() == v.m.c.MuxSize()
    ensures var s, c := Connect(m, sport), GetVersion(m, sport).m.c;
            && s.m.inq == rest && (if flags == TH_SYNACK then s.status == Ok else s.status == ProConnect)
            && (s.status == Ok ==>
                  s.m.c.txSeq == Add32(c.txSeq, 1) && s.m.c.txAck == Add32(c.txAck, 1) && s.m.c.rxWin == Window(peer))
            && (flags != TH_SYNACK && flags / 4 % 2 == 1 ==> s.m.c == s.m.c.Zeroed())
  {
    hide Header, SendTcp, Be32At, Be16At, Works, Add32, Greet, GetVersion, Connect, Prelude, AnswerIn;
    var packet := Header(peer, flags, 0);
    var v := GetVersion(m, sport).m;
    assert packet + [] == packet;
    HeaderFields(peer, flags, []);
    AnswerHolds(before, ctl, packet);
    var buf := AnswerIn(before, ctl, packet);
    WorksLess(v.outq, 74, 37);
    ConnectGreets(m, sport, before, ctl, packet, rest);
    SynKeeps(v);
    var m1 := SendTcp(v, TH_SYN, []).m.(inq := rest);
    assert buf[m1.c.MuxSize() + 13] == flags;
    if flags == TH_SYNACK {
      SendTcpWorks(v, TH_SYN, [], 74);
      WorksLess(m1.outq, 74 - (v.c.HeadSize() + 1), 37);
      GreetSucceeds(m1, peer, buf, 37);
      SendTcpDelivers(m1.(c := Answered(m1.c, peer)), TH_ACK, []);
      SynKeeps(v);
    } else {
      GreetRefuses(m1, buf);
    }
  }

  /** Connecting with the version known. */
  lemma ConnectSucceeds(m: Link, sport: u16, peer: Conn, rest: seq<In>)
    requires (m.c.version == 1 || m.c.version == 2) && peer.MuxSize() == m.c.MuxSize()
    requires m.inq == [Data(Header(peer, TH_SYNACK, 0))] + rest && Works(m.outq, 74)
    ensures var s := Connect(m, sport);
            && s.status == Ok && s.m.inq == rest
            && s.m.c.txSeq == Add32(m.c.txSeq, 1) && s.m.c.txAck == Add32(m.c.txAck, 1) && s.m.c.rxWin == Window(peer)
  {
    hide Header, Connect, Works;
    assert [] + [Data(Header(peer, TH_SYNACK, 0))] + rest == m.inq;
    ConnectDecides(m, sport, [], [], peer, TH_SYNACK, rest);
  }

  /** Connecting for the first time: the phone answers the version and then the SYN, and both counters
      stand at 1. */
  lemma FirstConnectSucceeds(m: Link, sport: u16, reply: seq<byte>, peer: Conn, rest: seq<In>)
    requires m.c.version != 1 && m.c.version != 2 && 12 <= |reply| <= SMALL_BUFFER
    requires Be32At(reply, 8) in {1, 2} && peer.MuxSize() == (if Be32At(reply, 8) == 1 then 8 else 16)
    requires m.inq == [Data(reply), Data(Header(peer, TH_SYNACK, 0))] + rest && Works(m.outq, 111)
    ensures var s := Connect(m, sport);
            && s.status == Ok && s.m.inq == rest && s.m.c.version == Be32At(reply, 8)
            && s.m.c.txSeq == 1 && s.m.c.txAck == 1 && s.m.c.rxWin == Window(peer)
  {
    hide Header, Connect, Works, GetVersion, Be32At;
    var tail := [Data(Header(peer, TH_SYNACK, 0))] + rest;
    assert m.inq == [Data(reply)] + tail && [] + [Data(Header(peer, TH_SYNACK, 0))] + rest == tail;
    VersionAgreed(m, sport, reply, tail, 111);
    ConnectDecides(m, sport, [], [], peer, TH_SYNACK, rest);
    ConnectKeepsVersion(m, sport);
  }

  lemma ConnectKeepsVersion(m: Link, sport: u16)
    ensures GetVersion(m, sport).status == Ok ==> Connect(m, sport).m.c.version == GetVersion(m, sport).m.c.version
  {
    hide GetVersion, Be32At, Be16At, Header, Push;
  }

  lemma SynKeeps(m: Link)
    ensures var c := SendTcp(m, TH_SYN, []).m.c; c.txSeq == m.c.txSeq && c.txAck == m.c.txAck && c.MuxSize() == m.c.MuxSize()
  {
    hide Header, Push;
  }

  /** Agreeing on the version, when it is not known: a phone that answers version 1 or 2 sets it, with
      counters from zero; any other answer is refused. */
  lemma VersionAgreed(m: Link, sport: u16, reply: seq<byte>, rest: seq<In>, n: int)
    requires m.c.version != 1 && m.c.version != 2 && 12 <= |reply| <= SMALL_BUFFER
    requires m.inq == [Data(reply)] + rest && Works(m.outq, n) && n >= 37
    ensures var v, major := GetVersion(m, sport), Be32At(reply, 8);
            && v.m.inq == rest && (v.status == Ok <==> major == 1 || major == 2)
            && (v.status != Ok ==> v.status == ProVersion)
            && (v.status == Ok ==>
                  && v.m.c.version == major && v.m.c.txSeq == 0 && v.m.c.txAck == 0
                  && v.m.c.sport == sport && v.m.c.dport == IOS_PORT && Works(v.m.outq, n - 37))
  {
    hide Push, Works, Be32At, MuxHeader, Be32;
    var c := m.c.Zeroed().(version := 0, itxSeq := 0, irxSeq := 0,
                           sport := sport, dport := IOS_PORT, txWin := IOS_WIN_SIZE);
    Be32RoundTrip(2);
    Be32RoundTrip(0);
    var ask := MuxHeader(c, PROTO_VERSION, 20) + Be32(2) + Be32(0) + Be32(0);
    PushWorks(m.outq, ask, n);
    assert m.inq[1..] == rest;
    assert Be32At(Padded(reply), 8) == Be32At(reply, 8) by { MajorKept(reply); }
    var c1 := c.(version := 2, irxSeq := 0xffff);
    assert |MuxHeader(c1, PROTO_SETUP, 17) + [7]| == 17;
    PushWorks(Push(m.outq, ask).rest, MuxHeader(c1, PROTO_SETUP, 17) + [7], n - |ask|);
    WorksLess(Push(m.outq, ask).rest, n - |ask|, n - 37);
  }

  lemma MajorKept(reply: seq<byte>)
    requires 12 <= |reply| <= SMALL_BUFFER
    ensures Be32At(Padded(reply), 8) == Be32At(reply, 8)
  {
  }

  // ----- Giving a connection up

  /** itunes_ResetReceive takes in acknowledgements up to the first that acknowledges everything sent, and
      no further. */
  lemma {:induction false} ResetWaits(m: Link, peers: seq<Conn>, k: nat, rest: seq<In>)
    requires SameSize(peers, m.c) && m.inq == Acks(peers) + rest && m.c.rxAck != m.c.txSeq
    requires k < |peers| && peers[k].txAck == m.c.txSeq && forall i :: 0 <= i < k ==> peers[i].txAck != m.c.txSeq
    ensures var r := ResetReceive(m);
            r.inq == Acks(peers[k + 1..]) + rest && r.c == r.c.Zeroed() && r.wire == m.wire
    decreases k
  {
    hide Header, Acks, Be32At, Be16At;
    FirstAck(peers, rest);
    var tail := Acks(peers[1..]) + rest;
    var m1 := m.(inq := tail, c := Told(m.c, peers[0]));
    ResetStep(m, peers[0], tail);
    if k > 0 {
      assert peers[1..][k..] == peers[k + 1..];
      ResetWaits(m1, peers[1..], k - 1, rest);
    }
  }

  lemma ResetStep(m: Link, peer: Conn, rest: seq<In>)
    requires peer.MuxSize() == m.c.MuxSize() && m.inq == [Data(Header(peer, TH_ACK, 0))] + rest
    requires m.c.rxAck != m.c.txSeq
    ensures ResetReceive(m) == ResetReceive(m.(inq := rest, c := Told(m.c, peer)))
    ensures peer.txAck == m.c.txSeq ==> ResetReceive(m) == m.(inq := rest, c := Told(m.c, peer).Zeroed())
  {
    hide Header, Be32At, Be16At;
    var packet := Header(peer, TH_ACK, 0);
    assert packet + [] == packet;
    HeaderFields(peer, TH_ACK, []);
    FieldsKept(packet, Padded(packet), m.c.MuxSize());
    assert m.inq[1..] == rest;
  }
}
