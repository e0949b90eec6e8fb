/** The directory listing of usDecode.c and usDisk.c: a callback packs an unbounded directory into bounded
    messages, all built in one buffer behind the request's own protocol header. */
module Listing {
  import opened Base
  import opened Mux
  import MuxDevice
  import Storage

  const HDR: nat := Storage.PRO_HDR_SIZE
  /** sizeof(struct operation_listResponse), sizeof(struct fileinfo) and the length of its name field. */
  const LIST_HEADER: nat := 5
  const RECORD: nat := 273
  const NAME_SIZE: nat := 256
  const LIST_MAX_BUFFER: nat := 256 * 1024

  type u64 = x: int | 0 <= x < 0x1_0000_0000_0000_0000

  datatype Stat = Stat(isdir: bool, actime: u32, modtime: u32, size: u64)

  /** What stat() says of an entry at the time it is visited. */
  datatype StatResult = Unknown | Known(stat: Stat)

  datatype Entry = Entry(name: seq<byte>, found: StatResult)

  datatype File = File(name: seq<byte>, stat: Stat)

  datatype Message = Message(files: seq<File>, last: bool)

  /** A name as readdir() gives it: no zero in it, and at most 255 bytes. */
  predicate IsName(name: seq<byte>) {
    0 < |name| < NAME_SIZE && forall i :: 0 <= i < |name| ==> name[i] != 0
  }

  predicate AllNames(entries: seq<Entry>) {
    forall i :: 0 <= i < |entries| ==> IsName(entries[i].name)
  }

  // ----- Which messages are sent

  /** "." and "..". */
  predicate Ignored(e: Entry) {
    e.name == [0x2e] || e.name == [0x2e, 0x2e]
  }

  /** listInvoke->usedsize. */
  function Len(files: seq<File>): nat {
    if files == [] then 0 else LIST_HEADER + RECORD * |files|
  }

  datatype Visited = Visited(sent: seq<Message>, pending: seq<File>)

  /** readDirInvoke on a file name: a batch with no room for one more record is sent first, before the
      file is known to exist. */
  function Visit(pending: seq<File>, e: Entry, cap: nat): Visited {
    var full := cap - Len(pending) < RECORD;
    var p := if full then [] else pending;
    Visited(if full then [Message(pending, false)] else [],
            if e.found.Known? then p + [File(e.name, e.found.stat)] else p)
  }

  /** usDisk_diskList: all the messages of a listing that is not cut short. */
  function Messages(pending: seq<File>, entries: seq<Entry>, cap: nat): seq<Message>
    decreases |entries|
  {
    if entries == [] then [Message(pending, true)]
    else if Ignored(entries[0]) then Messages(pending, entries[1..], cap)
    else
      var v := Visit(pending, entries[0], cap);
      v.sent + Messages(v.pending, entries[1..], cap)
  }

  /** What a listing is for: the entries that can be stat'ed, but for "." and "..". */
  function Wanted(entries: seq<Entry>): seq<File>
    decreases |entries|
  {
    if entries == [] then []
    else
      (if Ignored(entries[0]) || entries[0].found.Unknown? then []
       else [File(entries[0].name, entries[0].found.stat)]) + Wanted(entries[1..])
  }

  /** A file is among them exactly when an entry of that name, which is neither "." nor "..", can be stat'ed
      to that. */
  lemma {:induction false} WantedIff(entries: seq<Entry>, f: File)
    ensures f in Wanted(entries) <==>
            exists i :: 0 <= i < |entries| && entries[i] == Entry(f.name, Known(f.stat))
                        && f.name != [0x2e] && f.name != [0x2e, 0x2e]
    decreases |entries|
  {
    if entries != [] {
      WantedIff(entries[1..], f);
      var first := if Ignored(entries[0]) || entries[0].found.Unknown? then []
                   else [File(entries[0].name, entries[0].found.stat)];
      assert f in Wanted(entries) <==> f in first || f in Wanted(entries[1..]);
      if i :| 0 <= i < |entries| && entries[i] == Entry(f.name, Known(f.stat)) && f.name != [0x2e] && f.name != [0x2e, 0x2e] {
        assert i > 0 ==> entries[1..][i - 1] == entries[i];
      }
      if f in first {
        assert entries[0] == Entry(f.name, Known(f.stat));
      }
      assert forall i :: 0 <= i < |entries| - 1 ==> entries[1..][i] == entries[i + 1];
    }
  }

  /** The records of the messages a peer reads, up to the one that ends the listing. */
  function Collected(ms: seq<Message>): seq<File>
    decreases |ms|
  {
    if ms == [] then [] else if ms[0].last then ms[0].files else ms[0].files + Collected(ms[1..])
  }

  /** One message ends the listing, and it is the last. */
  predicate EndsOnce(ms: seq<Message>) {
    ms != [] && forall i :: 0 <= i < |ms| ==> (ms[i].last <==> i == |ms| - 1)
  }

  /** Every message fits, and one that does not end the listing has no room for another record. */
  predicate Packed(ms: seq<Message>, cap: nat) {
    forall i :: 0 <= i < |ms| ==>
      && Len(ms[i].files) <= cap
      && (!ms[i].last ==> ms[i].files != [] && cap < Len(ms[i].files) + RECORD)
  }

  /** The messages carry exactly the wanted entries, in order and once each, in batches that are as large
      as the buffer lets them be, and only the last of them ends the listing. */
  lemma {:induction false} ListingComplete(pending: seq<File>, entries: seq<Entry>, cap: nat)
    requires LIST_HEADER + RECORD <= cap && Len(pending) <= cap
    ensures var ms := Messages(pending, entries, cap);
            && EndsOnce(ms) && Packed(ms, cap) && Collected(ms) == pending + Wanted(entries)
    decreases |entries|
  {
    hide EndsOnce, Packed, Collected;
    if entries == [] {
      assert pending + [] == pending;
      LastOnly(pending, cap);
    } else if Ignored(entries[0]) {
      assert [] + Wanted(entries[1..]) == Wanted(entries[1..]);
      ListingComplete(pending, entries[1..], cap);
    } else {
      var v := Visit(pending, entries[0], cap);
      ListingComplete(v.pending, entries[1..], cap);
      var own := if entries[0].found.Known? then [File(entries[0].name, entries[0].found.stat)] else [];
      assert pending + (own + Wanted(entries[1..])) == (pending + own) + Wanted(entries[1..]);
      if v.sent == [] {
        assert v.sent + Messages(v.pending, entries[1..], cap) == Messages(v.pending, entries[1..], cap);
        assert v.pending == pending + own;
      } else {
        assert v.pending == own;
        FullFirst(pending, Messages(v.pending, entries[1..], cap), cap);
      }
    }
  }

  lemma LastOnly(files: seq<File>, cap: nat)
    requires Len(files) <= cap
    ensures var ms := [Message(files, true)]; EndsOnce(ms) && Packed(ms, cap) && Collected(ms) == files
  {
  }

  /** A full batch sent before a listing. */
  lemma FullFirst(files: seq<File>, ms: seq<Message>, cap: nat)
    requires LIST_HEADER + RECORD <= cap && Len(files) <= cap < Len(files) + RECORD
    requires EndsOnce(ms) && Packed(ms, cap)
    ensures var all := [Message(files, false)] + ms;
            EndsOnce(all) && Packed(all, cap) && Collected(all) == files + Collected(ms)
  {
    var all := [Message(files, false)] + ms;
    assert all[1..] == ms;
    assert forall i :: 1 <= i < |all| ==> all[i] == ms[i - 1];
  }

  // ----- How a message reads on the wire

  function Le64(x: u64): seq<byte> {
    Le32(x % TWO32) + Le32(x / TWO32)
  }

  function StatAt(s: seq<byte>, at: nat): Stat
    requires at + 17 <= |s|
  {
    Stat(s[at] != 0, Le32At(s, at + 1), Le32At(s, at + 5),
         (Le32At(s, at + 9) as int) + (Le32At(s, at + 13) as int) * TWO32)
  }

  /** The record at offset `at`. */
  function FileAt(s: seq<byte>, at: nat): File
    requires at + RECORD <= |s|
  {
    File(CString(s[at..at + NAME_SIZE]), StatAt(s, at + NAME_SIZE))
  }

  function Offset(i: nat): nat {
    HDR + LIST_HEADER + RECORD * i
  }

  function FilesAt(s: seq<byte>, n: nat): (files: seq<File>)
    requires Offset(n) <= |s|
    ensures |files| == n
  {
    if n == 0 then [] else FilesAt(s, n - 1) + [FileAt(s, Offset(n - 1))]
  }

  datatype Parsed = Malformed | Parsed(m: Message)

  /** How a peer reads one message: its len field, then fileNum records; a listing ends with finish set
      or with nothing in the message. */
  function Parse(packet: seq<byte>): Parsed {
    if |packet| < HDR then Malformed
    else if Le32At(packet, 16) == 0 then (if |packet| == HDR then Parsed(Message([], true)) else Malformed)
    else if |packet| < HDR + LIST_HEADER then Malformed
    else
      var n := Le32At(packet, HDR);
      if Le32At(packet, 16) != LIST_HEADER + RECORD * n || |packet| != Offset(n) then Malformed
      else Parsed(Message(FilesAt(packet, n), packet[HDR + 4] != 0))
  }

  /** The packet reads as `m` and answers the request whose protocol header is `header`. */
  predicate Carries(packet: seq<byte>, m: Message, header: seq<byte>)
    requires |header| == HDR
  {
    Parse(packet) == Parsed(m) && packet[..16] == header[..16] && packet[20..HDR] == header[20..]
  }

  predicate AllCarry(packets: seq<seq<byte>>, ms: seq<Message>, header: seq<byte>)
    requires |header| == HDR
  {
    |packets| == |ms| && forall i :: 0 <= i < |ms| ==> Carries(packets[i], ms[i], header)
  }

  datatype Read = Broken | Partial | Complete(files: seq<File>)

  /** How a peer reads a listing: message after message until one ends it. */
  function ReadListing(packets: seq<seq<byte>>): Read
    decreases |packets|
  {
    if packets == [] then Partial
    else match Parse(packets[0])
      case Malformed => Broken
      case Parsed(m) =>
        if m.last then Complete(m.files)
        else match ReadListing(packets[1..])
          case Complete(more) => Complete(m.files + more)
          case r => r
  }

  lemma {:induction false} ReadsBack(packets: seq<seq<byte>>, ms: seq<Message>, header: seq<byte>)
    requires |header| == HDR && AllCarry(packets, ms, header) && EndsOnce(ms)
    ensures ReadListing(packets) == Complete(Collected(ms))
    decreases |ms|
  {
    hide Parse;
    assert Carries(packets[0], ms[0], header);
    if !ms[0].last {
      assert AllCarry(packets[1..], ms[1..], header) by {
        forall i | 0 <= i < |ms| - 1
          ensures Carries(packets[1..][i], ms[1..][i], header)
        {
          assert Carries(packets[i + 1], ms[i + 1], header);
        }
      }
      ReadsBack(packets[1..], ms[1..], header);
    }
  }

  /** The round trip: a peer that reads the packets of a listing gets the wanted entries of the
      directory, whatever the size of the buffer it was packed in. */
  lemma PeerReadsDirectory(packets: seq<seq<byte>>, entries: seq<Entry>, cap: nat, header: seq<byte>)
    requires LIST_HEADER + RECORD <= cap && |header| == HDR
    requires AllCarry(packets, Messages([], entries, cap), header)
    ensures ReadListing(packets) == Complete(Wanted(entries))
  {
    hide Parse, Messages;
    ListingComplete([], entries, cap);
    assert [] + Wanted(entries) == Wanted(entries);
    ReadsBack(packets, Messages([], entries, cap), header);
  }

  /** A listing that is cut short never looks complete. */
  lemma {:induction false} CutShortIsPartial(packets: seq<seq<byte>>, ms: seq<Message>, header: seq<byte>)
    requires |header| == HDR && AllCarry(packets, ms, header)
    requires forall i :: 0 <= i < |ms| ==> !ms[i].last
    ensures ReadListing(packets) == Partial
    decreases |ms|
  {
    hide Parse;
    if ms != [] {
      assert Carries(packets[0], ms[0], header);
      assert AllCarry(packets[1..], ms[1..], header) by {
        forall i | 0 <= i < |ms| - 1
          ensures Carries(packets[1..][i], ms[1..][i], header)
        {
          assert Carries(packets[i + 1], ms[i + 1], header);
        }
      }
      CutShortIsPartial(packets[1..], ms[1..], header);
    }
  }

  // ----- The batch in the buffer

  /** `area` (the buffer from the protocol header on) holds the records of the pending files. */
  predicate Holds(area: seq<byte>, pending: seq<File>) {
    HDR + Len(pending) <= |area| &&
    (pending != [] ==> Le32At(area, HDR) == |pending| && FilesAt(area, |pending|) == pending)
  }

  lemma {:induction false} FilesSame(s: seq<byte>, t: seq<byte>, n: nat)
    requires Offset(n) <= |s| && Offset(n) <= |t|
    requires forall k :: Offset(0) <= k < Offset(n) ==> s[k] == t[k]
    ensures FilesAt(s, n) == FilesAt(t, n)
  {
    hide FileAt;
    if n > 0 {
      FilesSame(s, t, n - 1);
      FileSame(s, t, Offset(n - 1));
    }
  }

  lemma FileSame(s: seq<byte>, t: seq<byte>, at: nat)
    requires at + RECORD <= |s| && at + RECORD <= |t|
    requires forall k :: at <= k < at + RECORD ==> s[k] == t[k]
    ensures FileAt(s, at) == FileAt(t, at)
  {
    hide Le32At;
    assert s[at..at + NAME_SIZE] == t[at..at + NAME_SIZE];
    Le32Same(s, t, at + NAME_SIZE + 1);
    Le32Same(s, t, at + NAME_SIZE + 5);
    Le32Same(s, t, at + NAME_SIZE + 9);
    Le32Same(s, t, at + NAME_SIZE + 13);
  }

  lemma {:induction false} CStringOf(name: seq<byte>, tail: seq<byte>)
    requires forall i :: 0 <= i < |name| ==> name[i] != 0
    ensures CString(name + [0] + tail) == name
  {
    if name == [] {
      assert ([] + [0] + tail)[0] == 0;
    } else {
      CStringOf(name[1..], tail);
      assert (name + [0] + tail)[1..] == name[1..] + [0] + tail;
    }
  }

  /** The fields of a record behind its name. */
  function Fields(st: Stat): (r: seq<byte>)
    ensures |r| == 17
  {
    [if st.isdir then 1 else 0] + Le32(st.actime) + Le32(st.modtime) + Le64(st.size)
  }

  lemma SliceSlice(s: seq<byte>, a: nat, b: nat, i: nat, j: nat)
    requires a <= b <= |s| && i <= j <= b - a
    ensures s[a..b][i..j] == s[a + i..a + j]
  {
    assert forall k :: i <= k < j ==> s[a..b][k] == s[a + k];
  }

  lemma FiveParts(flag: seq<byte>, a: seq<byte>, b: seq<byte>, c: seq<byte>, d: seq<byte>)
    requires |flag| == 1 && |a| == |b| == |c| == |d| == 4
    ensures var f := flag + a + b + c + d;
            f[0] == flag[0] && f[1..5] == a && f[5..9] == b && f[9..13] == c && f[13..17] == d
  {
  }

  lemma FieldsStored(s: seq<byte>, at: nat, st: Stat)
    requires at + 17 <= |s| && s[at..at + 17] == Fields(st)
    ensures StatAt(s, at) == st
  {
    hide Le32, Le32At;
    var f := Fields(st);
    Le32RoundTrip(st.actime);
    Le32RoundTrip(st.modtime);
    Le32RoundTrip(st.size % TWO32);
    Le32RoundTrip(st.size / TWO32);
    var flag: seq<byte> := [if st.isdir then 1 else 0];
    var act, mod, low, high := Le32(st.actime), Le32(st.modtime), Le32(st.size % TWO32), Le32(st.size / TWO32);
    assert f == flag + act + mod + low + high;
    FiveParts(flag, act, mod, low, high);
    assert s[at] == f[0];
    SliceSlice(s, at, at + 17, 1, 5);
    SliceSlice(s, at, at + 17, 5, 9);
    SliceSlice(s, at, at + 17, 9, 13);
    SliceSlice(s, at, at + 17, 13, 17);
    Le32Stored(s, at + 1, st.actime);
    Le32Stored(s, at + 5, st.modtime);
    Le32Stored(s, at + 9, st.size % TWO32);
    Le32Stored(s, at + 13, st.size / TWO32);
  }

  /** The stores of one record. */
  function Stored(s: seq<byte>, at: nat, f: File): (r: seq<byte>)
    requires IsName(f.name) && at + RECORD <= |s|
    ensures |r| == |s| && forall k :: 0 <= k < |s| && !(at <= k < at + RECORD) ==> r[k] == s[k]
    ensures FileAt(r, at) == f
  {
    var s1 := Overlay(s, at, f.name + [0]);
    var r := Overlay(s1, at + NAME_SIZE, Fields(f.stat));
    assert FileAt(r, at) == f by {
      assert r[at + NAME_SIZE..at + NAME_SIZE + 17] == Fields(f.stat);
      FieldsStored(r, at + NAME_SIZE, f.stat);
      assert r[at..at + NAME_SIZE] == f.name + [0] + s[at + |f.name| + 1..at + NAME_SIZE];
      CStringOf(f.name, s[at + |f.name| + 1..at + NAME_SIZE]);
    }
    r
  }

  /** One more record behind the pending ones, and the count raised. */
  lemma RecordAdded(area: seq<byte>, pending: seq<File>, f: File, counted: seq<byte>, after: seq<byte>)
    requires Holds(area, pending) && IsName(f.name) && |pending| < 0x1_0000 && Offset(|pending| + 1) <= |area|
    requires var first := if pending == [] then Overlay(area, HDR, Le32(0)) else area;
             && counted == Stored(first, Offset(|pending|), f)
             && after == Overlay(counted, HDR, Le32(Add32(Le32At(counted, HDR), 1)))
    ensures Holds(after, pending + [f])
    ensures after[..HDR] == area[..HDR]
  {
    hide FileAt, Le32, Le32At, Stored;
    var n := |pending|;
    var first := if pending == [] then Overlay(area, HDR, Le32(0)) else area;
    Le32RoundTrip(0);
    Le32RoundTrip(n + 1);
    if pending == [] {
      assert first[HDR..HDR + 4] == Le32(0);
      Le32Stored(first, HDR, 0);
    }
    assert Le32At(first, HDR) == n;
    Le32Same(first, counted, HDR);
    assert after[HDR..HDR + 4] == Le32(n + 1);
    Le32Stored(after, HDR, n + 1);
    FilesSame(area, after, n);
    FileSame(counted, after, Offset(n));
  }

  /** The stores that complete a message. */
  lemma MessageSealed(area: seq<byte>, pending: seq<File>, last: bool, header: seq<byte>, sealed: seq<byte>)
    requires Holds(area, pending) && HDR + LIST_HEADER <= |area| && |pending| < 0x1_0000 && |header| == HDR
    requires pending == [] ==> last
    requires area[..16] == header[..16] && area[20..HDR] == header[20..]
    requires var flagged := Overlay(area, HDR + 4, [if last then 1 else 0]);
             var reset := if pending == [] then Overlay(flagged, HDR, Le32(0)) else flagged;
             sealed == Overlay(reset, 16, Le32(Len(pending)))
    ensures Carries(sealed[..HDR + Len(pending)], Message(pending, last), header)
    ensures sealed[..16] == header[..16] && sealed[20..HDR] == header[20..]
  {
    hide FileAt, FilesAt, Le32, Le32At, Overlay, Parse;
    var flagged := Overlay(area, HDR + 4, [if last then 1 else 0]);
    var reset := if pending == [] then Overlay(flagged, HDR, Le32(0)) else flagged;
    OverlayAt(area, HDR + 4, [if last then 1 else 0]);
    OverlayAt(flagged, HDR, Le32(0));
    OverlayAt(reset, 16, Le32(Len(pending)));
    var packet := sealed[..HDR + Len(pending)];
    assert sealed[16..20] == Le32(Len(pending));
    Le32Stored(sealed, 16, Len(pending));
    Le32Same(sealed, packet, 16);
    if pending != [] {
      Le32Same(area, packet, HDR);
      FilesSame(area, packet, |pending|);
      assert packet[HDR + 4] == if last then 1 else 0;
    }
    ParsesAs(packet, pending, last);
  }

  lemma OverlayAt(s: seq<byte>, at: nat, data: seq<byte>)
    requires at + |data| <= |s|
    ensures forall k :: 0 <= k < |s| ==>
              Overlay(s, at, data)[k] == if at <= k < at + |data| then data[k - at] else s[k]
  {
  }

  lemma ParsesAs(packet: seq<byte>, pending: seq<File>, last: bool)
    requires |packet| == HDR + Len(pending) && Le32At(packet, 16) == Len(pending) && (pending == [] ==> last)
    requires pending != [] ==>
               && Le32At(packet, HDR) == |pending| && FilesAt(packet, |pending|) == pending
               && packet[HDR + 4] == if last then 1 else 0
    ensures Parse(packet) == Parsed(Message(pending, last))
  {
    hide FilesAt, Le32At;
  }

  // ----- In the program's own form

  datatype Sends = Sends(m: Link, ok: bool)

  /** The messages given to usProtocol_SendPackage one after the other, up to the first that fails. */
  function SendEach(m: Link, packets: seq<seq<byte>>): Sends
    decreases |packets|
  {
    if packets == [] then Sends(m, true)
    else
      var s := SendPackage(m, packets[0]);
      if s.status != Ok then Sends(s.m, false) else SendEach(s.m, packets[1..])
  }

  lemma {:induction false} SendOneMore(m: Link, packets: seq<seq<byte>>, packet: seq<byte>)
    requires SendEach(m, packets).ok
    ensures var s := SendPackage(SendEach(m, packets).m, packet);
            SendEach(m, packets + [packet]) == Sends(s.m, s.status == Ok)
    decreases |packets|
  {
    hide SendPackage;
    if packets == [] {
      assert [packet][1..] == [];
    } else {
      assert (packets + [packet])[1..] == packets[1..] + [packet];
      SendOneMore(SendPackage(m, packets[0]).m, packets[1..], packet);
    }
  }

  lemma OneMoreCarries(packets: seq<seq<byte>>, ms: seq<Message>, header: seq<byte>, packet: seq<byte>, m: Message)
    requires |header| == HDR && AllCarry(packets, ms, header) && Carries(packet, m, header)
    ensures AllCarry(packets + [packet], ms + [m], header)
  {
    hide Carries;
  }

  lemma MoreMessages(sent: seq<Message>, v: seq<Message>, rest: seq<Message>)
    ensures sent + (v + rest) == (sent + v) + rest
  {
  }

  /** readDirInvoke's arguments. */
  datatype Callback = Name(e: Entry) | NoMore

  /** What stat() and opendir() say of the requested name, and what readdir() will give. */
  datatype Directory = NotDir | Unopenable | Directory(entries: seq<Entry>)

  /** struct listCallback, with the phone it sends through. */
  class Lister {
    const phone: MuxDevice.Phone
    const buf: array<byte>
    const base: nat
    const size: nat
    var used: nat

    ghost const header: seq<byte>
    ghost const start: Link
    ghost var pending: seq<File>
    ghost var packets: seq<seq<byte>>
    ghost var sent: seq<Message>

    ghost predicate Valid()
      reads this, phone, buf
    {
      && phone.Valid() && buf != phone.interBuf
      && 36 <= base && base + HDR + size <= buf.Length
      && LIST_HEADER + RECORD <= size <= LIST_MAX_BUFFER
      && used == Len(pending) <= size && Holds(buf[base..], pending)
      && |header| == HDR && buf[base..base + 16] == header[..16] && buf[base + 20..base + HDR] == header[20..]
      && AllCarry(packets, sent, header) && phone.Snap() == SendEach(start, packets).m
    }

    /** The listing started for the request at buf[base..]. */
    constructor (phone: MuxDevice.Phone, buf: array<byte>, base: nat, size: nat)
      requires phone.Valid() && buf != phone.interBuf && 36 <= base && base + HDR + size <= buf.Length
      requires LIST_HEADER + RECORD <= size <= LIST_MAX_BUFFER
      ensures Valid() && this.phone == phone && this.buf == buf && this.base == base && this.size == size
      ensures header == buf[base..base + HDR] && start == phone.Snap()
      ensures pending == [] && packets == [] && sent == []
    {
      this.phone, this.buf, this.base, this.size := phone, buf, base, size;
      used := 0;
      header, start := buf[base..base + HDR], phone.Snap();
      pending, packets, sent := [], [], [];
    }

    /** A store into the buffer, at an offset from the protocol header. */
    method Store(at: nat, data: seq<byte>)
      requires base + at + |data| <= buf.Length
      modifies buf
      ensures buf[base..] == Overlay(old(buf[base..]), at, data)
    {
      Poke(buf, base + at, data);
    }

    /** The fields that complete a message are set. */
    method Seal(last: bool)
      requires Valid() && (pending == [] ==> last)
      modifies buf
      ensures Carries(buf[base..base + HDR + used], Message(pending, last), header)
      ensures buf[base..base + 16] == header[..16] && buf[base + 20..base + HDR] == header[20..]
    {
      hide Holds, Carries, AllCarry, SendEach, Le32, Overlay;
      ghost var area := buf[base..];
      AreaHeader(buf[..], base, header);
      HoldsSmall(area, pending, size);
      Store(HDR + 4, [if last then 1 else 0]);
      if used == 0 {
        Store(HDR, Le32(0));
      }
      Store(16, Le32(used));
      MessageSealed(area, pending, last, header, buf[base..]);
      assert buf[base..][..HDR + used] == buf[base..base + HDR + used];
      AreaHeader(buf[..], base, header);
    }

    /** The batch is sent. */
    method Send(last: bool) returns (status: Status)
      requires Valid() && SendEach(start, packets).ok && (pending == [] ==> last)
      modifies this, phone, buf
      ensures phone.Valid() && phone.Snap() == SendEach(start, packets).m
      ensures sent == old(sent) + [Message(pending, last)] && AllCarry(packets, sent, header)
      ensures pending == old(pending) && used == old(used)
      ensures (status == Ok) == SendEach(start, packets).ok
      ensures buf[base..base + 16] == header[..16] && buf[base + 20..base + HDR] == header[20..]
    {
      hide Holds, Carries, AllCarry, SendEach, Mux.SendPackage;
      Seal(last);
      ghost var packet, whole := buf[base..base + HDR + used], buf[..];
      status := phone.SendPackage(buf, base, HDR + used);
      HeaderKept(whole, buf[..], base, Min(HDR + used, MuxDevice.KEPT), header);
      SendOneMore(start, packets, packet);
      OneMoreCarries(packets, sent, header, packet, Message(pending, last));
      packets, sent := packets + [packet], sent + [Message(pending, last)];
    }

    /** The stores of one record behind the pending ones. */
    method AddRecord(f: File)
      requires Valid() && IsName(f.name) && Len(pending) + RECORD <= size
      modifies this`used, this`pending, buf
      ensures Valid() && pending == old(pending) + [f]
    {
      hide FileAt, FilesAt, Le32, Le32At, AllCarry, SendEach, Overlay;
      ghost var area := buf[base..];
      AreaHeader(buf[..], base, header);
      if used == 0 {
        Store(HDR, Le32(0));
        used := LIST_HEADER;
      }
      ghost var first := buf[base..];
      Store(HDR + used, f.name + [0]);
      Store(HDR + used + NAME_SIZE, Fields(f.stat));
      ghost var counted := buf[base..];
      assert counted == Stored(first, Offset(|pending|), f);
      var fileNum := Le32At(buf[base..], HDR);
      Store(HDR, Le32(Add32(fileNum, 1)));
      RecordAdded(area, pending, f, counted, buf[base..]);
      AreaHeader(buf[..], base, header);
      used := used + RECORD;
      pending := pending + [f];
    }

    /** readDirInvoke. The result of a failed send of a full batch is lost in a comparison: the program
        returns 1, which is no code of its own. */
    method ReadDirInvoke(arg: Callback) returns (res: Status)
      requires Valid() && SendEach(start, packets).ok && (arg.Name? ==> IsName(arg.e.name))
      modifies this, phone, buf
      ensures res == Ok && arg.Name? ==> Valid()
      ensures phone.Valid() && phone.Snap() == SendEach(start, packets).m && AllCarry(packets, sent, header)
      ensures (res == Ok) == SendEach(start, packets).ok
      ensures arg.Name? ==>
                var v := Visit(old(pending), arg.e, size);
                sent == old(sent) + v.sent && (res == Ok ==> pending == v.pending) && res in {Ok, SendFailed}
      ensures arg.NoMore? ==> sent == old(sent) + [Message(old(pending), true)]
    {
      hide Holds, AllCarry, SendEach;
      if arg.NoMore? {
        res := Send(true);
        return;
      }
      if size - used < RECORD {
        res := Send(false);
        if res != Ok {
          return SendFailed;
        }
        used := 0;
        pending := [];
        HoldsNothing(buf[base..]);
      }
      match arg.e.found {
        case Unknown =>
        case Known(st) => AddRecord(File(arg.e.name, st));
      }
      return Ok;
    }

    /** usDisk_diskList over what readdir() gives. */
    method DiskList(entries: seq<Entry>) returns (res: Status)
      requires Valid() && pending == [] && sent == [] && packets == [] && AllNames(entries)
      modifies this, phone, buf
      ensures phone.Valid() && phone.Snap() == SendEach(start, packets).m && AllCarry(packets, sent, header)
      ensures (res == Ok) == SendEach(start, packets).ok
      ensures var all := Messages([], entries, size);
              sent <= all && (res == Ok ==> sent == all)
    {
      hide Holds, AllCarry, Visit, Valid;
      ghost var all := Messages([], entries, size);
      var i := 0;
      assert entries[0..] == entries;
      while i < |entries|
        invariant 0 <= i <= |entries| && Valid() && SendEach(start, packets).ok
        invariant sent + Messages(pending, entries[i..], size) == all
      {
        MessagesTurn(pending, entries, i, size);
        if !Ignored(entries[i]) {
          ghost var before, v := sent, Visit(pending, entries[i], size);
          MoreMessages(before, v.sent, Messages(v.pending, entries[i + 1..], size));
          res := ReadDirInvoke(Name(entries[i]));
          if res != Ok {
            return;
          }
        }
        i := i + 1;
      }
      res := ReadDirInvoke(NoMore);
    }
  }

  lemma MessagesTurn(pending: seq<File>, entries: seq<Entry>, i: nat, cap: nat)
    requires i < |entries|
    ensures Messages(pending, entries[i..], cap) ==
            if Ignored(entries[i]) then Messages(pending, entries[i + 1..], cap)
            else
              var v := Visit(pending, entries[i], cap);
              v.sent + Messages(v.pending, entries[i + 1..], cap)
  {
    assert entries[i..][1..] == entries[i + 1..];
  }

  lemma HoldsNothing(area: seq<byte>)
    requires HDR <= |area|
    ensures Holds(area, [])
  {
  }

  lemma HoldsSmall(area: seq<byte>, pending: seq<File>, size: nat)
    requires Len(pending) <= size <= LIST_MAX_BUFFER
    ensures |pending| < 0x1_0000
  {
  }

  /** The header, seen in the whole buffer and from the protocol header on. */
  lemma AreaHeader(whole: seq<byte>, base: nat, header: seq<byte>)
    requires |header| == HDR && base + HDR <= |whole|
    ensures whole[base..][..16] == header[..16] <==> whole[base..base + 16] == header[..16]
    ensures whole[base..][20..HDR] == header[20..] <==> whole[base + 20..base + HDR] == header[20..]
  {
    assert whole[base..][..16] == whole[base..base + 16];
    assert whole[base..][20..HDR] == whole[base + 20..base + HDR];
  }

  lemma HeaderKept(before: seq<byte>, after: seq<byte>, base: nat, kept: nat, header: seq<byte>)
    requires HDR <= kept && |header| == HDR && base + kept <= |before| == |after|
    requires after[base..base + kept] == before[base..base + kept]
    requires before[base..base + 16] == header[..16] && before[base + 20..base + HDR] == header[20..]
    ensures after[base..base + 16] == header[..16] && after[base + 20..base + HDR] == header[20..]
  {
    SliceSlice(before, base, base + kept, 0, 16);
    SliceSlice(after, base, base + kept, 0, 16);
    SliceSlice(before, base, base + kept, 20, HDR);
    SliceSlice(after, base, base + kept, 20, HDR);
  }

  /** The 24-byte answer to a name that is no directory or cannot be opened: relag 1, len 0. */
  function Refusal(header: seq<byte>): (r: seq<byte>)
    requires |header| == HDR
    ensures |r| == HDR && r[6] == 1 && r[7] == 0 && Le32At(r, 16) == 0
    ensures r[..6] == header[..6] && r[8..16] == header[8..16] && r[20..] == header[20..]
  {
    Overlay(Overlay(header, 6, [1, 0]), 16, Le32(0))
  }

  /** usDecode_ListHandle for the request at buf[base..], with `ptrLen` bytes of buffer behind its header.
      Whether the messages of a listing could be sent is not reported. */
  method ListHandle(phone: MuxDevice.Phone, buf: array<byte>, base: nat, ptrLen: nat, dir: Directory)
    returns (status: Status, ghost packets: seq<seq<byte>>)
    requires phone.Valid() && buf != phone.interBuf && 36 <= base && base + HDR + ptrLen <= buf.Length
    requires LIST_HEADER + RECORD <= ptrLen && (dir.Directory? ==> AllNames(dir.entries))
    modifies phone, buf
    ensures phone.Valid() && phone.Snap() == SendEach(old(phone.Snap()), packets).m
    ensures !dir.Directory? ==>
              packets == [Refusal(old(buf[base..base + HDR]))] && (status == Ok) == SendEach(old(phone.Snap()), packets).ok
    ensures dir.Directory? ==>
              var all := Messages([], dir.entries, Min(ptrLen, LIST_MAX_BUFFER));
              && status == Ok && |packets| <= |all|
              && AllCarry(packets, all[..|packets|], old(buf[base..base + HDR]))
              && (SendEach(old(phone.Snap()), packets).ok ==> |packets| == |all|)
  {
    hide AllCarry, Mux.SendPackage, Overlay, Le32;
    match dir {
      case Directory(entries) =>
        var size := Min(ptrLen, LIST_MAX_BUFFER);
        var lister := new Lister(phone, buf, base, size);
        var ignored := lister.DiskList(entries);
        packets := lister.packets;
        SameNumber(lister.packets, lister.sent, lister.header);
        PrefixIs(lister.sent, Messages([], entries, size));
        return Ok, packets;
      case _ =>
        ghost var packet := Refusal(buf[base..base + HDR]);
        ghost var whole := buf[..];
        Poke(buf, base + 6, [1, 0]);
        Poke(buf, base + 16, Le32(0));
        RefusalIs(whole, base);
        packets := [packet];
        SendOneMore(phone.Snap(), [], packet);
        assert [] + [packet] == [packet];
        status := phone.SendPackage(buf, base, HDR);
    }
  }

  lemma SameNumber(packets: seq<seq<byte>>, ms: seq<Message>, header: seq<byte>)
    requires |header| == HDR && AllCarry(packets, ms, header)
    ensures |packets| == |ms|
  {
  }

  lemma PrefixIs(a: seq<Message>, b: seq<Message>)
    requires a <= b
    ensures a == b[..|a|]
  {
  }

  lemma RefusalIs(whole: seq<byte>, base: nat)
    requires base + HDR <= |whole|
    ensures Overlay(Overlay(whole, base + 6, [1, 0]), base + 16, Le32(0))[base..base + HDR]
         == Refusal(whole[base..base + HDR])
  {
    hide Overlay, Le32;
    OverlayInside(whole, base, 6, [1, 0]);
    OverlayInside(Overlay(whole, base + 6, [1, 0]), base, 16, Le32(0));
  }

  lemma OverlayInside(whole: seq<byte>, base: nat, at: nat, data: seq<byte>)
    requires base + HDR <= |whole| && at + |data| <= HDR
    ensures Overlay(whole, base + at, data)[base..base + HDR] == Overlay(whole[base..base + HDR], at, data)
  {
  }
}
