/** The READ and WRITE commands: usDecode.c's handlers over the read and write loops of usDisk.c. */
module DiskFile {
  import opened Base
  import Storage

  const HDR: nat := Storage.PRO_HDR_SIZE
  /** sizeof(struct operation_rw), without the path behind it. */
  const RW_SIZE: nat := 14
  const MAX_PATH_SIZE: nat := 4096
  const VERSION_1: nat := 1

  /** What one read() of a regular file, or one write(), does: move some bytes (a read at least one,
      unless there are none), be interrupted, or fail. A schedule that runs out fails. */
  datatype Call = Moves(n: nat) | Interrupted | Fails

  type Path = seq<byte>
  type Files = map<Path, seq<byte>>

  // ----- Files

  /** The bytes of a file that a range covers. */
  function Slice(file: seq<byte>, pos: nat, size: nat): (r: seq<byte>)
    ensures |r| <= size
  {
    if pos >= |file| then [] else file[pos..Min(pos + size, |file|)]
  }

  /** A file written at `pos`: what lies between its old end and `pos` reads as zeros. */
  function PutAt(file: seq<byte>, pos: nat, data: seq<byte>): seq<byte> {
    if data == [] then file
    else
      (if pos <= |file| then file[..pos] else file + seq(pos - |file|, _ => 0)) + data
      + (if pos + |data| < |file| then file[pos + |data|..] else [])
  }

  lemma PutAtTwice(file: seq<byte>, pos: nat, a: seq<byte>, b: seq<byte>)
    ensures PutAt(PutAt(file, pos, a), pos + |a|, b) == PutAt(file, pos, a + b)
  {
    if a == [] {
      assert a + b == b;
    } else if b == [] {
      assert a + b == a;
    } else {
      var once, both := PutAt(PutAt(file, pos, a), pos + |a|, b), PutAt(file, pos, a + b);
      assert |once| == |both|;
      assert forall k :: 0 <= k < |both| ==> once[k] == both[k];
    }
  }

  /** The written range reads back, every other old byte is as before, and a gap is filled with zeros. */
  lemma PutAtReads(file: seq<byte>, pos: nat, data: seq<byte>)
    ensures Slice(PutAt(file, pos, data), pos, |data|) == data
    ensures data != [] ==> |PutAt(file, pos, data)| == if pos + |data| < |file| then |file| else pos + |data|
    ensures forall k :: 0 <= k < |file| && !(pos <= k < pos + |data|) ==> PutAt(file, pos, data)[k] == file[k]
    ensures data != [] ==> forall k :: |file| <= k < pos ==> PutAt(file, pos, data)[k] == 0
  {
  }

  // ----- usDisk_diskRead

  datatype Reading = Reading(status: Status, bytes: seq<byte>, rest: seq<Call>)

  /** The loop from byte `pos` of the file on. */
  function ReadFrom(calls: seq<Call>, file: seq<byte>, pos: nat, size: nat): (r: Reading)
    requires size > 0
    ensures |r.bytes| <= size
    decreases |calls|
  {
    if calls == [] then Reading(DiskRead, [], [])
    else match calls[0]
      case Fails => Reading(DiskRead, [], calls[1..])
      case Interrupted => ReadFrom(calls[1..], file, pos, size)
      case Moves(n) =>
        var got := Slice(file, pos, Min(if n == 0 then 1 else n, size));
        if got == [] || |got| == size then Reading(Ok, got, calls[1..])
        else
          var r := ReadFrom(calls[1..], file, pos + |got|, size - |got|);
          Reading(r.status, got + r.bytes, r.rest)
  }

  /** usDisk_diskRead: the bytes that land in the buffer. */
  function Read(files: Files, calls: seq<Call>, path: Path, offset: int, size: nat): (r: Reading)
    ensures |r.bytes| <= size
  {
    if path == [] || size == 0 then Reading(Arg, [], calls)
    else if path !in files then Reading(DiskOpen, [], calls)
    else if offset < 0 then Reading(DiskSeek, [], calls)
    else ReadFrom(calls, files[path], offset, size)
  }

  /** However the reads are cut, a read that succeeds brings the file's bytes in its range, as many as
      there are; one that fails, the first of them. */
  lemma {:induction false} ReadGives(calls: seq<Call>, file: seq<byte>, pos: nat, size: nat)
    requires size > 0
    ensures var r := ReadFrom(calls, file, pos, size);
            if r.status == Ok then r.bytes == Slice(file, pos, size) else r.bytes <= Slice(file, pos, size)
    decreases |calls|
  {
    hide Slice;
    if calls != [] && !calls[0].Fails? {
      if calls[0].Interrupted? {
        ReadGives(calls[1..], file, pos, size);
      } else {
        var n := Min(if calls[0].n == 0 then 1 else calls[0].n, size);
        var got := Slice(file, pos, n);
        SliceSplit(file, pos, n, size);
        if got != [] && |got| < size {
          ReadGives(calls[1..], file, pos + |got|, size - |got|);
          PrefixBehind(got, ReadFrom(calls[1..], file, pos + |got|, size - |got|).bytes,
                       Slice(file, pos + |got|, size - |got|));
        }
      }
    }
  }

  lemma PrefixBehind(a: seq<byte>, b: seq<byte>, c: seq<byte>)
    ensures b <= c ==> a + b <= a + c
  {
  }

  lemma SliceSplit(file: seq<byte>, pos: nat, n: nat, size: nat)
    requires 0 < n <= size
    ensures var got := Slice(file, pos, n);
            && Slice(file, pos, size) == got + Slice(file, pos + |got|, size - |got|)
            && (got == [] ==> Slice(file, pos, size) == [])
            && (|got| == size ==> got == Slice(file, pos, size))
  {
  }

  // ----- usDisk_diskWrite

  datatype Writing = Writing(status: Status, file: seq<byte>, rest: seq<Call>)

  function WriteFrom(calls: seq<Call>, file: seq<byte>, pos: nat, data: seq<byte>): Writing
    requires data != []
    decreases |calls|
  {
    if calls == [] then Writing(DiskWrite, file, [])
    else match calls[0]
      case Fails => Writing(DiskWrite, file, calls[1..])
      case Interrupted => WriteFrom(calls[1..], file, pos, data)
      case Moves(n) =>
        var k := Min(n, |data|);
        var file1 := PutAt(file, pos, data[..k]);
        if k == |data| then Writing(Ok, file1, calls[1..])
        else WriteFrom(calls[1..], file1, pos + k, data[k..])
  }

  datatype Written = Written(status: Status, files: Files, rest: seq<Call>)

  /** usDisk_diskWrite, without its last argument, which the program never gives. */
  function Write(files: Files, calls: seq<Call>, path: Path, offset: int, data: seq<byte>): Written {
    if path == [] || data == [] then Written(Arg, files, calls)
    else if path !in files then Written(DiskOpen, files, calls)
    else if offset < 0 then Written(DiskSeek, files, calls)
    else
      var w := WriteFrom(calls, files[path], offset, data);
      Written(w.status, files[path := w.file], w.rest)
  }

  /** The file after a write of which `n` bytes came through. */
  predicate PartlyWritten(before: seq<byte>, after: seq<byte>, pos: nat, data: seq<byte>, n: nat) {
    n <= |data| && after == PutAt(before, pos, data[..n])
  }

  /** However the writes are cut, a write that succeeds has put all its bytes in place; one that fails, the
      first few of them and nothing else. */
  lemma {:induction false} WriteGives(calls: seq<Call>, file: seq<byte>, pos: nat, data: seq<byte>) returns (n: nat)
    requires data != []
    ensures var w := WriteFrom(calls, file, pos, data);
            PartlyWritten(file, w.file, pos, data, n) && (w.status == Ok <==> n == |data|)
    decreases |calls|
  {
    hide PutAt;
    PutNothing(file, pos);
    if calls == [] || calls[0].Fails? {
      n := 0;
    } else if calls[0].Interrupted? {
      n := WriteGives(calls[1..], file, pos, data);
    } else {
      var k := Min(calls[0].n, |data|);
      if k == |data| {
        n := k;
      } else {
        var more := WriteGives(calls[1..], PutAt(file, pos, data[..k]), pos + k, data[k..]);
        PutAtTwice(file, pos, data[..k], data[k..][..more]);
        assert data[..k] + data[k..][..more] == data[..k + more];
        n := k + more;
      }
    }
  }

  lemma PutNothing(file: seq<byte>, pos: nat)
    ensures PutAt(file, pos, []) == file
  {
  }

  // ----- Write, then read

  /** After a write that returned OK, a read of the same path, offset and size that returns OK gives back
      exactly the bytes written, whatever the schedules of both; every byte the file had outside the range,
      and every other file, is as it was. */
  lemma WriteThenRead(files: Files, wcalls: seq<Call>, rcalls: seq<Call>, path: Path, offset: int, data: seq<byte>)
    requires Write(files, wcalls, path, offset, data).status == Ok
    ensures path in files && offset >= 0
    ensures var after := Write(files, wcalls, path, offset, data).files;
            && after == files[path := PutAt(files[path], offset, data)]
            && (var r := Read(after, rcalls, path, offset, |data|); r.status == Ok ==> r.bytes == data)
            && (forall k :: 0 <= k < |files[path]| && !(offset <= k < offset + |data|) ==>
                  k < |after[path]| && after[path][k] == files[path][k])
            && (forall other :: other in files && other != path ==> other in after && after[other] == files[other])
  {
    hide PutAt, ReadFrom, WriteFrom, Slice;
    var n := WriteGives(wcalls, files[path], offset, data);
    assert data[..|data|] == data;
    var file := PutAt(files[path], offset, data);
    PutAtReads(files[path], offset, data);
    ReadGives(rcalls, file, offset, |data|);
  }

  /** A write that fails leaves every other file, and every byte outside its range, as it was. */
  lemma FailedWriteKeeps(files: Files, calls: seq<Call>, path: Path, offset: int, data: seq<byte>)
    requires Write(files, calls, path, offset, data).status != Ok
    ensures var after := Write(files, calls, path, offset, data).files;
            && after.Keys == files.Keys
            && (forall other :: other in files && other != path ==> after[other] == files[other])
            && (path in files ==>
                  forall k :: 0 <= k < |files[path]| && !(offset <= k < offset + |data|) ==>
                    k < |after[path]| && after[path][k] == files[path][k])
  {
    hide PutAt, WriteFrom;
    if path != [] && data != [] && path in files && offset >= 0 {
      var n := WriteGives(calls, files[path], offset, data);
      var file := Write(files, calls, path, offset, data).files[path];
      PutAtReads(files[path], offset, data[..n]);
      if n == 0 {
        PutNothing(files[path], offset);
      }
    }
  }

  /** A read that returns OK gives the bytes the file has in the range, so fewer past its end. */
  lemma ReadPastEnd(files: Files, calls: seq<Call>, path: Path, offset: int, size: nat)
    requires Read(files, calls, path, offset, size).status == Ok
    ensures path in files && offset >= 0
    ensures Read(files, calls, path, offset, size).bytes == Slice(files[path], offset, size)
  {
    ReadGives(calls, files[path], offset, size);
  }

  // ----- When reads and writes succeed

  /** No call fails, each that moves bytes moves some, and there are `n` of those. */
  predicate CallsWork(calls: seq<Call>, n: int) {
    (forall i :: 0 <= i < |calls| ==> !calls[i].Fails? && (calls[i].Moves? ==> calls[i].n >= 1)) && Moving(calls) >= n
  }

  function Moving(calls: seq<Call>): nat {
    if calls == [] then 0 else (if calls[0].Moves? then 1 else 0) + Moving(calls[1..])
  }

  lemma {:induction false} ReadWorks(calls: seq<Call>, file: seq<byte>, pos: nat, size: nat)
    requires size > 0 && CallsWork(calls, size)
    ensures ReadFrom(calls, file, pos, size).status == Ok
    decreases |calls|
  {
    hide Slice;
    if calls[0].Interrupted? {
      ReadWorks(calls[1..], file, pos, size);
    } else {
      var got := Slice(file, pos, Min(calls[0].n, size));
      if got != [] && |got| < size {
        ReadWorks(calls[1..], file, pos + |got|, size - |got|);
      }
    }
  }

  lemma {:induction false} WriteWorks(calls: seq<Call>, file: seq<byte>, pos: nat, data: seq<byte>)
    requires data != [] && CallsWork(calls, |data|)
    ensures WriteFrom(calls, file, pos, data).status == Ok
    decreases |calls|
  {
    hide PutAt;
    if calls[0].Interrupted? {
      WriteWorks(calls[1..], file, pos, data);
    } else {
      var k := Min(calls[0].n, |data|);
      if k < |data| {
        WriteWorks(calls[1..], PutAt(file, pos, data[..k]), pos + k, data[k..]);
      }
    }
  }

  /** Over working schedules a read and a write succeed exactly when the path and the size are not empty, the
      file exists and the offset is not negative; what fails first decides the code. */
  lemma OkIff(files: Files, calls: seq<Call>, path: Path, offset: int, data: seq<byte>)
    requires CallsWork(calls, |data|)
    ensures var status := if path == [] || data == [] then Arg
                          else if path !in files then DiskOpen else if offset < 0 then DiskSeek else Ok;
            && Read(files, calls, path, offset, |data|).status == status
            && Write(files, calls, path, offset, data).status == status
  {
    hide ReadFrom, WriteFrom, CallsWork;
    if path != [] && data != [] && path in files && offset >= 0 {
      ReadWorks(calls, files[path], offset, |data|);
      WriteWorks(calls, files[path], offset, data);
    }
  }

  // ----- The requests

  function Le16At(s: seq<byte>, i: nat): u16
    requires i + 2 <= |s|
  {
    (s[i] as int) + (s[i + 1] as int) * 0x100
  }

  function Signed64(low: u32, high: u32): int {
    Signed32(high) * TWO32 + low
  }

  /** struct operation_rw and the path behind it, cut at its first zero as strncpy and strlen do. */
  datatype Rw = Rw(offset: int, rawSize: u32, path: Path)

  function PathLen(s: seq<byte>, at: nat): u16
    requires at + RW_SIZE <= |s|
  {
    Le16At(s, at + 12)
  }

  /** The bytes of the path field that lie in the buffer. */
  function PathField(s: seq<byte>, at: nat): seq<byte>
    requires at + RW_SIZE <= |s|
  {
    s[at + RW_SIZE..Min(at + RW_SIZE + PathLen(s, at), |s|)]
  }

  /** The copy of the path stays in its 4096 bytes and is terminated there, and what it is copied from ends,
      with a zero or by its length, in the buffer. A negative length, an unsigned one here, does not. */
  predicate PathSafe(s: seq<byte>, at: nat)
    requires at + RW_SIZE <= |s|
  {
    && PathLen(s, at) <= MAX_PATH_SIZE
    && (0 in PathField(s, at) || (PathLen(s, at) < MAX_PATH_SIZE && at + RW_SIZE + PathLen(s, at) <= |s|))
  }

  function RwAt(s: seq<byte>, at: nat): Rw
    requires at + RW_SIZE <= |s|
  {
    Rw(Signed64(Le32At(s, at), Le32At(s, at + 4)), Le32At(s, at + 8), CString(PathField(s, at)))
  }

  /** The reply: len, and relag when the command failed. */
  function Answer(s: seq<byte>, base: nat, len: u32, failed: bool): (r: seq<byte>)
    requires base + HDR <= |s|
    ensures |r| == |s|
  {
    Overlay(if failed then Overlay(s, base + 6, [1, 0]) else s, base + 16, Le32(len))
  }

  /** What a peer finds in a reply: relag cleared in the request stays cleared exactly on success, the len
      field is the length of what follows the header, and that is `payload`. */
  lemma AnswerReads(s: seq<byte>, base: nat, payload: seq<byte>, failed: bool)
    requires base + HDR + |payload| <= |s| && |payload| < TWO32
    requires s[base + 6] == 0 && s[base + 7] == 0 && s[base + HDR..base + HDR + |payload|] == payload
    ensures var r := Answer(s, base, |payload|, failed);
            && Le32At(r, base + 16) == |payload|
            && (r[base + 6] == 0 <==> !failed) && r[base + 7] == 0
            && r[base + HDR..base + HDR + |payload|] == payload
            && r[base..base + 6] == s[base..base + 6] && r[base + 8..base + 16] == s[base + 8..base + 16]
  {
    hide Le32, Le32At;
    var r := Answer(s, base, |payload|, failed);
    assert r[base + 16..base + 20] == Le32(|payload|);
    Le32Stored(r, base + 16, |payload|);
  }

  /** The round trip at the level of messages: a READ request for the path, offset and size of a WRITE
      request that succeeded is answered, if it succeeds, with relag clear, len the size, and exactly the
      bytes that stood behind the path in the WRITE request. */
  lemma RequestsRoundTrip(files: Files, wcalls: seq<Call>, rcalls: seq<Call>, w: seq<byte>, r: seq<byte>)
    requires HDR + RW_SIZE <= |w| && HDR + RW_SIZE <= |r|
    requires RwAt(w, HDR) == RwAt(r, HDR) && r[6] == 0 && r[7] == 0
    requires var q, at := RwAt(w, HDR), HDR + RW_SIZE + PathLen(w, HDR);
             && at + q.rawSize <= |w| && HDR + q.rawSize <= |r|
             && var written := Write(files, wcalls, q.path, q.offset, w[at..at + q.rawSize]);
                written.status == Ok && Read(written.files, rcalls, q.path, q.offset, q.rawSize).status == Ok
    ensures var q, at := RwAt(w, HDR), HDR + RW_SIZE + PathLen(w, HDR);
            var data := w[at..at + q.rawSize];
            var reading := Read(Write(files, wcalls, q.path, q.offset, data).files, rcalls, q.path, q.offset, q.rawSize);
            var reply := Answer(Overlay(r, HDR, reading.bytes), 0, |reading.bytes|, false);
            && Le32At(reply, 16) == q.rawSize && reply[6] == 0 && reply[7] == 0
            && reply[HDR..HDR + q.rawSize] == data
  {
    hide Read, Write, RwAt, PathLen, Le32At;
    var q, at := RwAt(w, HDR), HDR + RW_SIZE + PathLen(w, HDR);
    var data := w[at..at + q.rawSize];
    WriteThenRead(files, wcalls, rcalls, q.path, q.offset, data);
    AnswerReads(Overlay(r, HDR, data), 0, data, false);
  }

  /** And they do succeed: over working schedules, for a file that exists, an offset that is not negative and
      a size that is not zero, the READ request is answered with the bytes of the WRITE request. */
  lemma RequestsSucceed(files: Files, wcalls: seq<Call>, rcalls: seq<Call>, w: seq<byte>, r: seq<byte>)
    requires HDR + RW_SIZE <= |w| && HDR + RW_SIZE <= |r|
    requires RwAt(w, HDR) == RwAt(r, HDR) && r[6] == 0 && r[7] == 0
    requires var q, at := RwAt(w, HDR), HDR + RW_SIZE + PathLen(w, HDR);
             && q.path in files && q.path != [] && q.offset >= 0 && q.rawSize > 0
             && at + q.rawSize <= |w| && HDR + q.rawSize <= |r|
             && CallsWork(wcalls, q.rawSize) && CallsWork(rcalls, q.rawSize)
    ensures var q, at := RwAt(w, HDR), HDR + RW_SIZE + PathLen(w, HDR);
            var written := Write(files, wcalls, q.path, q.offset, w[at..at + q.rawSize]);
            var reading := Read(written.files, rcalls, q.path, q.offset, q.rawSize);
            var reply := Answer(Overlay(r, HDR, reading.bytes), 0, |reading.bytes|, reading.status != Ok);
            && written.status == Ok && reading.status == Ok
            && Le32At(reply, 16) == q.rawSize && reply[6] == 0 && reply[HDR..HDR + q.rawSize] == w[at..at + q.rawSize]
  {
    hide Read, Write, RwAt, PathLen, Le32At, CallsWork, Answer;
    var q, at := RwAt(w, HDR), HDR + RW_SIZE + PathLen(w, HDR);
    var data := w[at..at + q.rawSize];
    OkIff(files, wcalls, q.path, q.offset, data);
    WriteThenRead(files, wcalls, rcalls, q.path, q.offset, data);
    OkIff(Write(files, wcalls, q.path, q.offset, data).files, rcalls, q.path, q.offset, data);
    RequestsRoundTrip(files, wcalls, rcalls, w, r);
  }

  // ----- In the program's own form

  /** A read with `landed` before it. */
  function Grown(landed: seq<byte>, r: Reading): Reading {
    Reading(r.status, landed + r.bytes, r.rest)
  }

  lemma ReadTurn(calls: seq<Call>, file: seq<byte>, pos: nat, size: nat, landed: seq<byte>)
    requires size > 0
    ensures var goal := Grown(landed, ReadFrom(calls, file, pos, size));
            if calls == [] then goal == Reading(Status.DiskRead, landed, [])
            else match calls[0]
              case Fails => goal == Reading(Status.DiskRead, landed, calls[1..])
              case Interrupted => goal == Grown(landed, ReadFrom(calls[1..], file, pos, size))
              case Moves(n) =>
                var got := Slice(file, pos, Min(if n == 0 then 1 else n, size));
                if got == [] || |got| == size then goal == Reading(Ok, landed + got, calls[1..])
                else goal == Grown(landed + got, ReadFrom(calls[1..], file, pos + |got|, size - |got|))
  {
    hide Slice;
    assert landed + [] == landed;
    if calls != [] && calls[0].Moves? {
      var got := Slice(file, pos, Min(if calls[0].n == 0 then 1 else calls[0].n, size));
      if got != [] && |got| < size {
        var more := ReadFrom(calls[1..], file, pos + |got|, size - |got|).bytes;
        assert landed + (got + more) == (landed + got) + more;
      }
    }
  }

  /** A write() of buf[..] at a file position. */
  lemma WriteTurn(calls: seq<Call>, file: seq<byte>, pos: nat, data: seq<byte>, already: nat, n: nat)
    requires already < |data| && calls != [] && calls[0] == Moves(n)
    ensures var k := Min(n, |data| - already);
            var file1 := PutAt(file, pos, data[already..already + k]);
            WriteFrom(calls, file, pos, data[already..]) ==
              if already + k == |data| then Writing(Ok, file1, calls[1..])
              else WriteFrom(calls[1..], file1, pos + k, data[already + k..])
  {
    hide PutAt;
    var k := Min(n, |data| - already);
    assert data[already..][..k] == data[already..already + k];
    assert data[already..][k..] == data[already + k..];
  }

  class Disk {
    var files: Files
    var readCalls: seq<Call>
    var writeCalls: seq<Call>

    constructor (files: Files, readCalls: seq<Call>, writeCalls: seq<Call>)
      ensures this.files == files && this.readCalls == readCalls && this.writeCalls == writeCalls
    {
      this.files, this.readCalls, this.writeCalls := files, readCalls, writeCalls;
    }

    /** usDisk_diskRead into buf[at..at + size]. */
    method DiskRead(path: Path, buf: array<byte>, at: nat, offset: int, size: nat)
      returns (status: Status, trueRead: nat)
      requires at + size <= buf.Length
      modifies this`readCalls, buf
      ensures var r := Read(files, old(readCalls), path, offset, size);
              && status == r.status && readCalls == r.rest
              && (status == Ok ==> trueRead == |r.bytes|)
              && buf[..] == Overlay(old(buf[..]), at, r.bytes)
    {
      hide Overlay, Slice, ReadFrom;
      trueRead := 0;
      OverlayNothing(buf[..], at);
      if path == [] || size == 0 {
        return Arg, 0;
      }
      if path !in files {
        return DiskOpen, 0;
      }
      if offset < 0 {
        return DiskSeek, 0;
      }
      var file, already := files[path], 0;
      ghost var goal, before := ReadFrom(readCalls, file, offset, size), buf[..];
      ghost var landed: seq<byte> := [];
      assert goal == Grown(landed, goal);
      while true
        invariant 0 <= already == |landed| < size && buf[..] == Overlay(before, at, landed)
        invariant goal == Grown(landed, ReadFrom(readCalls, file, offset + already, size - already))
        decreases |readCalls|
      {
        ReadTurn(readCalls, file, offset + already, size - already, landed);
        if readCalls == [] {
          return Status.DiskRead, 0;
        }
        var call := readCalls[0];
        readCalls := readCalls[1..];
        match call {
          case Fails => return Status.DiskRead, 0;
          case Interrupted =>
          case Moves(n) =>
            var got := Slice(file, offset + already, Min(if n == 0 then 1 else n, size - already));
            Poke(buf, at + already, got);
            OverlayTwice(before, at, landed, got);
            landed := landed + got;
            if got == [] {
              return Ok, already;
            }
            already := already + |got|;
            if already >= size {
              return Ok, size;
            }
        }
      }
    }

    /** usDisk_diskWrite of buf[at..at + size]. */
    method DiskWrite(path: Path, buf: array<byte>, at: nat, offset: int, size: nat) returns (status: Status)
      requires at + size <= buf.Length
      modifies this`files, this`writeCalls
      ensures var w := Write(old(files), old(writeCalls), path, offset, buf[at..at + size]);
              status == w.status && files == w.files && writeCalls == w.rest
    {
      hide PutAt, WriteFrom;
      if path == [] || size == 0 {
        return Arg;
      }
      if path !in files {
        return DiskOpen;
      }
      if offset < 0 {
        return DiskSeek;
      }
      ghost var data := buf[at..at + size];
      ghost var goal := WriteFrom(writeCalls, files[path], offset, data);
      var already := 0;
      assert data[0..] == data;
      Rewritten(files, path);
      while true
        invariant 0 <= already < size && path in files
        invariant WriteFrom(writeCalls, files[path], offset + already, data[already..]) == goal
        invariant files == old(files)[path := files[path]]
        decreases |writeCalls|
      {
        WriteStops(writeCalls, files[path], offset + already, data[already..]);
        if writeCalls == [] {
          return Status.DiskWrite;
        }
        var call := writeCalls[0];
        match call {
          case Fails =>
            writeCalls := writeCalls[1..];
            return Status.DiskWrite;
          case Interrupted =>
            writeCalls := writeCalls[1..];
          case Moves(n) =>
            var res := Min(n, size - already);
            WriteTurn(writeCalls, files[path], offset + already, data, already, n);
            assert buf[at + already..at + already + res] == data[already..already + res];
            files := files[path := PutAt(files[path], offset + already, buf[at + already..at + already + res])];
            writeCalls := writeCalls[1..];
            already := already + res;
            if already >= size {
              return Ok;
            }
        }
      }
    }

    /** usDecode_ReadHandle for the request at buf[base..], with `room` bytes behind its header. The file's
        bytes are read over the request itself, whose path has been copied out before. */
    method ReadHandle(buf: array<byte>, base: nat, version: u16, room: nat)
      requires RW_SIZE <= room < 0x8000_0000 && base + HDR + room <= buf.Length
      requires PathSafe(buf[..], base + HDR)
      modifies this`readCalls, buf
      ensures var q := RwAt(old(buf[..]), base + HDR);
              var served := version == VERSION_1 && q.rawSize <= room;
              var r := if served then Read(files, old(readCalls), q.path, q.offset, q.rawSize)
                       else Reading(Arg, [], old(readCalls));
              && readCalls == r.rest
              && buf[..] == Answer(Overlay(old(buf[..]), base + HDR, r.bytes), base,
                                   if r.status == Ok then |r.bytes| else 0, r.status != Ok)
    {
      hide Overlay, Read, RwAt, PathLen, Le32;
      var q := RwAt(buf[..], base + HDR);
      OverlayNothing(buf[..], base + HDR);
      var status, trueRead := Arg, 0;
      if version == VERSION_1 && q.rawSize <= room {
        status, trueRead := DiskRead(q.path, buf, base + HDR, q.offset, q.rawSize);
      }
      if status != Ok {
        trueRead := 0;
        Poke(buf, base + 6, [1, 0]);
      }
      Poke(buf, base + 16, Le32(trueRead));
    }

    /** usDecode_WriteHandle for the request at buf[base..], with the bytes to write behind the path. */
    method WriteHandle(buf: array<byte>, base: nat, version: u16)
      requires base + HDR + RW_SIZE <= buf.Length
      requires PathSafe(buf[..], base + HDR)
      requires var q, n := RwAt(buf[..], base + HDR), PathLen(buf[..], base + HDR);
               base + HDR + RW_SIZE + n + q.rawSize <= buf.Length < 0x8000_0000
      modifies this`files, this`writeCalls, buf
      ensures var q := RwAt(old(buf[..]), base + HDR);
              var at := base + HDR + RW_SIZE + PathLen(old(buf[..]), base + HDR);
              var w := if version == VERSION_1
                       then Write(old(files), old(writeCalls), q.path, q.offset, old(buf[..])[at..at + q.rawSize])
                       else Written(Arg, old(files), old(writeCalls));
              && files == w.files && writeCalls == w.rest
              && buf[..] == Answer(old(buf[..]), base, 0, w.status != Ok)
    {
      hide Overlay, Write, RwAt, PathLen, Le32;
      var q := RwAt(buf[..], base + HDR);
      var at := base + HDR + RW_SIZE + PathLen(buf[..], base + HDR);
      var status := Arg;
      if version == VERSION_1 {
        assert buf[at..at + q.rawSize] == buf[..][at..at + q.rawSize];
        status := DiskWrite(q.path, buf, at, q.offset, q.rawSize);
      }
      if status != Ok {
        Poke(buf, base + 6, [1, 0]);
      }
      Poke(buf, base + 16, Le32(0));
    }
  }

  lemma Rewritten(files: Files, path: Path)
    requires path in files
    ensures files == files[path := files[path]]
  {
  }

  lemma WriteStops(calls: seq<Call>, file: seq<byte>, pos: nat, data: seq<byte>)
    requires data != []
    ensures calls == [] ==> WriteFrom(calls, file, pos, data) == Writing(Status.DiskWrite, file, [])
    ensures calls != [] && calls[0].Fails? ==>
              WriteFrom(calls, file, pos, data) == Writing(Status.DiskWrite, file, calls[1..])
    ensures calls != [] && calls[0].Interrupted? ==>
              WriteFrom(calls, file, pos, data) == WriteFrom(calls[1..], file, pos, data)
  {
  }
}
