/** usFirmware.c: the START / DATA / END firmware upgrade machine. */
module Firmware {
  import Base
  import Md5

  const SYS_FIRM_SKIP: nat := 64 * 1024
  const NEWLINE: bv8 := 0x0a
  const FGETS_ROOM: nat := 510
  const MD5_FLAG: seq<bv8> := [0x4d, 0x44, 0x35, 0x3d]

  datatype Status = Ok | FirmArg | FirmErr | FirmCrc

  /** What one write() does: move some of the bytes, be interrupted, or fail. */
  datatype WriteCall = Wrote(n: nat) | Interrupted | Failed

  // ----- writeFirmware

  datatype Written = Written(ok: bool, rest: seq<WriteCall>, done: seq<bv8>)

  /** The loop of writeFirmware over a finite schedule of results, which ends in a failure. */
  function Write(calls: seq<WriteCall>, data: seq<bv8>): Written
    decreases |calls|
  {
    if calls == [] then Written(false, [], [])
    else match calls[0]
      case Failed => Written(false, calls[1..], [])
      case Interrupted => Write(calls[1..], data)
      case Wrote(n) =>
        var k := Base.Min(n, |data|);
        if k == |data| then Written(true, calls[1..], data)
        else
          var w := Write(calls[1..], data[k..]);
          Written(w.ok, w.rest, data[..k] + w.done)
  }

  /** However the writes are cut, a call that succeeds has written the payload, whole and in order; one
      that fails, a proper prefix of it. */
  lemma {:induction false} WriteDelivers(calls: seq<WriteCall>, data: seq<bv8>)
    requires data != []
    ensures var w := Write(calls, data);
            (if w.ok then w.done == data else w.done < data) && |w.rest| <= |calls|
    decreases |calls|
  {
    if calls != [] && !calls[0].Failed? {
      var k := if calls[0].Wrote? then Base.Min(calls[0].n, |data|) else 0;
      if k < |data| {
        assert data[k..] != [] && data == data[..k] + data[k..];
        assert data[0..] == data;
        WriteDelivers(calls[1..], data[k..]);
      }
    }
  }

  /** The bytes the first `k` calls of a schedule could write. */
  function WrittenBy(calls: seq<WriteCall>, k: nat): nat
    requires k <= |calls|
  {
    if k == 0 then 0 else WrittenBy(calls, k - 1) + if calls[k - 1].Wrote? then calls[k - 1].n else 0
  }

  /** The first `k` calls, none of which fails, can write `len` bytes. */
  predicate Through(calls: seq<WriteCall>, len: nat, k: nat) {
    k <= |calls| && (forall i :: 0 <= i < k ==> !calls[i].Failed?) && WrittenBy(calls, k) >= len
  }

  lemma {:induction false} WrittenByTail(calls: seq<WriteCall>, k: nat)
    requires 0 < k <= |calls|
    ensures WrittenBy(calls, k) == (if calls[0].Wrote? then calls[0].n else 0) + WrittenBy(calls[1..], k - 1)
  {
    if k > 1 {
      WrittenByTail(calls, k - 1);
    }
  }

  lemma ThroughTail(calls: seq<WriteCall>, len: nat, k: nat)
    requires 0 < k <= |calls| && !calls[0].Failed?
    ensures var n := if calls[0].Wrote? then calls[0].n else 0;
            n <= len ==> (Through(calls, len, k) <==> Through(calls[1..], len - n, k - 1))
  {
    WrittenByTail(calls, k);
    assert forall i :: 1 <= i < |calls| ==> calls[i] == calls[1..][i - 1];
  }

  /** A payload is written exactly when its schedule starts with calls that do not fail and can write it,
      interruptions between them or not. */
  lemma {:induction false} WriteOkIff(calls: seq<WriteCall>, data: seq<bv8>)
    requires data != []
    ensures Write(calls, data).ok <==> exists k: nat :: Through(calls, |data|, k)
    decreases |calls|
  {
    hide Through;
    NothingThrough(calls, |data|);
    if calls != [] && !calls[0].Failed? {
      var n := if calls[0].Wrote? then calls[0].n else 0;
      if n >= |data| {
        FirstThrough(calls, |data|);
      } else {
        if n == 0 {
          assert data[0..] == data;
        }
        WriteOkIff(calls[1..], data[n..]);
        if Write(calls[1..], data[n..]).ok {
          var k: nat :| Through(calls[1..], |data[n..]|, k);
          ThroughInside(calls[1..], |data[n..]|, k);
          ThroughTail(calls, |data|, k + 1);
          assert Through(calls, |data|, k + 1);
        }
        if k: nat :| Through(calls, |data|, k) {
          ThroughInside(calls, |data|, k);
          ThroughTail(calls, |data|, k);
          assert Through(calls[1..], |data[n..]|, k - 1);
        }
      }
    }
  }

  lemma NothingThrough(calls: seq<WriteCall>, len: nat)
    requires len > 0
    ensures calls == [] || calls[0].Failed? ==> forall k: nat :: !Through(calls, len, k)
  {
  }

  lemma FirstThrough(calls: seq<WriteCall>, len: nat)
    requires calls != [] && calls[0].Wrote? && calls[0].n >= len
    ensures Through(calls, len, 1)
  {
    WrittenByTail(calls, 1);
  }

  lemma ThroughInside(calls: seq<WriteCall>, len: nat, k: nat)
    requires Through(calls, len, k) && len > 0
    ensures 0 < k <= |calls|
  {
  }

  /** No call fails, each that writes writes something, and there are `n` of those. */
  predicate WritesWork(calls: seq<WriteCall>, n: int) {
    (forall i :: 0 <= i < |calls| ==> !calls[i].Failed? && (calls[i].Wrote? ==> calls[i].n >= 1)) && Writing(calls) >= n
  }

  function Writing(calls: seq<WriteCall>): nat {
    if calls == [] then 0 else (if calls[0].Wrote? then 1 else 0) + Writing(calls[1..])
  }

  /** Over a working schedule a payload is written, with at most a write a byte. */
  lemma {:induction false} WriteWorks(calls: seq<WriteCall>, data: seq<bv8>, n: int)
    requires data != [] && WritesWork(calls, n) && n >= |data|
    ensures Write(calls, data).ok && WritesWork(Write(calls, data).rest, n - |data|)
    decreases |calls|
  {
    if calls[0].Interrupted? {
      WriteWorks(calls[1..], data, n);
    } else {
      var k := Base.Min(calls[0].n, |data|);
      if k < |data| {
        WriteWorks(calls[1..], data[k..], n - 1);
      }
    }
  }

  // ----- The MD5= line

  /** fgets with room for `room` bytes: up to and including a newline. */
  function Line(file: seq<bv8>, room: nat): (line: seq<bv8>)
    ensures line <= file && |line| <= room
    decreases room
  {
    if file == [] || room == 0 then []
    else if file[0] == NEWLINE then [file[0]]
    else [file[0]] + Line(file[1..], room - 1)
  }

  datatype Found = Found(line: seq<bv8>) | NotFound

  /** The search loop of upgradeFirmware: the first of at most `count` lines that starts with MD5=. */
  function FindLine(file: seq<bv8>, count: nat): Found
    decreases count
  {
    if count == 0 || file == [] then NotFound
    else
      var line := Line(file, FGETS_ROOM);
      if MD5_FLAG <= line then Found(line) else FindLine(file[|line|..], count - 1)
  }

  /** The char at `i` of the zeroed line buffer. */
  function BufferAt(line: seq<bv8>, i: nat): bv8 {
    if i < |line| then line[i] else 0
  }

  /** md5cmp: what the copying loop leaves in a zeroed array of 33 chars. */
  function Copied(line: seq<bv8>, i: nat): (r: seq<bv8>)
    requires i <= 33
    ensures |r| == 33 - i
    decreases 33 - i
  {
    if i == 33 then []
    else if BufferAt(line, 4 + i) == NEWLINE then seq(33 - i, _ => 0)
    else [BufferAt(line, 4 + i)] + Copied(line, i + 1)
  }

  function Lower(c: bv8): bv8 {
    if 0x41 <= c <= 0x5a then c + 0x20 else c
  }

  /** strcasecmp of a 32-char string without zeros and the 33 chars of md5cmp. */
  predicate SameIgnoringCase(md5str: seq<bv8>, md5cmp: seq<bv8>)
    requires |md5str| == 32 && |md5cmp| == 33
  {
    (forall i :: 0 <= i < 32 ==> Lower(md5str[i]) == Lower(md5cmp[i])) && md5cmp[32] == 0
  }

  function HexDigit(d: bv8): bv8
  {
    if d < 10 then 0x30 + d else 0x57 + d
  }

  /** The "%02x" rendering. */
  function Hex(digest: seq<bv8>): (r: seq<bv8>)
    ensures |r| == 2 * |digest|
  {
    if digest == [] then [] else [HexDigit(digest[0] >> 4), HexDigit(digest[0] & 15)] + Hex(digest[1..])
  }

  function HashOf(file: seq<bv8>): (r: seq<bv8>)
    ensures |r| == 32
  {
    Hex(Md5.Digest(Md5.Past(file, SYS_FIRM_SKIP)))
  }

  /** Does the firmware carry its own checksum in one of its first ten lines? */
  predicate Genuine(file: seq<bv8>) {
    var f := FindLine(file, 10);
    f.Found? && SameIgnoringCase(HashOf(file), Copied(f.line, 0))
  }

  predicate NoNewline(line: seq<bv8>, i: nat, k: nat) {
    forall j :: i <= j <= k ==> BufferAt(line, j) != NEWLINE
  }

  lemma {:induction false} CopiedAt(line: seq<bv8>, i: nat, k: nat)
    requires i <= k < 33
    ensures Copied(line, i)[k - i] ==
            if NoNewline(line, 4 + i, 4 + k) then BufferAt(line, 4 + k) else 0
    decreases k - i
  {
    hide BufferAt;
    if BufferAt(line, 4 + i) != NEWLINE && i < k {
      CopiedAt(line, i + 1, k);
    }
  }

  /** The line matches exactly when MD5= is followed by 32 chars that are the checksum up to case, and
      these by the end of the line, its newline, or a zero. */
  lemma LineMatches(line: seq<bv8>, md5str: seq<bv8>)
    requires |md5str| == 32 && forall i :: 0 <= i < 32 ==> md5str[i] != 0 && md5str[i] != NEWLINE
    requires forall i :: 0 <= i < 32 ==> Lower(md5str[i]) == md5str[i]
    ensures SameIgnoringCase(md5str, Copied(line, 0)) <==>
            && (forall i :: 0 <= i < 32 ==> Lower(BufferAt(line, 4 + i)) == md5str[i])
            && (BufferAt(line, 36) == NEWLINE || BufferAt(line, 36) == 0)
  {
    hide Copied, BufferAt;
    var c := Copied(line, 0);
    forall k | 0 <= k < 33
      ensures c[k] == if NoNewline(line, 4, 4 + k) then BufferAt(line, 4 + k) else 0
    {
      CopiedAt(line, 0, k);
    }
    if SameIgnoringCase(md5str, c) {
      forall i | 0 <= i < 32
        ensures Lower(BufferAt(line, 4 + i)) == md5str[i]
      {
        assert Lower(c[i]) == md5str[i];
      }
      assert NoNewline(line, 4, 4 + 31) by {
        assert Lower(c[31]) == md5str[31] != 0;
      }
      assert c[32] == 0;
      if BufferAt(line, 36) != NEWLINE {
        assert NoNewline(line, 4, 36);
      }
    } else if (forall i :: 0 <= i < 32 ==> Lower(BufferAt(line, 4 + i)) == md5str[i])
              && (BufferAt(line, 36) == NEWLINE || BufferAt(line, 36) == 0) {
      assert NoNewline(line, 4, 35) by {
        forall j | 4 <= j <= 35
          ensures BufferAt(line, j) != NEWLINE
        {
          assert Lower(BufferAt(line, 4 + (j - 4))) == md5str[j - 4];
        }
      }
      forall i | 0 <= i < 32
        ensures Lower(md5str[i]) == Lower(c[i])
      {
        assert NoNewline(line, 4, 4 + i);
      }
    }
  }

  lemma {:induction false} HexChars(digest: seq<bv8>)
    ensures forall i :: 0 <= i < |Hex(digest)| ==>
              Hex(digest)[i] != 0 && Hex(digest)[i] != NEWLINE && Lower(Hex(digest)[i]) == Hex(digest)[i]
  {
    hide HexDigit, Lower;
    if digest != [] {
      HexChars(digest[1..]);
      Nibbles(digest[0]);
      DigitChar(digest[0] >> 4);
      DigitChar(digest[0] & 15);
    }
  }

  lemma Nibbles(b: bv8)
    ensures b >> 4 < 16 && b & 15 < 16
  {
  }

  lemma DigitChar(d: bv8)
    requires d < 16
    ensures HexDigit(d) != 0 && HexDigit(d) != NEWLINE && Lower(HexDigit(d)) == HexDigit(d)
  {
  }

  /** Where the call number `i` (from 0) of fgets starts reading: after all that the calls before it have
      read, each up to a newline or 510 bytes. */
  function PieceStart(file: seq<bv8>, i: nat): (p: nat)
    ensures p <= |file|
  {
    if i == 0 then 0
    else
      var p := PieceStart(file, i - 1);
      p + |Line(file[p..], FGETS_ROOM)|
  }

  function Piece(file: seq<bv8>, i: nat): seq<bv8> {
    Line(file[PieceStart(file, i)..], FGETS_ROOM)
  }

  /** fgets stops only after a newline, at the end of the file or when its room is full. */
  lemma {:induction false} LineEnds(file: seq<bv8>, room: nat)
    requires file != [] && room > 0
    ensures var line := Line(file, room);
            && line != [] && (forall i :: 0 <= i < |line| - 1 ==> line[i] != NEWLINE)
            && (line[|line| - 1] == NEWLINE || |line| == room || line == file)
    decreases room
  {
    if file[0] != NEWLINE && |file| > 1 && room > 1 {
      LineEnds(file[1..], room - 1);
    }
  }

  /** The first piece that starts with MD5=, of those a search of `count` pieces from `i` on reads. */
  predicate FirstMatch(file: seq<bv8>, i: nat, count: nat, k: nat) {
    i <= k < i + count && MD5_FLAG <= Piece(file, k) && forall j :: i <= j < k ==> !(MD5_FLAG <= Piece(file, j))
  }

  lemma PieceNext(file: seq<bv8>, i: nat)
    ensures PieceStart(file, i + 1) == PieceStart(file, i) + |Piece(file, i)|
    ensures var p, n := PieceStart(file, i), |Piece(file, i)|; file[p..][n..] == file[PieceStart(file, i + 1)..]
  {
    hide Line;
  }

  lemma PieceAtEnd(file: seq<bv8>, i: nat)
    requires PieceStart(file, i) == |file|
    ensures Piece(file, i) == []
  {
    hide PieceStart;
  }

  lemma {:induction false} NothingLeft(file: seq<bv8>, i: nat, k: nat)
    requires PieceStart(file, i) == |file| && i <= k
    ensures Piece(file, k) == [] && PieceStart(file, k) == |file|
    decreases k - i
  {
    hide PieceStart, Piece;
    if i < k {
      NothingLeft(file, i, k - 1);
      PieceNext(file, k - 1);
    }
    PieceAtEnd(file, k);
  }

  lemma NoMatch(file: seq<bv8>, i: nat, count: nat, k: nat)
    requires Piece(file, k) == []
    ensures !FirstMatch(file, i, count, k)
  {
  }

  lemma MatchInside(file: seq<bv8>, i: nat, count: nat)
    ensures forall k: nat :: FirstMatch(file, i, count, k) ==> i <= k < i + count
  {
  }

  lemma MatchHere(file: seq<bv8>, i: nat, count: nat)
    requires count > 0 && MD5_FLAG <= Piece(file, i)
    ensures forall k: nat :: FirstMatch(file, i, count, k) <==> k == i
  {
    hide Piece;
  }

  lemma MatchLater(file: seq<bv8>, i: nat, count: nat)
    requires count > 0 && !(MD5_FLAG <= Piece(file, i))
    ensures forall k: nat :: FirstMatch(file, i, count, k) <==> FirstMatch(file, i + 1, count - 1, k)
  {
    hide Piece;
  }

  /** The search finds exactly the first of the pieces that starts with MD5=. */
  lemma {:induction false} FindLineFinds(file: seq<bv8>, i: nat, count: nat)
    ensures var f := FindLine(file[PieceStart(file, i)..], count);
            && (f.Found? <==> exists k: nat :: FirstMatch(file, i, count, k))
            && (forall k: nat :: FirstMatch(file, i, count, k) ==> f == Found(Piece(file, k)))
    decreases count
  {
    hide Line, FirstMatch, PieceStart;
    MatchInside(file, i, count);
    var p := PieceStart(file, i);
    var rest := file[p..];
    if count > 0 {
      if rest == [] {
        forall k: nat | i <= k < i + count
          ensures !FirstMatch(file, i, count, k)
        {
          NothingLeft(file, i, k);
          NoMatch(file, i, count, k);
        }
      } else if MD5_FLAG <= Piece(file, i) {
        MatchHere(file, i, count);
        assert FirstMatch(file, i, count, i);
      } else {
        PieceNext(file, i);
        FindLineFinds(file, i + 1, count - 1);
        assert FindLine(rest, count) == FindLine(file[PieceStart(file, i + 1)..], count - 1);
        MatchLater(file, i, count);
        if FindLine(rest, count).Found? {
          var k: nat :| FirstMatch(file, i + 1, count - 1, k);
          assert FirstMatch(file, i, count, k);
        }
      }
    }
  }

  /** The line carries the 32 digits of `md5str`, in either case, ended by its newline or by a zero. */
  predicate CarriesDigits(line: seq<bv8>, md5str: seq<bv8>)
    requires |md5str| == 32
  {
    && (forall i :: 0 <= i < 32 ==> Lower(BufferAt(line, 4 + i)) == md5str[i])
    && (BufferAt(line, 36) == NEWLINE || BufferAt(line, 36) == 0)
  }

  /** The firmware is genuine exactly when one of the first ten pieces that fgets reads of it starts with
      MD5=, and the first such piece goes on with the 32 digits of the MD5 of the file past its first
      64 KB. */
  lemma GenuineIff(file: seq<bv8>)
    ensures Genuine(file) <==> exists k: nat :: FirstMatch(file, 0, 10, k) && CarriesDigits(Piece(file, k), HashOf(file))
  {
    hide FindLine, Md5.Digest, Md5.Past, Hex, Copied, BufferAt, SameIgnoringCase, Lower, Line, FirstMatch;
    FindLineFinds(file, 0, 10);
    assert file[0..] == file;
    var f := FindLine(file, 10);
    if f.Found? {
      HexChars(Md5.Digest(Md5.Past(file, SYS_FIRM_SKIP)));
      LineMatches(f.line, HashOf(file));
      var k: nat :| FirstMatch(file, 0, 10, k);
      assert f.line == Piece(file, k);
    }
  }

  /** A piece need not be a line: 510 bytes without a newline make one, and MD5= right behind them is found
      although no line starts there. */
  lemma LongLineIsCut(tail: seq<bv8>)
    ensures var file := seq(FGETS_ROOM, _ => 0x41) + MD5_FLAG + tail;
            && PieceStart(file, 1) == FGETS_ROOM && (forall i :: 0 <= i < FGETS_ROOM ==> file[i] != NEWLINE)
            && FirstMatch(file, 0, 10, 1) && FindLine(file, 10).Found?
  {
    hide Line, FindLine, PieceStart;
    var file := seq(FGETS_ROOM, _ => 0x41 as bv8) + MD5_FLAG + tail;
    LongPiece(file);
    FlagPiece(file, 1);
    assert Piece(file, 0)[0] == file[..FGETS_ROOM][0] == file[0] == 0x41;
    assert FirstMatch(file, 0, 10, 1);
    FindLineFinds(file, 0, 10);
    PieceZero(file);
  }

  lemma PieceZero(file: seq<bv8>)
    ensures PieceStart(file, 0) == 0 && file[0..] == file
  {
  }

  /** A full room without a newline is a piece. */
  lemma LongPiece(file: seq<bv8>)
    requires |file| >= FGETS_ROOM && forall i :: 0 <= i < FGETS_ROOM ==> file[i] != NEWLINE
    ensures Piece(file, 0) == file[..FGETS_ROOM] && PieceStart(file, 1) == FGETS_ROOM
  {
    hide Line;
    FirstPiece(file);
    LongLine(file);
  }

  lemma FirstPiece(file: seq<bv8>)
    ensures Piece(file, 0) == Line(file, FGETS_ROOM) && PieceStart(file, 1) == |Line(file, FGETS_ROOM)|
  {
    hide Line;
    assert PieceStart(file, 0) == 0 && file[0..] == file;
  }

  lemma LongLine(file: seq<bv8>)
    requires |file| >= FGETS_ROOM && forall i :: 0 <= i < FGETS_ROOM ==> file[i] != NEWLINE
    ensures Line(file, FGETS_ROOM) == file[..FGETS_ROOM]
  {
    hide Line;
    LineEnds(file, FGETS_ROOM);
    var line := Line(file, FGETS_ROOM);
    assert line[|line| - 1] == file[|line| - 1];
    assert |line| == FGETS_ROOM;
  }

  lemma FlagPiece(file: seq<bv8>, i: nat)
    requires MD5_FLAG <= file[PieceStart(file, i)..]
    ensures MD5_FLAG <= Piece(file, i)
  {
    hide Line, PieceStart;
    var rest := file[PieceStart(file, i)..];
    LineEnds(rest, FGETS_ROOM);
    var line := Line(rest, FGETS_ROOM);
    assert line[|line| - 1] == rest[|line| - 1];
    assert forall k :: 0 <= k < 4 ==> rest[k] == MD5_FLAG[k] != NEWLINE;
  }

  // ----- The machine

  /** The static descriptor (`held`: not -1), whether the kernel still has it open, the staged file, how
      often the upgrade script was started, and the write results to come. */
  datatype State = State(held: bool, open: bool, staged: seq<bv8>, launches: nat, calls: seq<WriteCall>)

  /** Start carries the result of open(), End those of opening and reading the file for the hash. */
  datatype Command = Start(opens: bool) | Data(payload: seq<bv8>) | End(reading: Md5.Reads) | Unknown

  datatype Outcome = Outcome(s: State, status: Status)

  /** The check of upgradeFirmware: the hash can be read, and the file is genuine. */
  predicate Passes(staged: seq<bv8>, reading: Md5.Reads) {
    Md5.CanRead(|Md5.Past(staged, SYS_FIRM_SKIP)|, reading) && Genuine(staged)
  }

  /** usFirmware_FirmwareUP. A failed write closes the descriptor but keeps holding it, so that later
      writes fail too. */
  function FirmwareUp(s: State, c: Command): Outcome {
    match c
    case Start(opens) =>
      if opens then Outcome(s.(held := true, open := true, staged := []), Ok)
      else Outcome(s.(held := false, open := false), FirmErr)
    case Data(payload) =>
      if payload == [] || !s.held then Outcome(s, FirmArg)
      else if !s.open then Outcome(s, FirmErr)
      else
        var w := Write(s.calls, payload);
        Outcome(s.(open := w.ok, staged := s.staged + w.done, calls := w.rest), if w.ok then Ok else FirmErr)
    case End(reading) =>
      var closed := s.(held := false, open := false);
      if Passes(s.staged, reading)
      then Outcome(closed.(launches := s.launches + 1), Ok)
      else Outcome(closed, FirmCrc)
    case Unknown => Outcome(s, FirmArg)
  }

  /** A run of commands, with the status of each. */
  datatype Ran = Ran(s: State, statuses: seq<Status>)

  function Run(s: State, cs: seq<Command>): Ran
    decreases |cs|
  {
    if cs == [] then Ran(s, [])
    else
      var o := FirmwareUp(s, cs[0]);
      var r := Run(o.s, cs[1..]);
      Ran(r.s, [o.status] + r.statuses)
  }

  /** What is staged since the last successful START, if the commands were all Data. */
  function Payloads(cs: seq<Command>): seq<bv8>
    decreases |cs|
  {
    if cs == [] then [] else (if cs[0].Data? then cs[0].payload else []) + Payloads(cs[1..])
  }

  predicate AllOk(statuses: seq<Status>) {
    forall i :: 0 <= i < |statuses| ==> statuses[i] == Ok
  }

  predicate AllData(cs: seq<Command>) {
    forall i :: 0 <= i < |cs| ==> cs[i].Data?
  }

  lemma {:induction false} DataAppends(s: State, cs: seq<Command>)
    requires AllData(cs) && AllOk(Run(s, cs).statuses)
    ensures Run(s, cs).s.staged == s.staged + Payloads(cs)
    decreases |cs|
  {
    hide Write;
    if cs == [] {
      assert s.staged + [] == s.staged;
    } else {
      var o := FirmwareUp(s, cs[0]);
      var r := Run(o.s, cs[1..]);
      assert Run(s, cs).statuses == [o.status] + r.statuses;
      assert o.status == Run(s, cs).statuses[0] == Ok;
      assert forall i :: 0 <= i < |r.statuses| ==> r.statuses[i] == Run(s, cs).statuses[i + 1];
      WriteDelivers(s.calls, cs[0].payload);
      DataAppends(o.s, cs[1..]);
      assert s.staged + (cs[0].payload + Payloads(cs[1..])) == (s.staged + cs[0].payload) + Payloads(cs[1..]);
    }
  }

  /** In any run, whatever came before and however the writes are cut: if START, the DATA commands after
      it and END all return OK, the staged file is the concatenation of the payloads, it carries its
      own checksum, and the upgrade script was started exactly once more. */
  lemma UpgradeStagesPayloads(s: State, cs: seq<Command>, reading: Md5.Reads)
    requires AllData(cs)
    requires FirmwareUp(s, Start(true)).status == Ok
    requires var r := Run(FirmwareUp(s, Start(true)).s, cs);
             AllOk(r.statuses) && FirmwareUp(r.s, End(reading)).status == Ok
    ensures var t := FirmwareUp(Run(FirmwareUp(s, Start(true)).s, cs).s, End(reading)).s;
            t.staged == Payloads(cs) && Genuine(Payloads(cs)) && t.launches == s.launches + 1 && !t.held
  {
    hide Genuine;
    var s1 := FirmwareUp(s, Start(true)).s;
    DataAppends(s1, cs);
    assert s1.staged + Payloads(cs) == Payloads(cs);
    DataKeepsLaunches(s1, cs);
  }

  lemma {:induction false} DataKeepsLaunches(s: State, cs: seq<Command>)
    requires AllData(cs)
    ensures Run(s, cs).s.launches == s.launches
    decreases |cs|
  {
    hide Write;
    if cs != [] {
      DataKeepsLaunches(FirmwareUp(s, cs[0]).s, cs[1..]);
    }
  }

  /** When a command succeeds, from every state: START exactly when the file can be opened, and it then
      holds an open, empty one, whatever it held before; DATA exactly when it has a payload, the
      descriptor is held and open, and the writes get through all of it; END exactly when the check
      passes. */
  lemma CommandOkIff(s: State, c: Command)
    ensures var o := FirmwareUp(s, c);
            match c
            case Start(opens) =>
              && (o.status == Ok <==> opens)
              && (opens ==> o.s == s.(held := true, open := true, staged := []))
            case Data(payload) =>
              o.status == Ok <==>
              payload != [] && s.held && s.open && exists k: nat :: Through(s.calls, |payload|, k)
            case End(reading) => o.status == Ok <==> Passes(s.staged, reading)
            case Unknown => o == Outcome(s, FirmArg)
  {
    hide Write, Genuine, Through;
    if c.Data? && c.payload != [] {
      WriteOkIff(s.calls, c.payload);
    }
  }

  /** A run of DATA commands over a working schedule succeeds, command by command. */
  lemma {:induction false} DataSucceeds(s: State, cs: seq<Command>, n: int)
    requires AllData(cs) && (forall i :: 0 <= i < |cs| ==> cs[i].payload != [])
    requires s.held && s.open && WritesWork(s.calls, n) && n >= |Payloads(cs)|
    ensures var r := Run(s, cs); |r.statuses| == |cs| && AllOk(r.statuses) && r.s.held && r.s.open
    decreases |cs|
  {
    hide Write, WritesWork;
    if cs != [] {
      var o := FirmwareUp(s, cs[0]);
      WriteWorks(s.calls, cs[0].payload, n);
      DataSucceeds(o.s, cs[1..], n - |cs[0].payload|);
      assert Run(s, cs).statuses == [o.status] + Run(o.s, cs[1..]).statuses;
    }
  }

  /** The other half: from every state, over a file that opens and writes that work, START and every DATA
      after it return OK, and END does exactly when the concatenation of the payloads can be read back
      and is genuine, so over reads that work if it is genuine; the upgrade script is then started. */
  lemma UpgradeSucceeds(s: State, cs: seq<Command>, reading: Md5.Reads)
    requires AllData(cs) && (forall i :: 0 <= i < |cs| ==> cs[i].payload != [])
    requires WritesWork(s.calls, |Payloads(cs)|)
    ensures var o := FirmwareUp(s, Start(true));
            var r := Run(o.s, cs);
            var e := FirmwareUp(r.s, End(reading));
            && o.status == Ok && |r.statuses| == |cs| && AllOk(r.statuses) && r.s.staged == Payloads(cs)
            && (e.status == Ok <==> Passes(Payloads(cs), reading))
            && (reading.opens && (forall c :: c in reading.calls ==> c.Brings?) ==>
                  (e.status == Ok <==> Genuine(Payloads(cs))))
            && (e.status == Ok ==> e.s.launches == s.launches + 1)
  {
    hide Write, WritesWork, Genuine, Md5.ReadsThrough;
    Md5.ReadsThroughIff(|Md5.Past(Payloads(cs), SYS_FIRM_SKIP)|, reading.calls);
    var o := FirmwareUp(s, Start(true));
    DataSucceeds(o.s, cs, |Payloads(cs)|);
    DataAppends(o.s, cs);
    assert [] + Payloads(cs) == Payloads(cs);
    DataKeepsLaunches(o.s, cs);
  }

  predicate Starts(c: Command) {
    c.Start? && c.opens
  }

  /** Outside an upgrade nothing is staged: from any state without a descriptor, before the first START or
      after an END, no run of commands without a successful START changes the file, whatever DATA, END
      and unknown commands it is made of, and every DATA in it is refused. */
  lemma {:induction false} OutsideUpgrade(s: State, cs: seq<Command>)
    requires !s.held && forall i :: 0 <= i < |cs| ==> !Starts(cs[i])
    ensures var r := Run(s, cs);
            && r.s.staged == s.staged && !r.s.held && r.s.calls == s.calls && |r.statuses| == |cs|
            && forall i :: 0 <= i < |cs| && cs[i].Data? ==> r.statuses[i] == FirmArg
    decreases |cs|
  {
    hide Genuine;
    if cs != [] {
      OutsideUpgrade(FirmwareUp(s, cs[0]).s, cs[1..]);
      var more := Run(FirmwareUp(s, cs[0]).s, cs[1..]).statuses;
      assert forall i :: 1 <= i < |cs| ==> cs[i] == cs[1..][i - 1] && Run(s, cs).statuses[i] == more[i - 1];
    }
  }

  /** The same after an END that returned anything, from any state. */
  lemma AfterEnd(s: State, reading: Md5.Reads, cs: seq<Command>)
    requires forall i :: 0 <= i < |cs| ==> !Starts(cs[i])
    ensures Run(FirmwareUp(s, End(reading)).s, cs).s.staged == s.staged
  {
    hide Genuine;
    OutsideUpgrade(FirmwareUp(s, End(reading)).s, cs);
  }

  /** The staged file holds a prefix of what was sent: once a write has failed, every DATA fails and the
      file stays as it is until the next START. */
  lemma {:induction false} FailureSticks(s: State, cs: seq<Command>)
    requires s.held && !s.open && AllData(cs)
    ensures Run(s, cs).s == s && |Run(s, cs).statuses| == |cs|
    ensures forall i :: 0 <= i < |cs| ==> Run(s, cs).statuses[i] != Ok
    decreases |cs|
  {
    hide Write;
    if cs != [] {
      FailureSticks(s, cs[1..]);
    }
  }

  /** Command `i` of the run is an END that finds, in the file staged by the commands before it, a genuine
      firmware it can read. */
  predicate Approves(s: State, cs: seq<Command>, i: nat)
    requires i < |cs|
  {
    cs[i].End? && Passes(Run(s, cs[..i]).s.staged, cs[i].reading)
  }

  /** How many of the first `n` commands do. */
  function Approvals(s: State, cs: seq<Command>, n: nat): nat
    requires n <= |cs|
  {
    if n == 0 then 0 else Approvals(s, cs, n - 1) + if Approves(s, cs, n - 1) then 1 else 0
  }

  lemma {:induction false} RunOneMore(s: State, cs: seq<Command>, c: Command)
    ensures Run(s, cs + [c]).s == FirmwareUp(Run(s, cs).s, c).s
    decreases |cs|
  {
    hide FirmwareUp;
    if cs == [] {
      assert [c][1..] == [];
    } else {
      assert (cs + [c])[0] == cs[0] && (cs + [c])[1..] == cs[1..] + [c];
      RunOneMore(FirmwareUp(s, cs[0]).s, cs[1..], c);
    }
  }

  /** In any run the upgrade script is started once for each END that finds a genuine firmware staged at
      that point, and by nothing else. */
  lemma {:induction false} LaunchesCounted(s: State, cs: seq<Command>, n: nat)
    requires n <= |cs|
    ensures Run(s, cs[..n]).s.launches == s.launches + Approvals(s, cs, n)
    decreases n
  {
    hide Passes, Write;
    if n > 0 {
      LaunchesCounted(s, cs, n - 1);
      assert cs[..n] == cs[..n - 1] + [cs[n - 1]];
      RunOneMore(s, cs[..n - 1], cs[n - 1]);
    }
  }

  // ----- In the program's own form

  lemma WriteTurn(calls: seq<WriteCall>, payload: seq<bv8>, already: nat)
    requires already < |payload| && calls != []
    ensures var w := Write(calls, payload[already..]);
            match calls[0]
            case Failed => w == Written(false, calls[1..], [])
            case Interrupted => w == Write(calls[1..], payload[already..])
            case Wrote(n) =>
              var res := Base.Min(n, |payload| - already);
              if already + res == |payload| then w == Written(true, calls[1..], payload[already..already + res])
              else
                var more := Write(calls[1..], payload[already + res..]);
                w == Written(more.ok, more.rest, payload[already..already + res] + more.done)
  {
    if calls[0].Wrote? {
      var res := Base.Min(calls[0].n, |payload| - already);
      assert payload[already..][..res] == payload[already..already + res];
      assert payload[already..][res..] == payload[already + res..];
    }
  }

  lemma NoCalls(data: seq<bv8>)
    ensures Write([], data) == Written(false, [], [])
  {
  }

  lemma Regroup(a: seq<bv8>, b: seq<bv8>, c: seq<bv8>)
    ensures (a + b) + c == a + (b + c)
  {
  }

  class Upgrader {
    /** static int fd, as held (not -1) and as the kernel sees it. */
    var held: bool
    var open: bool
    var staged: seq<bv8>
    var launches: nat
    var calls: seq<WriteCall>

    function Snap(): State
      reads this
    {
      State(held, open, staged, launches, calls)
    }

    constructor (calls: seq<WriteCall>)
      ensures Snap() == State(false, false, [], 0, calls)
    {
      held, open, staged, launches := false, false, [], 0;
      this.calls := calls;
    }

    /** writeFirmware, with the descriptor open. */
    method WriteFirmware(payload: seq<bv8>) returns (ok: bool)
      requires payload != []
      modifies this
      ensures var w := Write(old(calls), payload);
              && ok == w.ok && calls == w.rest && staged == old(staged) + w.done
              && open == (if ok then old(open) else false) && held == old(held) && launches == old(launches)
    {
      hide Write;
      ghost var goal := Write(calls, payload);
      var already := 0;
      assert payload[0..] == payload;
      while true
        invariant 0 <= already < |payload| && held == old(held) && open == old(open) && launches == old(launches)
        invariant var w := Write(calls, payload[already..]);
                  w.ok == goal.ok && w.rest == goal.rest && staged + w.done == old(staged) + goal.done
        decreases |calls|
      {
        if calls == [] {
          NoCalls(payload[already..]);
          assert staged + [] == staged;
          open := false;
          return false;
        }
        WriteTurn(calls, payload, already);
        var call := calls[0];
        calls := calls[1..];
        match call {
          case Interrupted =>
          case Failed =>
            assert staged + [] == staged;
            open := false;
            return false;
          case Wrote(n) =>
            var res := Base.Min(n, |payload| - already);
            ghost var more := Write(calls, payload[already + res..]).done;
            Regroup(staged, payload[already..already + res], more);
            staged := staged + payload[already..already + res];
            already := already + res;
            if already == |payload| {
              return true;
            }
        }
      }
    }

  /** usFirmware_FirmwareUP. */
    method Execute(c: Command) returns (status: Status)
      requires c.End? ==> forall r :: r in c.reading.calls && r.Brings? ==> 0 < r.n <= 16 * 1024
      modifies this
      ensures var o := FirmwareUp(old(Snap()), c); Snap() == o.s && status == o.status
    {
      hide Write, Genuine, Md5.CanRead;
      match c {
        case Start(opens) =>
          if !opens {
            held, open := false, false;
            return FirmErr;
          }
          held, open, staged := true, true, [];
        case Data(payload) =>
          if payload == [] || !held {
            return FirmArg;
          }
          if !open {
            return FirmErr;
          }
          var ok := WriteFirmware(payload);
          if !ok {
            return FirmErr;
          }
        case End(reading) =>
          held, open := false, false;
          var ok := UpgradeFirmware(staged, reading);
          if !ok {
            return FirmCrc;
          }
          launches := launches + 1;
        case Unknown => return FirmArg;
      }
      status := Ok;
    }
  }

  /** The search loop of upgradeFirmware. */
  method SearchLine(file: seq<bv8>) returns (f: Found)
    ensures f == FindLine(file, 10)
  {
    hide Line;
    var rest, i := file, 0;
    while i < 10
      invariant 0 <= i <= 10 && FindLine(rest, 10 - i) == FindLine(file, 10)
    {
      if rest == [] {
        return NotFound;
      }
      var line := Line(rest, FGETS_ROOM);
      if MD5_FLAG <= line {
        return Found(line);
      }
      rest := rest[|line|..];
      i := i + 1;
    }
    return NotFound;
  }

  /** The check of upgradeFirmware: true where it goes on to start the upgrade script. */
  method UpgradeFirmware(file: seq<bv8>, reading: Md5.Reads) returns (ok: bool)
    requires forall r :: r in reading.calls && r.Brings? ==> 0 < r.n <= 16 * 1024
    ensures ok == Passes(file, reading)
  {
    hide Md5.CanRead, Md5.Digest, SameIgnoringCase, Hex, FindLine, Copied;
    var digest;
    ok, digest := Md5.ComputeMd5(file, SYS_FIRM_SKIP, reading);
    if !ok {
      return;
    }
    var md5str := Hex(digest);
    var f := SearchLine(file);
    if f.NotFound? {
      return false;
    }
    var md5cmp := CopyField(f.line);
    ok := SameIgnoringCase(md5str, md5cmp);
  }

  /** The copying loop of upgradeFirmware. */
  method CopyField(line: seq<bv8>) returns (md5cmp: seq<bv8>)
    ensures md5cmp == Copied(line, 0)
  {
    hide BufferAt, Copied;
    var cmp := new bv8[33](_ => 0);
    var i := 0;
    while i < 33 && BufferAt(line, 4 + i) != NEWLINE
      invariant 0 <= i <= 33 && cmp[..i] + Copied(line, i) == Copied(line, 0)
      invariant forall k :: i <= k < 33 ==> cmp[k] == 0
    {
      CopiedStep(line, i);
      AppendOne(cmp[..i], BufferAt(line, 4 + i), Copied(line, i + 1));
      cmp[i] := BufferAt(line, 4 + i);
      assert cmp[..i + 1] == cmp[..i] + [BufferAt(line, 4 + i)];
      i := i + 1;
    }
    CopiedStep(line, i);
    assert cmp[i..] == seq(33 - i, _ => 0);
    md5cmp := cmp[..];
    assert md5cmp == cmp[..i] + cmp[i..];
  }

  lemma CopiedStep(line: seq<bv8>, i: nat)
    requires i <= 33
    ensures if i == 33 || BufferAt(line, 4 + i) == NEWLINE then Copied(line, i) == seq(33 - i, _ => 0)
            else Copied(line, i) == [BufferAt(line, 4 + i)] + Copied(line, i + 1)
  {
  }

  lemma AppendOne(a: seq<bv8>, x: bv8, b: seq<bv8>)
    ensures a + ([x] + b) == (a + [x]) + b
  {
  }
}
