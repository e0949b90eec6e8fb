/** diskm/libblkid-tiny.c: volume labels from UTF-16 to bounded UTF-8, and the trimming of their end. */
module Label {
  import opened Base

  const TWO64: nat := 0x1_0000_0000_0000_0000
  const LABEL_SIZE: nat := 64

  // ----- Encoding

  /** The 16-bit unit at src[i]. */
  function Unit(le: bool, src: seq<byte>, i: nat): u16
    requires i + 2 <= |src|
  {
    if le then (src[i + 1] as int) * 0x100 + src[i] else (src[i] as int) * 0x100 + src[i + 1]
  }

  function Units(le: bool, src: seq<byte>): (us: seq<u16>)
    ensures |us| == |src| / 2
    ensures forall k :: 0 <= k < |us| ==> us[k] == Unit(le, src, 2 * k)
    decreases |src|
  {
    if |src| < 2 then []
    else
      var us := [Unit(le, src, 0)] + Units(le, src[2..]);
      assert forall k :: 1 <= k < |us| ==> us[k] == Units(le, src[2..])[k - 1] == Unit(le, src[2..], 2 * (k - 1));
      us
  }

  // The stored bytes. The or of the program joins disjoint bits, as in the unit itself, and is written as
  // a sum; its shifts and masks are quotients and remainders.

  function Lead2(c: u16): byte
    requires c < 0x800
  {
    0xc0 + c / 0x40
  }

  function Lead3(c: u16): byte {
    0xe0 + c / 0x1000
  }

  function Middle(c: u16): byte {
    0x80 + c / 0x40 % 0x40
  }

  function Final(c: u16): byte {
    0x80 + c % 0x40
  }

  /** The bytes stored for a unit that is not zero. */
  function Utf8(c: u16): (bytes: seq<byte>)
    ensures 1 <= |bytes| <= 3
  {
    if c < 0x80 then [c]
    else if c < 0x800 then [Lead2(c), Final(c)]
    else [Lead3(c), Middle(c), Final(c)]
  }

  function Encoded(us: seq<u16>): seq<byte> {
    if us == [] then [] else Utf8(us[0]) + Encoded(us[1..])
  }

  predicate NoZero(us: seq<u16>) {
    forall k :: 0 <= k < |us| ==> us[k] != 0
  }

  /** The units that are encoded when there is room for `room` bytes. */
  function Fitting(us: seq<u16>, room: nat): (r: seq<u16>)
    ensures r <= us && NoZero(r) && |Encoded(r)| <= room
    decreases |us|
  {
    if us == [] || us[0] == 0 || |Utf8(us[0])| > room then []
    else
      var rest := Fitting(us[1..], room - |Utf8(us[0])|);
      assert ([us[0]] + rest)[1..] == rest;
      [us[0]] + rest
  }

  /** They are the longest prefix that stops before the first zero unit and fits. */
  lemma {:induction false} FittingIsLongest(us: seq<u16>, room: nat, k: nat)
    requires k <= |us| && NoZero(us[..k]) && |Encoded(us[..k])| <= room
    ensures k <= |Fitting(us, room)|
    decreases |us|
  {
    hide Utf8;
    if k > 0 {
      assert us[..k][0] == us[0] && us[..k][1..] == us[1..][..k - 1];
      FittingIsLongest(us[1..], room - |Utf8(us[0])|, k - 1);
    }
  }

  /** How a volume stores a label: each unit low byte first, or high byte first. */
  function Utf16(le: bool, us: seq<u16>): (src: seq<byte>)
    ensures |src| == 2 * |us|
  {
    if us == [] then []
    else
      var low, high := us[0] % 0x100, us[0] / 0x100;
      (if le then [low, high] else [high, low]) + Utf16(le, us[1..])
  }

  /** The units of a stored label are read back, and a byte left over is none. */
  lemma {:induction false} UnitsReadBack(le: bool, us: seq<u16>, odd: seq<byte>)
    requires |odd| <= 1
    ensures Units(le, Utf16(le, us) + odd) == us
  {
    var src := Utf16(le, us) + odd;
    if us != [] {
      assert src[2..] == Utf16(le, us[1..]) + odd;
      UnitsReadBack(le, us[1..], odd);
      assert Unit(le, src, 0) == us[0];
    }
  }

  lemma StopsAtZero(f: seq<u16>, s: seq<u16>, n: nat)
    requires f <= s && NoZero(f) && n < |s| && s[n] == 0
    ensures |f| <= n
  {
  }

  /** A label that fits and has no zero unit comes out whole; what follows its first zero unit does not
      matter. */
  lemma ShortLabelIsWhole(le: bool, us: seq<u16>, junk: seq<u16>, room: nat)
    requires NoZero(us) && |Encoded(us)| <= room
    ensures Fitting(Units(le, Utf16(le, us)), room) == us
    ensures Fitting(Units(le, Utf16(le, us + [0] + junk)), room) == us
  {
    hide Units, Utf8, Encoded, Fitting;
    assert Utf16(le, us) + [] == Utf16(le, us) && Utf16(le, us + [0] + junk) + [] == Utf16(le, us + [0] + junk);
    UnitsReadBack(le, us, []);
    UnitsReadBack(le, us + [0] + junk, []);
    assert us[..|us|] == us && (us + [0] + junk)[..|us|] == us;
    FittingIsLongest(us, room, |us|);
    FittingIsLongest(us + [0] + junk, room, |us|);
    StopsAtZero(Fitting(us + [0] + junk, room), us + [0] + junk, |us|);
  }

  // ----- What the bytes mean

  predicate Tail(b: byte) {
    0x80 <= b <= 0xbf
  }

  /** The unit that one to three bytes stand for. */
  function Pair(a: byte, b: byte): u16 {
    a % 0x20 * 0x40 + b % 0x40
  }

  function Triple(a: byte, b: byte, c: byte): u16 {
    a % 0x10 * 0x1000 + b % 0x40 * 0x40 + c % 0x40
  }

  /** How many bytes the character at the start takes, by its first byte. */
  function Width(lead: byte): (n: nat)
    ensures 1 <= n <= 3
  {
    if lead < 0x80 then 1 else if lead < 0xe0 then 2 else 3
  }

  datatype Decoding = Bad | Good(us: seq<u16>)

  function Decode(bytes: seq<byte>): Decoding
    decreases |bytes|
  {
    if bytes == [] then Good([])
    else
      var n := Width(bytes[0]);
      if |bytes| < n then Bad
      else match Decode(bytes[n..])
        case Bad => Bad
        case Good(rest) =>
          Good([if n == 1 then bytes[0]
                else if n == 2 then Pair(bytes[0], bytes[1])
                else Triple(bytes[0], bytes[1], bytes[2])] + rest)
  }

  /** Section 4 of RFC 3629 for characters of up to three bytes. */
  predicate ValidUtf8(bytes: seq<byte>)
    decreases |bytes|
  {
    if bytes == [] then true
    else if bytes[0] <= 0x7f then ValidUtf8(bytes[1..])
    else if 0xc2 <= bytes[0] <= 0xdf then |bytes| >= 2 && Tail(bytes[1]) && ValidUtf8(bytes[2..])
    else
      && 0xe0 <= bytes[0] <= 0xef && |bytes| >= 3 && Tail(bytes[1]) && Tail(bytes[2])
      && (bytes[0] == 0xe0 ==> 0xa0 <= bytes[1]) && (bytes[0] == 0xed ==> bytes[1] <= 0x9f)
      && ValidUtf8(bytes[3..])
  }

  predicate Surrogate(c: u16) {
    0xd800 <= c <= 0xdfff
  }

  lemma OneByte(c: u16)
    requires c < 0x80
    ensures var b := c; b <= 0x7f && b == c && (c != 0 ==> b != 0)
  {
  }

  lemma TwoBytes(c: u16)
    requires 0x80 <= c < 0x800
    ensures var a, b := Lead2(c), Final(c);
            0xc2 <= a <= 0xdf && Tail(b) && Pair(a, b) == c
  {
  }

  lemma ThreeBytes(c: u16)
    requires 0x800 <= c
    ensures var a, b, d := Lead3(c), Middle(c), Final(c);
            && 0xe0 <= a <= 0xef && Tail(b) && Tail(d) && Triple(a, b, d) == c
            && (a == 0xe0 ==> 0xa0 <= b) && ((a == 0xed && b > 0x9f) <==> Surrogate(c))
  {
    var q := c / 0x40;
    Sixteen(c, q, q / 0x40, q % 0x40, c % 0x40);
  }

  /** The same with the digits named. */
  lemma Sixteen(c: u16, q: nat, h: nat, m: nat, l: nat)
    requires 0x800 <= c == q * 0x40 + l && q == h * 0x40 + m && m < 0x40 && l < 0x40
    requires q == c / 0x40 && h == q / 0x40 && m == q % 0x40 && l == c % 0x40
    ensures var a, b, d := Lead3(c), Middle(c), Final(c);
            && 0xe0 <= a <= 0xef && Tail(b) && Tail(d) && Triple(a, b, d) == c
            && (a == 0xe0 ==> 0xa0 <= b) && ((a == 0xed && b > 0x9f) <==> Surrogate(c))
  {
    assert c / 0x1000 == h;
    assert h < 16;
    assert (0xe0 + h) % 0x10 == h && (0x80 + m) % 0x40 == m && (0x80 + l) % 0x40 == l;
  }

  /** One character in front. */
  lemma CharacterFirst(c: u16, rest: seq<byte>)
    requires c != 0
    ensures Decode(Utf8(c) + rest) == match Decode(rest) case Bad => Bad case Good(us) => Good([c] + us)
    ensures ValidUtf8(Utf8(c) + rest) <==> !Surrogate(c) && ValidUtf8(rest)
    ensures forall k :: 0 <= k < |Utf8(c)| ==> Utf8(c)[k] != 0
    ensures var last := Utf8(c)[|Utf8(c)| - 1]; if c < 0x80 then Utf8(c) == [c] else Tail(last)
  {
    hide Pair, Triple;
    var bytes := Utf8(c) + rest;
    assert bytes[|Utf8(c)|..] == rest;
    if c < 0x80 {
      OneByte(c);
    } else if c < 0x800 {
      TwoBytes(c);
    } else {
      ThreeBytes(c);
    }
  }

  /** The output decodes back to the units it was made from. */
  lemma {:induction false} DecodesBack(us: seq<u16>)
    requires NoZero(us)
    ensures Decode(Encoded(us)) == Good(us)
  {
    hide Utf8;
    if us != [] {
      CharacterFirst(us[0], Encoded(us[1..]));
      DecodesBack(us[1..]);
    }
  }

  /** The output is valid UTF-8 exactly when no unit is a surrogate (the encoder does not pair them). */
  lemma {:induction false} ValidIff(us: seq<u16>)
    requires NoZero(us)
    ensures ValidUtf8(Encoded(us)) <==> forall k :: 0 <= k < |us| ==> !Surrogate(us[k])
  {
    hide Utf8, Surrogate;
    if us != [] {
      CharacterFirst(us[0], Encoded(us[1..]));
      ValidIff(us[1..]);
      assert forall k :: 1 <= k < |us| ==> us[k] == us[1..][k - 1];
    }
  }

  lemma {:induction false} NoZeroBytes(us: seq<u16>)
    requires NoZero(us)
    ensures forall k :: 0 <= k < |Encoded(us)| ==> Encoded(us)[k] != 0
  {
    hide Utf8;
    if us != [] {
      CharacterFirst(us[0], Encoded(us[1..]));
      NoZeroBytes(us[1..]);
    }
  }

  lemma {:induction false} EncodedOneMore(us: seq<u16>, c: u16)
    ensures Encoded(us + [c]) == Encoded(us) + Utf8(c)
  {
    hide Utf8;
    if us == [] {
      assert [c][1..] == [] && ([] + [c]) == [c];
    } else {
      EncodedOneMore(us[1..], c);
      assert (us + [c])[1..] == us[1..] + [c];
    }
  }

  // ----- Trimming

  /** isspace in the C locale. */
  predicate IsSpace(b: byte) {
    b == 0x20 || 0x09 <= b <= 0x0d
  }

  function Trim(s: seq<byte>): (r: seq<byte>)
    ensures r <= s
    decreases |s|
  {
    if s == [] || !IsSpace(s[|s| - 1]) then s else Trim(s[..|s| - 1])
  }

  /** Exactly the longest prefix that does not end in whitespace: only whitespace is cut off, and all. */
  lemma {:induction false} TrimIsLongest(s: seq<byte>)
    ensures Trim(s) == [] || !IsSpace(Trim(s)[|Trim(s)| - 1])
    ensures forall k :: |Trim(s)| <= k < |s| ==> IsSpace(s[k])
    decreases |s|
  {
    if s != [] && IsSpace(s[|s| - 1]) {
      TrimIsLongest(s[..|s| - 1]);
    }
  }

  predicate SpaceUnit(c: u16) {
    c == 0x20 || 0x09 <= c <= 0x0d
  }

  function TrimUnits(us: seq<u16>): (r: seq<u16>)
    ensures r <= us
    decreases |us|
  {
    if us == [] || !SpaceUnit(us[|us| - 1]) then us else TrimUnits(us[..|us| - 1])
  }

  lemma SpaceInBoth(c: u16)
    requires c != 0
    ensures var u := Utf8(c); (SpaceUnit(c) <==> IsSpace(u[|u| - 1])) && (SpaceUnit(c) ==> |u| == 1)
  {
    CharacterFirst(c, []);
  }

  /** Trimming bytes trims whole characters: no character is cut in two. */
  lemma {:induction false} TrimCutsCharacters(us: seq<u16>)
    requires NoZero(us)
    ensures Trim(Encoded(us)) == Encoded(TrimUnits(us))
    decreases |us|
  {
    hide Utf8, Encoded, IsSpace, SpaceUnit;
    EncodedNothing();
    if us != [] {
      var front, c := us[..|us| - 1], us[|us| - 1];
      assert front + [c] == us;
      EncodedOneMore(front, c);
      SpaceInBoth(c);
      if SpaceUnit(c) {
        assert Encoded(us)[..|Encoded(us)| - 1] == Encoded(front);
        TrimCutsCharacters(front);
      }
    }
  }

  // ----- In the program's own form

  /** The chain of tests in the loop of blkid_encode_to_utf8, for a unit that is not zero. */
  method PutUnit(dest: array<byte>, j: nat, c: u16) returns (fits: bool, next: nat)
    requires j < dest.Length && c != 0
    modifies dest
    ensures fits == (j + |Utf8(c)| < dest.Length)
    ensures next == if fits then j + |Utf8(c)| else j
    ensures dest[..] == if fits then Overlay(old(dest[..]), j, Utf8(c)) else old(dest[..])
  {
    hide Lead2, Lead3, Middle, Final, Overlay;
    var len := dest.Length;
    ghost var was := dest[..];
    next := j;
    if c < 0x80 {
      if j + 1 >= len {
        return false, j;
      }
      OverlayOne(was, j, c);
      dest[j] := c;
      next := j + 1;
    } else if c < 0x800 {
      if j + 2 >= len {
        return false, j;
      }
      assert [Lead2(c)] + [Final(c)] == Utf8(c);
      OverlayMore(was, j, [Lead2(c)], Final(c));
      OverlayOne(was, j, Lead2(c));
      dest[j] := Lead2(c);
      dest[j + 1] := Final(c);
      next := j + 2;
    } else {
      if j + 3 >= len {
        return false, j;
      }
      assert [Lead3(c)] + [Middle(c)] + [Final(c)] == Utf8(c);
      OverlayMore(was, j, [Lead3(c)] + [Middle(c)], Final(c));
      OverlayMore(was, j, [Lead3(c)], Middle(c));
      OverlayOne(was, j, Lead3(c));
      dest[j] := Lead3(c);
      dest[j + 1] := Middle(c);
      dest[j + 2] := Final(c);
      next := j + 3;
    }
    fits := true;
  }

  lemma OverlayOne(s: seq<byte>, at: nat, b: byte)
    requires at < |s|
    ensures Overlay(s, at, [b]) == s[at := b]
  {
  }

  lemma OverlayMore(s: seq<byte>, at: nat, bytes: seq<byte>, b: byte)
    requires at + |bytes| < |s|
    ensures Overlay(s, at, bytes + [b]) == Overlay(s, at, bytes)[at + |bytes| := b]
  {
  }

  /** blkid_encode_to_utf8. (The zero it also stores on its way out at a zero unit is stored again at the
      end.) */
  method EncodeToUtf8(le: bool, dest: array<byte>, src: seq<byte>) returns (j: nat)
    requires dest.Length >= 1
    modifies dest
    ensures var out := Encoded(Fitting(Units(le, src), dest.Length - 1));
            && j == |out| < dest.Length && dest[..j] == out && dest[j] == 0
            && dest[j + 1..] == old(dest[j + 1..])
  {
    hide Unit, Encoded, Utf8, Fitting, Units, NoZero, Overlay, Halfway;
    ghost var us, before := Units(le, src), dest[..];
    ghost var k := 0;
    var i := 0;
    j := 0;
    HalfwayStarts(us, before);
    while i + 2 <= |src|
      invariant 0 <= i == 2 * k && k <= |us| && j < dest.Length
      invariant Halfway(us, k, dest[..], before, j)
    {
      var c := Unit(le, src, i);
      if c == 0 {
        break;
      }
      HalfwayGoes(us, k, dest[..], before, j);
      var fits, next := PutUnit(dest, j, c);
      if !fits {
        break;
      }
      i, j, k := i + 2, next, k + 1;
    }
    HalfwayEnds(us, k, dest[..], before, j);
    dest[j] := 0;
  }

  /** Of `us`, the first `k` units are in the buffer, in its first `j` bytes. */
  ghost predicate Halfway(us: seq<u16>, k: nat, content: seq<byte>, before: seq<byte>, j: nat) {
    && k <= |us| && j < |content| == |before|
    && us[..k] + Fitting(us[k..], |content| - 1 - j) == Fitting(us, |content| - 1)
    && content[..j] == Encoded(us[..k]) && content[j..] == before[j..]
  }

  lemma HalfwayStarts(us: seq<u16>, before: seq<byte>)
    requires before != []
    ensures Halfway(us, 0, before, before, 0)
  {
    Whole(us);
    EncodedNothing();
  }

  lemma HalfwayGoes(us: seq<u16>, k: nat, content: seq<byte>, before: seq<byte>, j: nat)
    requires Halfway(us, k, content, before, j) && k < |us| && us[k] != 0
    ensures j + |Utf8(us[k])| < |content| ==>
              Halfway(us, k + 1, Overlay(content, j, Utf8(us[k])), before, j + |Utf8(us[k])|)
  {
    hide Utf8, Fitting, Encoded;
    var n := |Utf8(us[k])|;
    if j + n < |content| {
      FittingTurn(us, k, |content| - 1 - j);
      BytesStored(content, Overlay(content, j, Utf8(us[k])), j, Utf8(us[k]), before);
      OneMoreUnit(us, k, Fitting(us[k + 1..], |content| - 1 - (j + n)));
    }
  }

  lemma HalfwayEnds(us: seq<u16>, k: nat, content: seq<byte>, before: seq<byte>, j: nat)
    requires Halfway(us, k, content, before, j)
    requires k == |us| || us[k] == 0 || j + |Utf8(us[k])| >= |content|
    ensures content[..j] == Encoded(Fitting(us, |content| - 1)) && content[j + 1..] == before[j + 1..]
  {
    hide Utf8;
    FittingEnds(us, k, |content| - 1 - j, k == |us|);
    assert content[j..][1..] == content[j + 1..] && before[j..][1..] == before[j + 1..];
  }

  lemma BytesStored(was: seq<byte>, now: seq<byte>, j: nat, bytes: seq<byte>, before: seq<byte>)
    requires j + |bytes| <= |was| == |now| == |before| && 1 <= |bytes| <= 3 && was[j..] == before[j..]
    requires now == Overlay(was, j, bytes)
    ensures now[..j + |bytes|] == was[..j] + bytes && now[j + |bytes|..] == before[j + |bytes|..]
  {
    assert forall k :: j <= k < |was| ==> was[k] == was[j..][k - j] == before[k];
  }

  lemma FittingEnds(us: seq<u16>, k: nat, room: nat, atEnd: bool)
    requires k <= |us| && (if atEnd then k == |us| else k < |us| && (us[k] == 0 || |Utf8(us[k])| > room))
    ensures us[..k] + Fitting(us[k..], room) == us[..k]
  {
  }

  lemma EncodedNothing()
    ensures Encoded([]) == []
  {
  }

  lemma Whole(us: seq<u16>)
    ensures us[0..] == us && us[..0] == []
  {
  }

  lemma FittingTurn(us: seq<u16>, k: nat, room: nat)
    requires k < |us|
    ensures Fitting(us[k..], room) ==
            if us[k] == 0 || |Utf8(us[k])| > room then []
            else [us[k]] + Fitting(us[k + 1..], room - |Utf8(us[k])|)
  {
    hide Utf8;
    assert us[k..][1..] == us[k + 1..];
  }

  lemma OneMoreUnit(us: seq<u16>, k: nat, rest: seq<u16>)
    requires k < |us|
    ensures us[..k + 1] == us[..k] + [us[k]]
    ensures us[..k] + ([us[k]] + rest) == us[..k + 1] + rest
    ensures Encoded(us[..k + 1]) == Encoded(us[..k]) + Utf8(us[k])
  {
    hide Utf8;
    assert us[..k + 1] == us[..k] + [us[k]];
    EncodedOneMore(us[..k], us[k]);
  }

  /** strlen: where the first zero is. */
  function Strlen(s: seq<byte>): (n: nat)
    requires 0 in s
    ensures n < |s| && s[n] == 0 && forall k :: 0 <= k < n ==> s[k] != 0
    decreases |s|
  {
    if s[0] == 0 then 0 else
      assert 0 in s[1..];
      1 + Strlen(s[1..])
  }

  /** blkid_rtrim_whitespace. On a string without any other character the index wraps below zero and back,
      as size_t does. */
  method RtrimWhitespace(str: array<byte>) returns (n: nat)
    requires 0 in str[..] && str.Length < TWO64
    modifies str
    ensures var s := old(str[..Strlen(str[..])]);
            && n == |Trim(s)| < str.Length && str[..n] == Trim(s) && str[n] == 0
            && str[n + 1..] == old(str[n + 1..])
  {
    hide Trim;
    ghost var before := str[..];
    ghost var s := before[..Strlen(before)];
    n := Strlen(str[..]);
    assert s[..n] == s;
    while true
      invariant 0 <= n <= |s| && Trim(s[..n]) == Trim(s) && str[..] == before
      decreases n
    {
      var was := n;
      n := (n + TWO64 - 1) % TWO64;
      TrimTurn(s, was);
      if was == 0 {
        break;
      }
      assert n == was - 1 && str[n] == s[n];
      if !IsSpace(str[n]) {
        break;
      }
    }
    n := (n + 1) % TWO64;
    assert Trim(s) == s[..n] == before[..n];
    str[n] := 0;
  }

  lemma TrimTurn(s: seq<byte>, n: nat)
    requires n <= |s|
    ensures Trim(s[..n]) == if n == 0 || !IsSpace(s[n - 1]) then s[..n] else Trim(s[..n - 1])
  {
    if n > 0 {
      assert s[..n][..n - 1] == s[..n - 1];
    }
  }

  /** blkid_probe_set_utf8label into pr->text: the text that a C string reader sees is the encoding of
      the units that fit, without the whitespace at their end. */
  method SetUtf8Label(le: bool, text: array<byte>, src: seq<byte>)
    requires text.Length == LABEL_SIZE
    modifies text
    ensures var us := TrimUnits(Fitting(Units(le, src), LABEL_SIZE - 1));
            && 0 in text[..] && text[..Strlen(text[..])] == Encoded(us)
            && Decode(text[..Strlen(text[..])]) == Good(us)
  {
    hide Encoded, Fitting, Units, Trim, TrimUnits, Decode;
    ghost var us := Fitting(Units(le, src), LABEL_SIZE - 1);
    var j := EncodeToUtf8(le, text, src);
    NoZeroBytes(us);
    StringEnds(text[..], j);
    var n := RtrimWhitespace(text);
    TrimCutsCharacters(us);
    NoZeroBytes(TrimUnits(us));
    StringEnds(text[..], n);
    DecodesBack(TrimUnits(us));
  }

  lemma StringEnds(s: seq<byte>, n: nat)
    requires n < |s| && s[n] == 0 && forall k :: 0 <= k < n ==> s[..n][k] != 0
    ensures 0 in s && Strlen(s) == n
  {
    assert forall k :: 0 <= k < n ==> s[k] == s[..n][k];
  }
}
