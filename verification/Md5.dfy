/** usFirmware.c: MD5, against sections 3.1 to 3.5 of RFC 1321. */
module Md5 {
  import Base

  // ----- The definition

  /** The buffer of section 3.3. */
  datatype Regs = Regs(a: bv32, b: bv32, c: bv32, d: bv32)

  const INIT := Regs(0x67452301, 0xEFCDAB89, 0x98BADCFE, 0x10325476)

  function F(x: bv32, y: bv32, z: bv32): bv32 {
    (x & y) | (!x & z)
  }

  function G(x: bv32, y: bv32, z: bv32): bv32 {
    (x & z) | (y & !z)
  }

  function H(x: bv32, y: bv32, z: bv32): bv32 {
    x ^ y ^ z
  }

  function I(x: bv32, y: bv32, z: bv32): bv32 {
    y ^ (x | !z)
  }

  /** Addition of words (section 2): modulo 2^32. */
  function Add(a: bv32, b: bv32): bv32 {
    a + b
  }

  function RotateLeft(x: bv32, n: nat): bv32
    requires n <= 32
  {
    (x << n) | (x >> (32 - n))
  }

  /** The auxiliary function of operation `i` (from 0). */
  function Mixer(i: nat, x: bv32, y: bv32, z: bv32): bv32 {
    if i < 16 then F(x, y, z) else if i < 32 then G(x, y, z) else if i < 48 then H(x, y, z) else I(x, y, z)
  }

  /** The word operation `i` takes: k in the notation of section 3.4. */
  function K(i: nat): (k: nat)
    requires i < 64
    ensures k < 16
  {
    if i < 16 then i else if i < 32 then (5 * i + 1) % 16 else if i < 48 then (3 * i + 5) % 16 else 7 * i % 16
  }

  /** How far operation `i` rotates: s in the notation of section 3.4. */
  function S(i: nat): (s: nat)
    requires i < 64
    ensures s <= 32
  {
    match (i / 16, i % 4)
    case (0, 0) => 7 case (0, 1) => 12 case (0, 2) => 17 case (0, _) => 22
    case (1, 0) => 5 case (1, 1) => 9 case (1, 2) => 14 case (1, _) => 20
    case (2, 0) => 4 case (2, 1) => 11 case (2, 2) => 16 case (2, _) => 23
    case (_, 0) => 6 case (_, 1) => 10 case (_, 2) => 15 case (_, _) => 21
  }

  /** T[i + 1] of section 3.4: the integer part of 2^32 times the absolute value of the sine of i + 1. */
  function T(i: nat): bv32 {
    if i < 16 then T1(i) else if i < 32 then T2(i) else if i < 48 then T3(i) else T4(i)
  }

  function T1(i: nat): bv32 {
    match i
    case 0 => 0xd76aa478 case 1 => 0xe8c7b756 case 2 => 0x242070db case 3 => 0xc1bdceee
    case 4 => 0xf57c0faf case 5 => 0x4787c62a case 6 => 0xa8304613 case 7 => 0xfd469501
    case 8 => 0x698098d8 case 9 => 0x8b44f7af case 10 => 0xffff5bb1 case 11 => 0x895cd7be
    case 12 => 0x6b901122 case 13 => 0xfd987193 case 14 => 0xa679438e case _ => 0x49b40821
  }

  function T2(i: nat): bv32 {
    match i
    case 16 => 0xf61e2562 case 17 => 0xc040b340 case 18 => 0x265e5a51 case 19 => 0xe9b6c7aa
    case 20 => 0xd62f105d case 21 => 0x02441453 case 22 => 0xd8a1e681 case 23 => 0xe7d3fbc8
    case 24 => 0x21e1cde6 case 25 => 0xc33707d6 case 26 => 0xf4d50d87 case 27 => 0x455a14ed
    case 28 => 0xa9e3e905 case 29 => 0xfcefa3f8 case 30 => 0x676f02d9 case _ => 0x8d2a4c8a
  }

  function T3(i: nat): bv32 {
    match i
    case 32 => 0xfffa3942 case 33 => 0x8771f681 case 34 => 0x6d9d6122 case 35 => 0xfde5380c
    case 36 => 0xa4beea44 case 37 => 0x4bdecfa9 case 38 => 0xf6bb4b60 case 39 => 0xbebfbc70
    case 40 => 0x289b7ec6 case 41 => 0xeaa127fa case 42 => 0xd4ef3085 case 43 => 0x04881d05
    case 44 => 0xd9d4d039 case 45 => 0xe6db99e5 case 46 => 0x1fa27cf8 case _ => 0xc4ac5665
  }

  function T4(i: nat): bv32 {
    match i
    case 48 => 0xf4292244 case 49 => 0x432aff97 case 50 => 0xab9423a7 case 51 => 0xfc93a039
    case 52 => 0x655b59c3 case 53 => 0x8f0ccc92 case 54 => 0xffeff47d case 55 => 0x85845dd1
    case 56 => 0x6fa87e4f case 57 => 0xfe2ce6e0 case 58 => 0xa3014314 case 59 => 0x4e0811a1
    case 60 => 0xf7537e82 case 61 => 0xbd3af235 case 62 => 0x2ad7d2bb case _ => 0xeb86d391
  }

  function Turned(a: bv32, b: bv32, f: bv32, x: bv32, t: bv32, s: nat): bv32
    requires s <= 32
  {
    Add(b, RotateLeft(a + f + x + t, s))
  }

  /** Operation `i`: a = b + ((a + f(b, c, d) + X[k] + T[i]) <<< s), after which the registers change
      places. */
  function StepOp(i: nat, r: Regs, x: seq<bv32>): Regs
    requires i < 64 && |x| == 16
  {
    Regs(r.d, Turned(r.a, r.b, Mixer(i, r.b, r.c, r.d), x[K(i)], T(i), S(i)), r.b, r.c)
  }

  /** Operations `i` to `n`, in order. */
  function Steps(r: Regs, x: seq<bv32>, i: nat, n: nat): Regs
    requires i <= n <= 64 && |x| == 16
    decreases n - i
  {
    if i == n then r else Steps(StepOp(i, r, x), x, i + 1, n)
  }

  function WordAt(block: seq<bv8>, i: nat): bv32
    requires i + 4 <= |block|
  {
    block[i] as bv32 | (block[i + 1] as bv32 << 8) | (block[i + 2] as bv32 << 16) | (block[i + 3] as bv32 << 24)
  }

  function Words(block: seq<bv8>): (x: seq<bv32>)
    requires |block| == 64
    ensures |x| == 16
  {
    seq(16, i requires 0 <= i < 16 => WordAt(block, 4 * i))
  }

  /** Section 3.4 for one 16-word block. */
  function Compress(r: Regs, block: seq<bv8>): Regs
    requires |block| == 64
  {
    var s := Steps(r, Words(block), 0, 64);
    Regs(Add(r.a, s.a), Add(r.b, s.b), Add(r.c, s.c), Add(r.d, s.d))
  }

  /** All whole blocks of `data`. */
  function Blocks(r: Regs, data: seq<bv8>): Regs
    decreases |data|
  {
    if |data| < 64 then r else Blocks(Compress(r, data[..64]), data[64..])
  }

  const TWO64: int := 0x1_0000_0000_0000_0000

  /** A 64-bit value, low-order byte first. */
  function Le64(n: nat): (r: seq<bv8>)
    requires n < TWO64
    ensures |r| == 8
  {
    Le32(n % 0x1_0000_0000) + Le32(n / 0x1_0000_0000)
  }

  function Le32(n: nat): (r: seq<bv8>)
    requires n < 0x1_0000_0000
    ensures |r| == 4
  {
    [(n % 0x100) as bv8, (n / 0x100 % 0x100) as bv8, (n / 0x1_0000 % 0x100) as bv8, (n / 0x100_0000) as bv8]
  }

  /** Section 3.1: at least one and at most 64 bytes, up to 56 modulo 64. */
  predicate IsPadLength(n: nat, p: nat) {
    1 <= p <= 64 && (n + p) % 64 == 56
  }

  function PadLength(n: nat): (p: nat)
    ensures IsPadLength(n, p)
  {
    64 - (n + 8) % 64
  }

  lemma PadLengthUnique(n: nat, p: nat)
    requires IsPadLength(n, p)
    ensures p == PadLength(n)
  {
  }

  function Padding(p: nat): (r: seq<bv8>)
    requires p >= 1
    ensures |r| == p
  {
    [0x80] + seq(p - 1, _ => 0)
  }

  /** Sections 3.1 and 3.2. */
  function Padded(msg: seq<bv8>): seq<bv8> {
    msg + Padding(PadLength(|msg|)) + Le64(8 * |msg| % TWO64)
  }

  function WordBytes(w: bv32): (r: seq<bv8>)
    ensures |r| == 4
  {
    [(w & 0xff) as bv8, ((w >> 8) & 0xff) as bv8, ((w >> 16) & 0xff) as bv8, ((w >> 24) & 0xff) as bv8]
  }

  /** Section 3.5. */
  function Output(r: Regs): (digest: seq<bv8>)
    ensures |digest| == 16
  {
    WordBytes(r.a) + WordBytes(r.b) + WordBytes(r.c) + WordBytes(r.d)
  }

  function Digest(msg: seq<bv8>): (digest: seq<bv8>)
    ensures |digest| == 16
  {
    Output(Blocks(INIT, Padded(msg)))
  }

  // ----- The unrolled compression function

  /** The body FF, GG, HH and II share; the mixing function aside, they are one macro. */
  function Macro(a: bv32, b: bv32, f: bv32, x: bv32, s: nat, ac: bv32): bv32
    requires s <= 32
  {
    Add(RotateLeft(a + (f + x + ac), s), b)
  }

  function Ff(a: bv32, b: bv32, c: bv32, d: bv32, x: bv32, s: nat, ac: bv32): bv32
    requires s <= 32
  {
    Macro(a, b, F(b, c, d), x, s, ac)
  }

  function Gg(a: bv32, b: bv32, c: bv32, d: bv32, x: bv32, s: nat, ac: bv32): bv32
    requires s <= 32
  {
    Macro(a, b, G(b, c, d), x, s, ac)
  }

  function Hh(a: bv32, b: bv32, c: bv32, d: bv32, x: bv32, s: nat, ac: bv32): bv32
    requires s <= 32
  {
    Macro(a, b, H(b, c, d), x, s, ac)
  }

  function Ii(a: bv32, b: bv32, c: bv32, d: bv32, x: bv32, s: nat, ac: bv32): bv32
    requires s <= 32
  {
    Macro(a, b, I(b, c, d), x, s, ac)
  }

  /** What one line of MD5Transform computes, were it written with the indices of section 3.4. */
  function Line(i: nat, a: bv32, b: bv32, c: bv32, d: bv32, x: seq<bv32>): bv32
    requires i < 64 && |x| == 16
  {
    if i < 16 then Ff(a, b, c, d, x[K(i)], S(i), T(i))
    else if i < 32 then Gg(a, b, c, d, x[K(i)], S(i), T(i))
    else if i < 48 then Hh(a, b, c, d, x[K(i)], S(i), T(i))
    else Ii(a, b, c, d, x[K(i)], S(i), T(i))
  }

  lemma AddComm(a: bv32, b: bv32)
    ensures Add(a, b) == Add(b, a)
  {
    calc {
      Add(a, b);
      a + b;
      b + a;
      Add(b, a);
    }
  }

  lemma SumOrder(a: bv32, f: bv32, x: bv32, t: bv32)
    ensures a + (f + x + t) == a + f + x + t
  {
  }

  /** The macros add in another order. */
  lemma MacroTurns(a: bv32, b: bv32, f: bv32, x: bv32, s: nat, t: bv32)
    requires s <= 32
    ensures Macro(a, b, f, x, s, t) == Turned(a, b, f, x, t, s)
  {
    hide RotateLeft, Add;
    SumOrder(a, f, x, t);
    AddComm(RotateLeft(a + (f + x + t), s), b);
  }

  lemma LineIsStep(i: nat, r: Regs, x: seq<bv32>)
    requires i < 64 && |x| == 16
    ensures StepOp(i, r, x) == Regs(r.d, Line(i, r.a, r.b, r.c, r.d, x), r.b, r.c)
  {
    hide F, G, H, I, K, S, T, Turned, Macro;
    MacroTurns(r.a, r.b, Mixer(i, r.b, r.c, r.d), x[K(i)], S(i), T(i));
  }

  /** Four lines are four operations, and put the registers back in their places. */
  lemma Quarter(i: nat, n: nat, r: Regs, x: seq<bv32>, out: Regs)
    requires i + 4 <= n <= 64 && |x| == 16
    requires out.a == Line(i, r.a, r.b, r.c, r.d, x)
    requires out.d == Line(i + 1, r.d, out.a, r.b, r.c, x)
    requires out.c == Line(i + 2, r.c, out.d, out.a, r.b, x)
    requires out.b == Line(i + 3, r.b, out.c, out.d, out.a, x)
    ensures Steps(r, x, i, n) == Steps(out, x, i + 4, n)
  {
    hide Line, StepOp;
    LineIsStep(i, r, x);
    var r1 := Regs(r.d, out.a, r.b, r.c);
    LineIsStep(i + 1, r1, x);
    var r2 := Regs(r.c, out.d, out.a, r.b);
    LineIsStep(i + 2, r2, x);
    var r3 := Regs(r.b, out.c, out.d, out.a);
    LineIsStep(i + 3, r3, x);
    assert Steps(r, x, i, n) == Steps(r1, x, i + 1, n);
    assert Steps(r1, x, i + 1, n) == Steps(r2, x, i + 2, n);
    assert Steps(r2, x, i + 2, n) == Steps(r3, x, i + 3, n);
  }

  lemma NoSteps(r: Regs, x: seq<bv32>, n: nat)
    requires n <= 64 && |x| == 16
    ensures Steps(r, x, n, n) == r
  {
  }

  lemma Indices1()
    ensures K(0) == 0 && K(1) == 1 && K(2) == 2 && K(3) == 3 && K(4) == 4 && K(5) == 5 && K(6) == 6 && K(7) == 7
    ensures K(8) == 8 && K(9) == 9 && K(10) == 10 && K(11) == 11 && K(12) == 12 && K(13) == 13 && K(14) == 14 && K(15) == 15
  {
  }

  lemma Shifts1()
    ensures S(0) == 7 && S(1) == 12 && S(2) == 17 && S(3) == 22 && S(4) == 7 && S(5) == 12 && S(6) == 17 && S(7) == 22
    ensures S(8) == 7 && S(9) == 12 && S(10) == 17 && S(11) == 22 && S(12) == 7 && S(13) == 12 && S(14) == 17 && S(15) == 22
  {
  }

  lemma Sines1()
    ensures T(0) == 0xd76aa478 && T(1) == 0xe8c7b756 && T(2) == 0x242070db && T(3) == 0xc1bdceee
    ensures T(4) == 0xf57c0faf && T(5) == 0x4787c62a && T(6) == 0xa8304613 && T(7) == 0xfd469501
    ensures T(8) == 0x698098d8 && T(9) == 0x8b44f7af && T(10) == 0xffff5bb1 && T(11) == 0x895cd7be
    ensures T(12) == 0x6b901122 && T(13) == 0xfd987193 && T(14) == 0xa679438e && T(15) == 0x49b40821
  {
  }

  lemma Indices2()
    ensures K(16) == 1 && K(17) == 6 && K(18) == 11 && K(19) == 0 && K(20) == 5 && K(21) == 10 && K(22) == 15 && K(23) == 4
    ensures K(24) == 9 && K(25) == 14 && K(26) == 3 && K(27) == 8 && K(28) == 13 && K(29) == 2 && K(30) == 7 && K(31) == 12
  {
  }

  lemma Shifts2()
    ensures S(16) == 5 && S(17) == 9 && S(18) == 14 && S(19) == 20 && S(20) == 5 && S(21) == 9 && S(22) == 14 && S(23) == 20
    ensures S(24) == 5 && S(25) == 9 && S(26) == 14 && S(27) == 20 && S(28) == 5 && S(29) == 9 && S(30) == 14 && S(31) == 20
  {
  }

  lemma Sines2()
    ensures T(16) == 0xf61e2562 && T(17) == 0xc040b340 && T(18) == 0x265e5a51 && T(19) == 0xe9b6c7aa
    ensures T(20) == 0xd62f105d && T(21) == 0x02441453 && T(22) == 0xd8a1e681 && T(23) == 0xe7d3fbc8
    ensures T(24) == 0x21e1cde6 && T(25) == 0xc33707d6 && T(26) == 0xf4d50d87 && T(27) == 0x455a14ed
    ensures T(28) == 0xa9e3e905 && T(29) == 0xfcefa3f8 && T(30) == 0x676f02d9 && T(31) == 0x8d2a4c8a
  {
  }

  lemma Indices3()
    ensures K(32) == 5 && K(33) == 8 && K(34) == 11 && K(35) == 14 && K(36) == 1 && K(37) == 4 && K(38) == 7 && K(39) == 10
    ensures K(40) == 13 && K(41) == 0 && K(42) == 3 && K(43) == 6 && K(44) == 9 && K(45) == 12 && K(46) == 15 && K(47) == 2
  {
  }

  lemma Shifts3()
    ensures S(32) == 4 && S(33) == 11 && S(34) == 16 && S(35) == 23 && S(36) == 4 && S(37) == 11 && S(38) == 16 && S(39) == 23
    ensures S(40) == 4 && S(41) == 11 && S(42) == 16 && S(43) == 23 && S(44) == 4 && S(45) == 11 && S(46) == 16 && S(47) == 23
  {
  }

  lemma Sines3()
    ensures T(32) == 0xfffa3942 && T(33) == 0x8771f681 && T(34) == 0x6d9d6122 && T(35) == 0xfde5380c
    ensures T(36) == 0xa4beea44 && T(37) == 0x4bdecfa9 && T(38) == 0xf6bb4b60 && T(39) == 0xbebfbc70
    ensures T(40) == 0x289b7ec6 && T(41) == 0xeaa127fa && T(42) == 0xd4ef3085 && T(43) == 0x04881d05
    ensures T(44) == 0xd9d4d039 && T(45) == 0xe6db99e5 && T(46) == 0x1fa27cf8 && T(47) == 0xc4ac5665
  {
  }

  lemma Indices4()
    ensures K(48) == 0 && K(49) == 7 && K(50) == 14 && K(51) == 5 && K(52) == 12 && K(53) == 3 && K(54) == 10 && K(55) == 1
    ensures K(56) == 8 && K(57) == 15 && K(58) == 6 && K(59) == 13 && K(60) == 4 && K(61) == 11 && K(62) == 2 && K(63) == 9
  {
  }

  lemma Shifts4()
    ensures S(48) == 6 && S(49) == 10 && S(50) == 15 && S(51) == 21 && S(52) == 6 && S(53) == 10 && S(54) == 15 && S(55) == 21
    ensures S(56) == 6 && S(57) == 10 && S(58) == 15 && S(59) == 21 && S(60) == 6 && S(61) == 10 && S(62) == 15 && S(63) == 21
  {
  }

  lemma Sines4()
    ensures T(48) == 0xf4292244 && T(49) == 0x432aff97 && T(50) == 0xab9423a7 && T(51) == 0xfc93a039
    ensures T(52) == 0x655b59c3 && T(53) == 0x8f0ccc92 && T(54) == 0xffeff47d && T(55) == 0x85845dd1
    ensures T(56) == 0x6fa87e4f && T(57) == 0xfe2ce6e0 && T(58) == 0xa3014314 && T(59) == 0x4e0811a1
    ensures T(60) == 0xf7537e82 && T(61) == 0xbd3af235 && T(62) == 0x2ad7d2bb && T(63) == 0xeb86d391
  {
  }

  /** Round 1. */
  method Round1(start: Regs, x: seq<bv32>) returns (r: Regs)
    requires |x| == 16
    ensures r == Steps(start, x, 0, 16)
  {
    hide Steps, StepOp, Ff, Gg, Hh, Ii, K, S, T;
    Indices1();
    Shifts1();
    Sines1();
    var a, b, c, d := start.a, start.b, start.c, start.d;
    ghost var r0 := start;
    a := Ff(a, b, c, d, x[0], 7, 0xd76aa478);
    d := Ff(d, a, b, c, x[1], 12, 0xe8c7b756);
    c := Ff(c, d, a, b, x[2], 17, 0x242070db);
    b := Ff(b, c, d, a, x[3], 22, 0xc1bdceee);
    Quarter(0, 16, r0, x, Regs(a, b, c, d));
    ghost var r1 := Regs(a, b, c, d);
    a := Ff(a, b, c, d, x[4], 7, 0xf57c0faf);
    d := Ff(d, a, b, c, x[5], 12, 0x4787c62a);
    c := Ff(c, d, a, b, x[6], 17, 0xa8304613);
    b := Ff(b, c, d, a, x[7], 22, 0xfd469501);
    Quarter(4, 16, r1, x, Regs(a, b, c, d));
    ghost var r2 := Regs(a, b, c, d);
    a := Ff(a, b, c, d, x[8], 7, 0x698098d8);
    d := Ff(d, a, b, c, x[9], 12, 0x8b44f7af);
    c := Ff(c, d, a, b, x[10], 17, 0xffff5bb1);
    b := Ff(b, c, d, a, x[11], 22, 0x895cd7be);
    Quarter(8, 16, r2, x, Regs(a, b, c, d));
    ghost var r3 := Regs(a, b, c, d);
    a := Ff(a, b, c, d, x[12], 7, 0x6b901122);
    d := Ff(d, a, b, c, x[13], 12, 0xfd987193);
    c := Ff(c, d, a, b, x[14], 17, 0xa679438e);
    b := Ff(b, c, d, a, x[15], 22, 0x49b40821);
    Quarter(12, 16, r3, x, Regs(a, b, c, d));
    NoSteps(Regs(a, b, c, d), x, 16);
    r := Regs(a, b, c, d);
  }

  /** Round 2. */
  method Round2(start: Regs, x: seq<bv32>) returns (r: Regs)
    requires |x| == 16
    ensures r == Steps(start, x, 16, 32)
  {
    hide Steps, StepOp, Ff, Gg, Hh, Ii, K, S, T;
    Indices2();
    Shifts2();
    Sines2();
    var a, b, c, d := start.a, start.b, start.c, start.d;
    ghost var r0 := start;
    a := Gg(a, b, c, d, x[1], 5, 0xf61e2562);
    d := Gg(d, a, b, c, x[6], 9, 0xc040b340);
    c := Gg(c, d, a, b, x[11], 14, 0x265e5a51);
    b := Gg(b, c, d, a, x[0], 20, 0xe9b6c7aa);
    Quarter(16, 32, r0, x, Regs(a, b, c, d));
    ghost var r1 := Regs(a, b, c, d);
    a := Gg(a, b, c, d, x[5], 5, 0xd62f105d);
    d := Gg(d, a, b, c, x[10], 9, 0x02441453);
    c := Gg(c, d, a, b, x[15], 14, 0xd8a1e681);
    b := Gg(b, c, d, a, x[4], 20, 0xe7d3fbc8);
    Quarter(20, 32, r1, x, Regs(a, b, c, d));
    ghost var r2 := Regs(a, b, c, d);
    a := Gg(a, b, c, d, x[9], 5, 0x21e1cde6);
    d := Gg(d, a, b, c, x[14], 9, 0xc33707d6);
    c := Gg(c, d, a, b, x[3], 14, 0xf4d50d87);
    b := Gg(b, c, d, a, x[8], 20, 0x455a14ed);
    Quarter(24, 32, r2, x, Regs(a, b, c, d));
    ghost var r3 := Regs(a, b, c, d);
    a := Gg(a, b, c, d, x[13], 5, 0xa9e3e905);
    d := Gg(d, a, b, c, x[2], 9, 0xfcefa3f8);
    c := Gg(c, d, a, b, x[7], 14, 0x676f02d9);
    b := Gg(b, c, d, a, x[12], 20, 0x8d2a4c8a);
    Quarter(28, 32, r3, x, Regs(a, b, c, d));
    NoSteps(Regs(a, b, c, d), x, 32);
    r := Regs(a, b, c, d);
  }

  /** Round 3. */
  method Round3(start: Regs, x: seq<bv32>) returns (r: Regs)
    requires |x| == 16
    ensures r == Steps(start, x, 32, 48)
  {
    hide Steps, StepOp, Ff, Gg, Hh, Ii, K, S, T;
    Indices3();
    Shifts3();
    Sines3();
    var a, b, c, d := start.a, start.b, start.c, start.d;
    ghost var r0 := start;
    a := Hh(a, b, c, d, x[5], 4, 0xfffa3942);
    d := Hh(d, a, b, c, x[8], 11, 0x8771f681);
    c := Hh(c, d, a, b, x[11], 16, 0x6d9d6122);
    b := Hh(b, c, d, a, x[14], 23, 0xfde5380c);
    Quarter(32, 48, r0, x, Regs(a, b, c, d));
    ghost var r1 := Regs(a, b, c, d);
    a := Hh(a, b, c, d, x[1], 4, 0xa4beea44);
    d := Hh(d, a, b, c, x[4], 11, 0x4bdecfa9);
    c := Hh(c, d, a, b, x[7], 16, 0xf6bb4b60);
    b := Hh(b, c, d, a, x[10], 23, 0xbebfbc70);
    Quarter(36, 48, r1, x, Regs(a, b, c, d));
    ghost var r2 := Regs(a, b, c, d);
    a := Hh(a, b, c, d, x[13], 4, 0x289b7ec6);
    d := Hh(d, a, b, c, x[0], 11, 0xeaa127fa);
    c := Hh(c, d, a, b, x[3], 16, 0xd4ef3085);
    b := Hh(b, c, d, a, x[6], 23, 0x04881d05);
    Quarter(40, 48, r2, x, Regs(a, b, c, d));
    ghost var r3 := Regs(a, b, c, d);
    a := Hh(a, b, c, d, x[9], 4, 0xd9d4d039);
    d := Hh(d, a, b, c, x[12], 11, 0xe6db99e5);
    c := Hh(c, d, a, b, x[15], 16, 0x1fa27cf8);
    b := Hh(b, c, d, a, x[2], 23, 0xc4ac5665);
    Quarter(44, 48, r3, x, Regs(a, b, c, d));
    NoSteps(Regs(a, b, c, d), x, 48);
    r := Regs(a, b, c, d);
  }

  /** Round 4. */
  method Round4(start: Regs, x: seq<bv32>) returns (r: Regs)
    requires |x| == 16
    ensures r == Steps(start, x, 48, 64)
  {
    hide Steps, StepOp, Ff, Gg, Hh, Ii, K, S, T;
    Indices4();
    Shifts4();
    Sines4();
    var a, b, c, d := start.a, start.b, start.c, start.d;
    ghost var r0 := start;
    a := Ii(a, b, c, d, x[0], 6, 0xf4292244);
    d := Ii(d, a, b, c, x[7], 10, 0x432aff97);
    c := Ii(c, d, a, b, x[14], 15, 0xab9423a7);
    b := Ii(b, c, d, a, x[5], 21, 0xfc93a039);
    Quarter(48, 64, r0, x, Regs(a, b, c, d));
    ghost var r1 := Regs(a, b, c, d);
    a := Ii(a, b, c, d, x[12], 6, 0x655b59c3);
    d := Ii(d, a, b, c, x[3], 10, 0x8f0ccc92);
    c := Ii(c, d, a, b, x[10], 15, 0xffeff47d);
    b := Ii(b, c, d, a, x[1], 21, 0x85845dd1);
    Quarter(52, 64, r1, x, Regs(a, b, c, d));
    ghost var r2 := Regs(a, b, c, d);
    a := Ii(a, b, c, d, x[8], 6, 0x6fa87e4f);
    d := Ii(d, a, b, c, x[15], 10, 0xfe2ce6e0);
    c := Ii(c, d, a, b, x[6], 15, 0xa3014314);
    b := Ii(b, c, d, a, x[13], 21, 0x4e0811a1);
    Quarter(56, 64, r2, x, Regs(a, b, c, d));
    ghost var r3 := Regs(a, b, c, d);
    a := Ii(a, b, c, d, x[4], 6, 0xf7537e82);
    d := Ii(d, a, b, c, x[11], 10, 0xbd3af235);
    c := Ii(c, d, a, b, x[2], 15, 0x2ad7d2bb);
    b := Ii(b, c, d, a, x[9], 21, 0xeb86d391);
    Quarter(60, 64, r3, x, Regs(a, b, c, d));
    NoSteps(Regs(a, b, c, d), x, 64);
    r := Regs(a, b, c, d);
  }

  /** MD5Decode of one block. */
  method Decode(output: array<bv32>, input: seq<bv8>)
    requires |input| == 64 && output.Length >= 16
    modifies output
    ensures output[..16] == Words(input)
  {
    hide WordAt;
    var i, j := 0, 0;
    while j < 64
      invariant 0 <= i <= 16 && j == 4 * i
      invariant forall k :: 0 <= k < i ==> output[k] == WordAt(input, 4 * k)
    {
      output[i] := WordAt(input, j);
      i, j := i + 1, j + 4;
    }
  }

  /** MD5Transform: the unrolled 64 lines are section 3.4. */
  method Transform(state: Regs, block: seq<bv8>) returns (r: Regs)
    requires |block| == 64
    ensures r == Compress(state, block)
  {
    hide Words, Add, Steps;
    var x := new bv32[64];
    Decode(x, block);
    var words := x[..16];
    var s := Round1(state, words);
    s := Round2(s, words);
    s := Round3(s, words);
    s := Round4(s, words);
    StepsJoin(state, words, 0, 16, 64);
    StepsJoin(Steps(state, words, 0, 16), words, 16, 32, 64);
    StepsJoin(Steps(Steps(state, words, 0, 16), words, 16, 32), words, 32, 48, 64);
    r := Regs(Add(state.a, s.a), Add(state.b, s.b), Add(state.c, s.c), Add(state.d, s.d));
  }

  lemma {:induction false} StepsJoin(r: Regs, x: seq<bv32>, i: nat, j: nat, n: nat)
    requires i <= j <= n <= 64 && |x| == 16
    ensures Steps(r, x, i, n) == Steps(Steps(r, x, i, j), x, j, n)
    decreases j - i
  {
    hide StepOp;
    if i < j {
      StepsJoin(StepOp(i, r, x), x, i + 1, j, n);
    }
  }

  // ----- The streaming context

  lemma {:induction false} BlocksJoin(r: Regs, a: seq<bv8>, b: seq<bv8>)
    requires |a| % 64 == 0
    ensures Blocks(r, a + b) == Blocks(Blocks(r, a), b)
    decreases |a|
  {
    hide Compress;
    if a == [] {
      assert a + b == b;
    } else {
      assert (a + b)[..64] == a[..64] && (a + b)[64..] == a[64..] + b;
      BlocksJoin(Compress(r, a[..64]), a[64..], b);
    }
  }

  lemma OneBlock(r: Regs, block: seq<bv8>)
    requires |block| == 64
    ensures Blocks(r, block) == Compress(r, block)
  {
    hide Compress;
    assert block[..64] == block && block[64..] == [];
  }

  /** The split bit counter of MD5_CTX: two 32-bit halves, low first. */
  predicate Counts(count0: nat, count1: nat, n: nat) {
    && count0 < 0x1_0000_0000 && count1 < 0x1_0000_0000
    && count1 * 0x1_0000_0000 + count0 == 8 * n % TWO64
  }

  lemma ModShift(q: nat, x: nat)
    ensures (q * TWO64 + x) % TWO64 == x % TWO64
  {
  }

  lemma ModAdd(a: nat, b: nat)
    ensures (a % TWO64 + b) % TWO64 == (a + b) % TWO64
  {
    ModShift(a / TWO64, a % TWO64 + b);
  }

  lemma HighHalf(h: nat, c0: nat)
    requires c0 < 0x1_0000_0000
    ensures (h * 0x1_0000_0000 + c0) % TWO64 == h % 0x1_0000_0000 * 0x1_0000_0000 + c0
  {
    var q, r := h / 0x1_0000_0000, h % 0x1_0000_0000;
    assert h * 0x1_0000_0000 + c0 == q * TWO64 + (r * 0x1_0000_0000 + c0);
    ModShift(q, r * 0x1_0000_0000 + c0);
  }

  /** The low half: the wrapping shift, the wrapping sum and the test for a carry. */
  lemma LowHalf(count0: nat, len: nat)
    requires count0 < 0x1_0000_0000 && len < 0x1_0000_0000
    ensures var low := len * 8 % 0x1_0000_0000;
            var c0 := (count0 + low) % 0x1_0000_0000;
            var carry := if c0 < low then 1 else 0;
            count0 + 8 * len == (carry + len / 0x2000_0000) * 0x1_0000_0000 + c0
  {
    var low, high := len * 8 % 0x1_0000_0000, len / 0x2000_0000;
    assert len * 8 == high * 0x1_0000_0000 + low;
    var c0 := (count0 + low) % 0x1_0000_0000;
    assert count0 + low == c0 || count0 + low == c0 + 0x1_0000_0000;
  }

  /** The wrapping shift, the carry test and the high half's own increment add 8 * len modulo 2^64. */
  lemma CounterAdds(count0: nat, count1: nat, n: nat, len: nat)
    requires Counts(count0, count1, n) && len < 0x1_0000_0000
    ensures var low := len * 8 % 0x1_0000_0000;
            var c0 := (count0 + low) % 0x1_0000_0000;
            var c1 := if c0 < low then (count1 + 1) % 0x1_0000_0000 else count1;
            Counts(c0, (c1 + len / 0x2000_0000) % 0x1_0000_0000, n + len)
  {
    LowHalf(count0, len);
    var c0 := (count0 + len * 8 % 0x1_0000_0000) % 0x1_0000_0000;
    var carry := if c0 < len * 8 % 0x1_0000_0000 then 1 else 0;
    var h := count1 + carry + len / 0x2000_0000;
    HighHalf(h, c0);
    ModAdd(8 * n, 8 * len);
    WrapTwice(count1, carry, len / 0x2000_0000);
  }

  lemma WrapTwice(count1: nat, carry: nat, high: nat)
    requires count1 < 0x1_0000_0000 && carry <= 1
    ensures ((if carry == 1 then (count1 + 1) % 0x1_0000_0000 else count1) + high) % 0x1_0000_0000
         == (count1 + carry + high) % 0x1_0000_0000
  {
  }

  /** The buffer index read off the counter is the number of bytes modulo 64. */
  lemma CounterIndex(count0: nat, count1: nat, n: nat)
    requires Counts(count0, count1, n)
    ensures count0 / 8 % 64 == n % 64
  {
    var q := 8 * n / TWO64;
    var x := q * 0x80_0000_0000_0000 + count1 * 0x80_0000;
    assert 8 * n == q * TWO64 + count1 * 0x1_0000_0000 + count0;
    assert count0 == 8 * (n - 64 * x);
    WithoutBlocks(n, x);
  }

  lemma WithoutBlocks(n: nat, x: nat)
    ensures (n - 64 * x) % 64 == n % 64 && 8 * (n - 64 * x) / 8 == n - 64 * x
  {
  }

  /** The state has taken in every whole block of `fed`, and `waiting` is the rest. */
  ghost predicate Holds(state: Regs, waiting: seq<bv8>, fed: seq<bv8>) {
    var k := |fed| - |fed| % 64;
    state == Blocks(INIT, fed[..k]) && waiting == fed[k..]
  }

  lemma NextBlock(all: seq<bv8>, k: nat)
    requires k % 64 == 0 && k + 64 <= |all|
    ensures Blocks(INIT, all[..k + 64]) == Compress(Blocks(INIT, all[..k]), all[k..k + 64])
  {
    hide Compress;
    var block := all[k..k + 64];
    assert all[..k + 64] == all[..k] + block;
    BlocksJoin(INIT, all[..k], block);
    OneBlock(Blocks(INIT, all[..k]), block);
  }

  lemma InputSlice(before: seq<bv8>, input: seq<bv8>, i: nat, j: nat)
    requires i <= j <= |input|
    ensures (before + input)[|before| + i..|before| + j] == input[i..j]
  {
  }

  lemma WholeBlocks(state: Regs, waiting: seq<bv8>, fed: seq<bv8>)
    requires Holds(state, waiting, fed) && |fed| % 64 == 0
    ensures state == Blocks(INIT, fed)
  {
    hide Compress, Blocks;
    assert fed[..|fed|] == fed;
  }

  lemma ModRest(k: nat, r: nat)
    requires k % 64 == 0 && r < 64
    ensures (k + r) % 64 == r
  {
  }

  /** What is left over waits behind what the buffer held, or at its start. */
  lemma RestOf(state: Regs, waiting: seq<bv8>, before: seq<bv8>, input: seq<bv8>, i: nat, k: nat)
    requires k <= |before| + i && k % 64 == 0 && i <= |input| && (i > 0 ==> k == |before| + i)
    requires state == Blocks(INIT, (before + input)[..k])
    requires waiting == (before + input[..i])[k..] + input[i..] && |waiting| < 64
    ensures |waiting| == (|before| + |input|) % 64 && Holds(state, waiting, before + input)
  {
    hide Blocks;
    ModRest(k, |waiting|);
    assert before + input == (before + input[..i]) + input[i..];
    assert (before + input)[k..] == waiting;
  }

  /** The loop over whole blocks starts behind the bytes that fill the buffer; i + 64, an unsigned int, is
      what it compares with the length. */
  predicate NeverWraps(index: nat, len: nat)
    requires index < 64
  {
    len < 0x1_0000_0000 &&
    (len >= 64 - index ==> 64 - index + (len - (64 - index)) / 64 * 64 + 64 < 0x1_0000_0000)
  }

  lemma StaysBelow(index: nat, len: nat, i: nat, t: nat)
    requires index < 64 && NeverWraps(index, len) && i == 64 - index + 64 * t <= len
    ensures i + 64 < 0x1_0000_0000
  {
  }

  lemma FitsWord(index: nat, len: nat)
    requires index < 64 && NeverWraps(index, len)
    ensures len < 0x1_0000_0000
  {
  }

  /** Every length but the last 64 below 2^32 is one of them. */
  lemma ShortNeverWraps(index: nat, len: nat)
    requires index < 64 && len + 64 < 0x1_0000_0000
    ensures NeverWraps(index, len)
  {
  }

  class Context {
    var count0: Base.u32
    var count1: Base.u32
    var state: Regs
    const buffer: array<bv8>
    /** Everything hashed so far. */
    ghost var fed: seq<bv8>

    ghost predicate Valid()
      reads this, buffer
    {
      && buffer.Length == 64 && Counts(count0, count1, |fed|)
      && Holds(state, buffer[..|fed| % 64], fed)
    }

    /** MD5Init. */
    constructor ()
      ensures Valid() && fed == [] && fresh(buffer)
    {
      count0, count1, state := 0, 0, INIT;
      buffer := new bv8[64];
      fed := [];
    }

    /** memcpy into the block buffer. */
    method Fill(index: nat, input: seq<bv8>)
      requires index + |input| <= buffer.Length
      modifies buffer
      ensures buffer[..index + |input|] == old(buffer[..index]) + input
    {
      var i := 0;
      while i < |input|
        invariant 0 <= i <= |input|
        invariant buffer[..index + i] == old(buffer[..index]) + input[..i]
      {
        buffer[index + i] := input[i];
        assert buffer[..index + i + 1] == buffer[..index + i] + [input[i]];
        i := i + 1;
      }
    }

    /** The counter part of MD5Update. */
    method CountBits(inputlen: nat, ghost n: nat)
      requires Counts(count0, count1, n) && inputlen < 0x1_0000_0000
      modifies this`count0, this`count1
      ensures Counts(count0, count1, n + inputlen)
    {
      hide Counts;
      CounterAdds(count0, count1, n, inputlen);
      var low := inputlen * 8 % 0x1_0000_0000;
      count0 := (count0 + low) % 0x1_0000_0000;
      if count0 < low {
        count1 := (count1 + 1) % 0x1_0000_0000;
      }
      count1 := (count1 + inputlen / 0x2000_0000) % 0x1_0000_0000;
    }

    /** The data part of MD5Update: whole blocks are compressed as they fill, the rest waits. */
    method Absorb(index: nat, input: seq<bv8>, ghost before: seq<bv8>)
      requires buffer.Length == 64 && index == |before| % 64 && NeverWraps(index, |input|)
      requires Holds(state, buffer[..index], before)
      modifies this`state, buffer
      ensures Holds(state, buffer[..(|before| + |input|) % 64], before + input)
    {
      hide Compress, Blocks, NeverWraps;
      ghost var all, base := before + input, |before|;
      ghost var k := base - index;
      var inputlen, partlen, at, i := |input|, 64 - index, index, 0;
      assert all[..k] == before[..k];
      if inputlen >= partlen {
        Fill(index, input[..partlen]);
        assert buffer[..] == buffer[..64] == all[k..k + 64];
        state := Transform(state, buffer[..]);
        NextBlock(all, k);
        at, i, k := 0, partlen, k + 64;
        StaysBelow(index, inputlen, i, 0);
        while i + 64 <= inputlen
          invariant i + 64 < 0x1_0000_0000 && (i - partlen) % 64 == 0
          invariant partlen <= i <= inputlen && k % 64 == 0 && k == base + i
          invariant state == Blocks(INIT, all[..k])
        {
          InputSlice(before, input, i, i + 64);
          state := Transform(state, input[i..i + 64]);
          NextBlock(all, k);
          i, k := i + 64, k + 64;
          StaysBelow(index, inputlen, i, (i - partlen) / 64);
        }
      }
      assert buffer[..at] == (before + input[..i])[k..];
      Fill(at, input[i..]);
      RestOf(state, buffer[..at + inputlen - i], before, input, i, k);
    }

    /** MD5Update, for every length on which the index of its loop does not wrap. */
    method Update(input: seq<bv8>)
      requires Valid() && NeverWraps(|fed| % 64, |input|)
      modifies this, buffer
      ensures Valid() && fed == old(fed) + input
    {
      hide Counts, Holds, NeverWraps;
      FitsWord(|fed| % 64, |input|);
      var index := count0 / 8 % 64;
      CounterIndex(count0, count1, |fed|);
      CountBits(|input|, |fed|);
      Absorb(index, input, fed);
      fed := fed + input;
    }

    /** MD5Final: the digest of section 3.5 over everything fed. */
    method Final() returns (digest: seq<bv8>)
      requires Valid()
      modifies this, buffer
      ensures digest == Digest(old(fed))
    {
      hide Compress, Blocks, WordBytes, Padding, Le64, Holds, Counts, Output, PadLength, NeverWraps;
      ghost var msg := fed;
      var index := count0 / 8 % 64;
      CounterIndex(count0, count1, |fed|);
      var padlen := if index < 56 then 56 - index else 120 - index;
      PadLengthUnique(|msg|, padlen);
      var bits := Le32(count0) + Le32(count1);
      BitsOfCount(count0, count1, |msg|);
      ShortNeverWraps(|fed| % 64, padlen);
      Update(Padding(padlen));
      ShortNeverWraps(|fed| % 64, 8);
      Update(bits);
      PaddedWhole(msg);
      WholeBlocks(state, buffer[..|fed| % 64], fed);
      digest := Output(state);
    }
  }

  lemma BitsOfCount(count0: nat, count1: nat, n: nat)
    requires Counts(count0, count1, n)
    ensures Le32(count0) + Le32(count1) == Le64(8 * n % TWO64)
  {
    hide Le32;
    var t := 8 * n % TWO64;
    assert t % 0x1_0000_0000 == count0 && t / 0x1_0000_0000 == count1;
  }

  /** A padded message is a whole number of blocks. */
  lemma PaddedWhole(msg: seq<bv8>)
    ensures |Padded(msg)| % 64 == 0
  {
    hide Padding, Le64, PadLength;
    assert |Padded(msg)| == |msg| + PadLength(|msg|) + 8;
  }

  /** What a read() of compute_md5 does: bring some of the bytes asked for, or fail. */
  datatype ReadCall = Brings(n: nat) | Fails

  /** Whether the file could be opened and sought, and the results of successive reads; every read after
      them brings all it can. */
  datatype Reads = Reads(opens: bool, calls: seq<ReadCall>)

  /** Do the reads get through the `left` bytes of a file, and find its end, without an error? */
  predicate ReadsThrough(left: nat, calls: seq<ReadCall>) {
    calls == [] ||
    (calls[0].Brings? && (left == 0 || ReadsThrough(if calls[0].n < left then left - calls[0].n else 0, calls[1..])))
  }

  predicate CanRead(left: nat, r: Reads) {
    r.opens && ReadsThrough(left, r.calls)
  }

  /** What the first `k` reads could bring. */
  function BroughtBy(calls: seq<ReadCall>, k: nat): nat
    requires k <= |calls|
  {
    if k == 0 then 0 else (if calls[0].Brings? then calls[0].n else 0) + BroughtBy(calls[1..], k - 1)
  }

  /** Is the read at `i` made? The first is; a later one if the read before it was not at the end. */
  predicate Made(left: nat, calls: seq<ReadCall>, i: nat)
    requires i < |calls|
  {
    i == 0 || BroughtBy(calls, i - 1) < left
  }

  /** The file is read through exactly when every read that is made works, the one that finds the end
      included. */
  lemma {:induction false} ReadsThroughIff(left: nat, calls: seq<ReadCall>)
    ensures ReadsThrough(left, calls) <==> forall i :: 0 <= i < |calls| && Made(left, calls, i) ==> calls[i].Brings?
    decreases |calls|
  {
    if calls != [] && calls[0].Brings? {
      var less := if calls[0].n < left then left - calls[0].n else 0;
      ReadsThroughIff(less, calls[1..]);
      if left > 0 {
        forall i | 1 <= i < |calls|
          ensures Made(left, calls, i) <==> i == 1 || Made(less, calls[1..], i - 1)
          ensures calls[i] == calls[1..][i - 1]
        {
          if i > 1 {
            assert BroughtBy(calls, i - 1) == calls[0].n + BroughtBy(calls[1..], i - 2);
          }
        }
      }
    } else if calls != [] {
      assert Made(left, calls, 0);
    }
  }

  lemma ReadsOn(left: nat, calls: seq<ReadCall>)
    ensures calls == [] ==> forall k: nat :: ReadsThrough(k, calls)
    ensures calls != [] ==>
              if calls[0].Fails? then !ReadsThrough(left, calls)
              else if left == 0 then ReadsThrough(left, calls)
              else ReadsThrough(left, calls) == ReadsThrough(if calls[0].n < left then left - calls[0].n else 0, calls[1..])
  {
  }

  lemma PastIs(file: seq<bv8>, offset: nat)
    ensures var start := if offset < |file| then offset else |file|;
            Past(file, offset) == file[start..] && file[start..|file|] == file[start..] && file[start..start] == []
  {
  }

  /** compute_md5 over the bytes past `offset`, for any splitting of them by read(), whose last call finds
      the end of the file. */
  method ComputeMd5(file: seq<bv8>, offset: nat, reading: Reads) returns (ok: bool, digest: seq<bv8>)
    requires forall c :: c in reading.calls && c.Brings? ==> 0 < c.n <= 16 * 1024
    ensures ok == CanRead(|Past(file, offset)|, reading)
    ensures ok ==> digest == Digest(Past(file, offset))
  {
    hide Digest, Context.Valid, Blocks, ReadsThrough, Holds, Counts, Past, NeverWraps;
    if !reading.opens {
      return false, [];
    }
    PastIs(file, offset);
    var c := new Context();
    var at := if offset < |file| then offset else |file|;
    ghost var start := at;
    var rest := reading.calls;
    while true
      invariant start <= at <= |file| && c.Valid() && c.fed == file[start..at]
      invariant fresh(c) && fresh(c.buffer)
      invariant forall c :: c in rest && c.Brings? ==> 0 < c.n <= 16 * 1024
      invariant ReadsThrough(|file| - at, rest) == ReadsThrough(|Past(file, offset)|, reading.calls)
      decreases |file| - at
    {
      var want := 16 * 1024;
      ReadsOn(|file| - at, rest);
      if rest != [] {
        match rest[0] {
          case Fails => return false, [];
          case Brings(n) => want := n;
        }
        rest := rest[1..];
      }
      if at == |file| {
        break;
      }
      var got := if want < |file| - at then want else |file| - at;
      assert file[start..at + got] == file[start..at] + file[at..at + got];
      ShortNeverWraps(|c.fed| % 64, got);
      c.Update(file[at..at + got]);
      at := at + got;
    }
    assert c.fed == Past(file, offset);
    digest := c.Final();
    ok := true;
  }

  /** The bytes of a file past an offset; none if the offset lies beyond its end. */
  function Past(file: seq<bv8>, offset: nat): seq<bv8> {
    if offset < |file| then file[offset..] else []
  }
}
