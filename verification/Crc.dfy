/** usFirmware.c: the table-driven CRC-32, against the bit-serial CRC of the polynomial of section 8 of
    RFC 1952 (reflected, without that format's complements). */
module Crc {

  const POLY: bv32 := 0xEDB88320

  // ----- The definition: one bit at a time

  function Bit(v: bv32): bv32 {
    if v & 1 == 1 then (v >> 1) ^ POLY else v >> 1
  }

  function Bits8(v: bv32): bv32 {
    Bit(Bit(Bit(Bit(Bit(Bit(Bit(Bit(v))))))))
  }

  function Xor(a: bv32, b: bv32): bv32 {
    a ^ b
  }

  function Up8(v: bv32): bv32 {
    v << 8
  }

  function Wide(b: bv8): bv32 {
    b as bv32
  }

  function BitSerial(val: bv32, data: seq<bv8>): bv32
    decreases |data|
  {
    if data == [] then val else BitSerial(Bits8(Xor(val, Wide(data[0]))), data[1..])
  }

  // ----- crc32_table, sixteen entries a row: each entry is eight steps of the definition

  function Row0(lo: bv8): (r: bv32)
    requires lo < 16
    ensures r == Bits8(0x00 | lo as bv32)
  {
    match lo
    case 0 => 0x00000000 case 1 => 0x77073096 case 2 => 0xee0e612c case 3 => 0x990951ba
    case 4 => 0x076dc419 case 5 => 0x706af48f case 6 => 0xe963a535 case 7 => 0x9e6495a3
    case 8 => 0x0edb8832 case 9 => 0x79dcb8a4 case 10 => 0xe0d5e91e case 11 => 0x97d2d988
    case 12 => 0x09b64c2b case 13 => 0x7eb17cbd case 14 => 0xe7b82d07 case _ => 0x90bf1d91
  }

  function Row1(lo: bv8): (r: bv32)
    requires lo < 16
    ensures r == Bits8(0x10 | lo as bv32)
  {
    match lo
    case 0 => 0x1db71064 case 1 => 0x6ab020f2 case 2 => 0xf3b97148 case 3 => 0x84be41de
    case 4 => 0x1adad47d case 5 => 0x6ddde4eb case 6 => 0xf4d4b551 case 7 => 0x83d385c7
    case 8 => 0x136c9856 case 9 => 0x646ba8c0 case 10 => 0xfd62f97a case 11 => 0x8a65c9ec
    case 12 => 0x14015c4f case 13 => 0x63066cd9 case 14 => 0xfa0f3d63 case _ => 0x8d080df5
  }

  function Row2(lo: bv8): (r: bv32)
    requires lo < 16
    ensures r == Bits8(0x20 | lo as bv32)
  {
    match lo
    case 0 => 0x3b6e20c8 case 1 => 0x4c69105e case 2 => 0xd56041e4 case 3 => 0xa2677172
    case 4 => 0x3c03e4d1 case 5 => 0x4b04d447 case 6 => 0xd20d85fd case 7 => 0xa50ab56b
    case 8 => 0x35b5a8fa case 9 => 0x42b2986c case 10 => 0xdbbbc9d6 case 11 => 0xacbcf940
    case 12 => 0x32d86ce3 case 13 => 0x45df5c75 case 14 => 0xdcd60dcf case _ => 0xabd13d59
  }

  function Row3(lo: bv8): (r: bv32)
    requires lo < 16
    ensures r == Bits8(0x30 | lo as bv32)
  {
    match lo
    case 0 => 0x26d930ac case 1 => 0x51de003a case 2 => 0xc8d75180 case 3 => 0xbfd06116
    case 4 => 0x21b4f4b5 case 5 => 0x56b3c423 case 6 => 0xcfba9599 case 7 => 0xb8bda50f
    case 8 => 0x2802b89e case 9 => 0x5f058808 case 10 => 0xc60cd9b2 case 11 => 0xb10be924
    case 12 => 0x2f6f7c87 case 13 => 0x58684c11 case 14 => 0xc1611dab case _ => 0xb6662d3d
  }

  function Row4(lo: bv8): (r: bv32)
    requires lo < 16
    ensures r == Bits8(0x40 | lo as bv32)
  {
    match lo
    case 0 => 0x76dc4190 case 1 => 0x01db7106 case 2 => 0x98d220bc case 3 => 0xefd5102a
    case 4 => 0x71b18589 case 5 => 0x06b6b51f case 6 => 0x9fbfe4a5 case 7 => 0xe8b8d433
    case 8 => 0x7807c9a2 case 9 => 0x0f00f934 case 10 => 0x9609a88e case 11 => 0xe10e9818
    case 12 => 0x7f6a0dbb case 13 => 0x086d3d2d case 14 => 0x91646c97 case _ => 0xe6635c01
  }

  function Row5(lo: bv8): (r: bv32)
    requires lo < 16
    ensures r == Bits8(0x50 | lo as bv32)
  {
    match lo
    case 0 => 0x6b6b51f4 case 1 => 0x1c6c6162 case 2 => 0x856530d8 case 3 => 0xf262004e
    case 4 => 0x6c0695ed case 5 => 0x1b01a57b case 6 => 0x8208f4c1 case 7 => 0xf50fc457
    case 8 => 0x65b0d9c6 case 9 => 0x12b7e950 case 10 => 0x8bbeb8ea case 11 => 0xfcb9887c
    case 12 => 0x62dd1ddf case 13 => 0x15da2d49 case 14 => 0x8cd37cf3 case _ => 0xfbd44c65
  }

  function Row6(lo: bv8): (r: bv32)
    requires lo < 16
    ensures r == Bits8(0x60 | lo as bv32)
  {
    match lo
    case 0 => 0x4db26158 case 1 => 0x3ab551ce case 2 => 0xa3bc0074 case 3 => 0xd4bb30e2
    case 4 => 0x4adfa541 case 5 => 0x3dd895d7 case 6 => 0xa4d1c46d case 7 => 0xd3d6f4fb
    case 8 => 0x4369e96a case 9 => 0x346ed9fc case 10 => 0xad678846 case 11 => 0xda60b8d0
    case 12 => 0x44042d73 case 13 => 0x33031de5 case 14 => 0xaa0a4c5f case _ => 0xdd0d7cc9
  }

  function Row7(lo: bv8): (r: bv32)
    requires lo < 16
    ensures r == Bits8(0x70 | lo as bv32)
  {
    match lo
    case 0 => 0x5005713c case 1 => 0x270241aa case 2 => 0xbe0b1010 case 3 => 0xc90c2086
    case 4 => 0x5768b525 case 5 => 0x206f85b3 case 6 => 0xb966d409 case 7 => 0xce61e49f
    case 8 => 0x5edef90e case 9 => 0x29d9c998 case 10 => 0xb0d09822 case 11 => 0xc7d7a8b4
    case 12 => 0x59b33d17 case 13 => 0x2eb40d81 case 14 => 0xb7bd5c3b case _ => 0xc0ba6cad
  }

  function Row8(lo: bv8): (r: bv32)
    requires lo < 16
    ensures r == Bits8(0x80 | lo as bv32)
  {
    match lo
    case 0 => 0xedb88320 case 1 => 0x9abfb3b6 case 2 => 0x03b6e20c case 3 => 0x74b1d29a
    case 4 => 0xead54739 case 5 => 0x9dd277af case 6 => 0x04db2615 case 7 => 0x73dc1683
    case 8 => 0xe3630b12 case 9 => 0x94643b84 case 10 => 0x0d6d6a3e case 11 => 0x7a6a5aa8
    case 12 => 0xe40ecf0b case 13 => 0x9309ff9d case 14 => 0x0a00ae27 case _ => 0x7d079eb1
  }

  function Row9(lo: bv8): (r: bv32)
    requires lo < 16
    ensures r == Bits8(0x90 | lo as bv32)
  {
    match lo
    case 0 => 0xf00f9344 case 1 => 0x8708a3d2 case 2 => 0x1e01f268 case 3 => 0x6906c2fe
    case 4 => 0xf762575d case 5 => 0x806567cb case 6 => 0x196c3671 case 7 => 0x6e6b06e7
    case 8 => 0xfed41b76 case 9 => 0x89d32be0 case 10 => 0x10da7a5a case 11 => 0x67dd4acc
    case 12 => 0xf9b9df6f case 13 => 0x8ebeeff9 case 14 => 0x17b7be43 case _ => 0x60b08ed5
  }

  function RowA(lo: bv8): (r: bv32)
    requires lo < 16
    ensures r == Bits8(0xA0 | lo as bv32)
  {
    match lo
    case 0 => 0xd6d6a3e8 case 1 => 0xa1d1937e case 2 => 0x38d8c2c4 case 3 => 0x4fdff252
    case 4 => 0xd1bb67f1 case 5 => 0xa6bc5767 case 6 => 0x3fb506dd case 7 => 0x48b2364b
    case 8 => 0xd80d2bda case 9 => 0xaf0a1b4c case 10 => 0x36034af6 case 11 => 0x41047a60
    case 12 => 0xdf60efc3 case 13 => 0xa867df55 case 14 => 0x316e8eef case _ => 0x4669be79
  }

  function RowB(lo: bv8): (r: bv32)
    requires lo < 16
    ensures r == Bits8(0xB0 | lo as bv32)
  {
    match lo
    case 0 => 0xcb61b38c case 1 => 0xbc66831a case 2 => 0x256fd2a0 case 3 => 0x5268e236
    case 4 => 0xcc0c7795 case 5 => 0xbb0b4703 case 6 => 0x220216b9 case 7 => 0x5505262f
    case 8 => 0xc5ba3bbe case 9 => 0xb2bd0b28 case 10 => 0x2bb45a92 case 11 => 0x5cb36a04
    case 12 => 0xc2d7ffa7 case 13 => 0xb5d0cf31 case 14 => 0x2cd99e8b case _ => 0x5bdeae1d
  }

  function RowC(lo: bv8): (r: bv32)
    requires lo < 16
    ensures r == Bits8(0xC0 | lo as bv32)
  {
    match lo
    case 0 => 0x9b64c2b0 case 1 => 0xec63f226 case 2 => 0x756aa39c case 3 => 0x026d930a
    case 4 => 0x9c0906a9 case 5 => 0xeb0e363f case 6 => 0x72076785 case 7 => 0x05005713
    case 8 => 0x95bf4a82 case 9 => 0xe2b87a14 case 10 => 0x7bb12bae case 11 => 0x0cb61b38
    case 12 => 0x92d28e9b case 13 => 0xe5d5be0d case 14 => 0x7cdcefb7 case _ => 0x0bdbdf21
  }

  function RowD(lo: bv8): (r: bv32)
    requires lo < 16
    ensures r == Bits8(0xD0 | lo as bv32)
  {
    match lo
    case 0 => 0x86d3d2d4 case 1 => 0xf1d4e242 case 2 => 0x68ddb3f8 case 3 => 0x1fda836e
    case 4 => 0x81be16cd case 5 => 0xf6b9265b case 6 => 0x6fb077e1 case 7 => 0x18b74777
    case 8 => 0x88085ae6 case 9 => 0xff0f6a70 case 10 => 0x66063bca case 11 => 0x11010b5c
    case 12 => 0x8f659eff case 13 => 0xf862ae69 case 14 => 0x616bffd3 case _ => 0x166ccf45
  }

  function RowE(lo: bv8): (r: bv32)
    requires lo < 16
    ensures r == Bits8(0xE0 | lo as bv32)
  {
    match lo
    case 0 => 0xa00ae278 case 1 => 0xd70dd2ee case 2 => 0x4e048354 case 3 => 0x3903b3c2
    case 4 => 0xa7672661 case 5 => 0xd06016f7 case 6 => 0x4969474d case 7 => 0x3e6e77db
    case 8 => 0xaed16a4a case 9 => 0xd9d65adc case 10 => 0x40df0b66 case 11 => 0x37d83bf0
    case 12 => 0xa9bcae53 case 13 => 0xdebb9ec5 case 14 => 0x47b2cf7f case _ => 0x30b5ffe9
  }

  function RowF(lo: bv8): (r: bv32)
    requires lo < 16
    ensures r == Bits8(0xF0 | lo as bv32)
  {
    match lo
    case 0 => 0xbdbdf21c case 1 => 0xcabac28a case 2 => 0x53b39330 case 3 => 0x24b4a3a6
    case 4 => 0xbad03605 case 5 => 0xcdd70693 case 6 => 0x54de5729 case 7 => 0x23d967bf
    case 8 => 0xb3667a2e case 9 => 0xc4614ab8 case 10 => 0x5d681b02 case 11 => 0x2a6f2b94
    case 12 => 0xb40bbe37 case 13 => 0xc30c8ea1 case 14 => 0x5a05df1b case _ => 0x2d02ef8d
  }

  /** crc32_table. */
  function Table(b: bv8): (r: bv32)
    ensures r == Bits8(Wide(b))
  {
    var lo := b & 15;
    match b >> 4
    case 0 => Row0(lo)
    case 1 => Row1(lo)
    case 2 => Row2(lo)
    case 3 => Row3(lo)
    case 4 => Row4(lo)
    case 5 => Row5(lo)
    case 6 => Row6(lo)
    case 7 => Row7(lo)
    case 8 => Row8(lo)
    case 9 => Row9(lo)
    case 10 => RowA(lo)
    case 11 => RowB(lo)
    case 12 => RowC(lo)
    case 13 => RowD(lo)
    case 14 => RowE(lo)
    case _ => RowF(lo)
  }

  // ----- XOR algebra, one fact at a time

  lemma XorAssoc(a: bv32, b: bv32, c: bv32)
    ensures Xor(Xor(a, b), c) == Xor(a, Xor(b, c))
  {
    assert (a ^ b) ^ c == a ^ (b ^ c);
  }

  lemma XorComm(a: bv32, b: bv32)
    ensures Xor(a, b) == Xor(b, a)
  {
  }

  lemma XorCancels(a: bv32, b: bv32)
    ensures Xor(Xor(a, b), b) == a && Xor(a, Xor(a, b)) == b && Xor(a, 0) == a
  {
  }

  lemma XorPairs(a: bv32, b: bv32, c: bv32, d: bv32)
    ensures Xor(Xor(a, b), Xor(c, d)) == Xor(Xor(a, c), Xor(b, d))
  {
    hide Xor;
    calc {
      Xor(Xor(a, b), Xor(c, d));
      { XorAssoc(a, b, Xor(c, d)); XorAssoc(b, c, d); }
      Xor(a, Xor(Xor(b, c), d));
      { XorComm(b, c); }
      Xor(a, Xor(Xor(c, b), d));
      { XorAssoc(c, b, d); XorAssoc(a, c, Xor(b, d)); }
      Xor(Xor(a, c), Xor(b, d));
    }
  }

  // ----- Linearity of the steps

  lemma HalfLinear(v: bv32, w: bv32)
    ensures Xor(v, w) >> 1 == Xor(v >> 1, w >> 1)
  {
    calc {
      Xor(v, w) >> 1;
      (v ^ w) >> 1;
      (v >> 1) ^ (w >> 1);
      Xor(v >> 1, w >> 1);
    }
  }

  lemma LowLinear(v: bv32, w: bv32)
    ensures Xor(v, w) & 1 == Xor(v & 1, w & 1)
  {
    calc {
      Xor(v, w) & 1;
      (v ^ w) & 1;
      (v & 1) ^ (w & 1);
      Xor(v & 1, w & 1);
    }
  }

  lemma LowBit(v: bv32)
    ensures v & 1 == 0 || v & 1 == 1
  {
  }

  /** One step, in terms of the low bit and the rest. */
  lemma BitIs(v: bv32)
    ensures Bit(v) == Xor(v >> 1, if v & 1 == 1 then POLY else 0)
  {
    if v & 1 != 1 {
      XorCancels(v >> 1, 0);
    }
  }

  lemma PolyLinear(a: bv32, b: bv32)
    requires (a == 0 || a == 1) && (b == 0 || b == 1)
    ensures (if Xor(a, b) == 1 then POLY else 0) == Xor(if a == 1 then POLY else 0, if b == 1 then POLY else 0)
  {
  }

  lemma BitLinear(v: bv32, w: bv32)
    ensures Bit(Xor(v, w)) == Xor(Bit(v), Bit(w))
  {
    hide Bit, Xor;
    BitIs(v);
    BitIs(w);
    BitIs(Xor(v, w));
    HalfLinear(v, w);
    LowLinear(v, w);
    LowBit(v);
    LowBit(w);
    PolyLinear(v & 1, w & 1);
    XorPairs(v >> 1, if v & 1 == 1 then POLY else 0, w >> 1, if w & 1 == 1 then POLY else 0);
  }

  lemma Bits8Linear(v: bv32, w: bv32)
    ensures Bits8(Xor(v, w)) == Xor(Bits8(v), Bits8(w))
  {
    hide Bit, Xor;
    var v1, w1 := Bit(v), Bit(w);
    var v2, w2 := Bit(v1), Bit(w1);
    var v3, w3 := Bit(v2), Bit(w2);
    var v4, w4 := Bit(v3), Bit(w3);
    var v5, w5 := Bit(v4), Bit(w4);
    var v6, w6 := Bit(v5), Bit(w5);
    BitLinear(v, w);
    BitLinear(v1, w1);
    BitLinear(v2, w2);
    BitLinear(v3, w3);
    BitLinear(v4, w4);
    BitLinear(v5, w5);
    BitLinear(v6, w6);
    BitLinear(Bit(v6), Bit(w6));
  }

  /** A word of at most `n` bytes. */
  predicate Fits(n: nat, w: bv32) {
    match n
    case 0 => w == 0
    case 1 => w >> 8 == 0
    case 2 => w >> 16 == 0
    case 3 => w >> 24 == 0
    case _ => true
  }

  lemma ShiftsOut(high: bv32)
    requires Fits(3, high)
    ensures Bits8(Up8(high)) == high
  {
  }

  /** Eight steps only shift bits that are eight places up. */
  lemma Bits8Shifted(low: bv32, high: bv32)
    requires Fits(3, high)
    ensures Bits8(Xor(low, Up8(high))) == Xor(Bits8(low), high)
  {
    hide Bits8, Xor, Up8, Fits;
    Bits8Linear(low, Up8(high));
    ShiftsOut(high);
  }

  // ----- crc32

  lemma LowAndHigh(val: bv32, b: bv8)
    ensures var v := Xor(val, Wide(b));
            && v == Xor(Wide(((val ^ b as bv32) & 0xff) as bv8), Up8(val >> 8)) && Fits(3, val >> 8)
  {
  }

  /** The table step: the low byte goes through the table, the rest shifts down. */
  lemma TableStep(val: bv32, b: bv8)
    ensures Xor(Table(((val ^ b as bv32) & 0xff) as bv8), val >> 8) == Bits8(Xor(val, Wide(b)))
  {
    hide Table, Bits8, Xor, Up8, Fits;
    LowAndHigh(val, b);
    Bits8Shifted(Wide(((val ^ b as bv32) & 0xff) as bv8), val >> 8);
  }

  /** crc32 equals the bit-serial CRC for every seed and every length. */
  method Crc32(val: bv32, s: array<bv8>, len: nat) returns (r: bv32)
    requires len <= s.Length
    ensures r == BitSerial(val, s[..len])
  {
    hide Table, Bits8, Xor, Wide, BitSerial;
    r := val;
    Unchecked(val);
    var i := 0;
    while i < len
      invariant 0 <= i <= len && r == BitSerial(val, s[..i])
    {
      TableStep(r, s[i]);
      OneMore(r, s[i], []);
      Unchecked(Bits8(Xor(r, Wide(s[i]))));
      Composes(val, s[..i], [s[i]]);
      assert s[..i + 1] == s[..i] + [s[i]] && [s[i]] == [s[i]] + [];
      r := Xor(Table(((r ^ s[i] as bv32) & 0xff) as bv8), r >> 8);
      i := i + 1;
    }
  }

  lemma Unchecked(val: bv32)
    ensures BitSerial(val, []) == val
  {
  }

  lemma OneMore(val: bv32, b: bv8, data: seq<bv8>)
    ensures BitSerial(val, [b] + data) == BitSerial(Bits8(Xor(val, Wide(b))), data)
  {
    hide Bits8, Xor, Wide;
    assert ([b] + data)[1..] == data;
  }

  /** The checksum of a whole is the checksum of its second part seeded with that of its first. */
  lemma {:induction false} Composes(val: bv32, a: seq<bv8>, b: seq<bv8>)
    ensures BitSerial(val, a + b) == BitSerial(BitSerial(val, a), b)
    decreases |a|
  {
    hide Bits8, Xor, Wide;
    if a == [] {
      assert a + b == b;
    } else {
      Composes(Bits8(Xor(val, Wide(a[0]))), a[1..], b);
      assert a + b == [a[0]] + (a[1..] + b);
      OneMore(val, a[0], a[1..] + b);
    }
  }

  function XorBytes(a: seq<bv8>, b: seq<bv8>): (r: seq<bv8>)
    requires |a| == |b|
    ensures |r| == |a|
    decreases |a|
  {
    if a == [] then [] else [a[0] ^ b[0]] + XorBytes(a[1..], b[1..])
  }

  lemma WideXor(a: bv8, b: bv8)
    ensures Wide(a ^ b) == Xor(Wide(a), Wide(b))
  {
  }

  /** The checksum is XOR-linear in the seed and the data together. */
  lemma {:induction false} Linear(v: bv32, w: bv32, a: seq<bv8>, b: seq<bv8>)
    requires |a| == |b|
    ensures BitSerial(Xor(v, w), XorBytes(a, b)) == Xor(BitSerial(v, a), BitSerial(w, b))
    decreases |a|
  {
    hide Bits8, Xor, Wide;
    if a != [] {
      var x, y := Wide(a[0]), Wide(b[0]);
      WideXor(a[0], b[0]);
      XorPairs(v, w, x, y);
      Bits8Linear(Xor(v, x), Xor(w, y));
      Linear(Bits8(Xor(v, x)), Bits8(Xor(w, y)), a[1..], b[1..]);
      OneMore(Xor(v, w), a[0] ^ b[0], XorBytes(a[1..], b[1..]));
    }
  }

  // ----- Error detection

  lemma BitInjective(v: bv32, w: bv32)
    requires Bit(v) == Bit(w)
    ensures v == w
  {
  }

  lemma Bits8Injective(v: bv32, w: bv32)
    requires Bits8(v) == Bits8(w)
    ensures v == w
  {
    hide Bit;
    var v1, w1 := Bit(v), Bit(w);
    var v2, w2 := Bit(v1), Bit(w1);
    var v3, w3 := Bit(v2), Bit(w2);
    var v4, w4 := Bit(v3), Bit(w3);
    var v5, w5 := Bit(v4), Bit(w4);
    var v6, w6 := Bit(v5), Bit(w5);
    BitInjective(Bit(v6), Bit(w6));
    BitInjective(v6, w6);
    BitInjective(v5, w5);
    BitInjective(v4, w4);
    BitInjective(v3, w3);
    BitInjective(v2, w2);
    BitInjective(v1, w1);
    BitInjective(v, w);
  }

  /** Different states stay different over the same data. */
  lemma {:induction false} SeedInjective(v: bv32, w: bv32, data: seq<bv8>)
    requires BitSerial(v, data) == BitSerial(w, data)
    ensures v == w
    decreases |data|
  {
    hide Bits8, Xor, Wide;
    if data != [] {
      var b := Wide(data[0]);
      SeedInjective(Bits8(Xor(v, b)), Bits8(Xor(w, b)), data[1..]);
      Bits8Injective(Xor(v, b), Xor(w, b));
      XorCancels(v, b);
      XorCancels(w, b);
    }
  }

  /** Up to four bytes as a little-endian word. */
  function Word(x: seq<bv8>): (r: bv32)
    requires |x| <= 4
    decreases |x|
  {
    if x == [] then 0 else Xor(Wide(x[0]), Up8(Word(x[1..])))
  }

  function Bits8Times(n: nat, v: bv32): bv32 {
    if n == 0 then v else Bits8Times(n - 1, Bits8(v))
  }

  lemma FitsMore(n: nat, b: bv8, w: bv32)
    requires Fits(n, w)
    ensures Fits(n + 1, Xor(Wide(b), Up8(w)))
  {
  }

  lemma FitsThree(n: nat, w: bv32)
    requires Fits(n, w) && n <= 3
    ensures Fits(3, w)
  {
  }

  lemma NothingFits()
    ensures Fits(0, 0)
  {
  }

  lemma {:induction false} WordFits(x: seq<bv8>)
    requires |x| <= 4
    ensures Fits(|x|, Word(x))
    decreases |x|
  {
    hide Fits, Xor, Wide, Up8;
    if x == [] {
      NothingFits();
    } else {
      WordFits(x[1..]);
      FitsMore(|x| - 1, x[0], Word(x[1..]));
    }
  }

  lemma WordParts(b: bv8, w: bv32, c: bv8, v: bv32)
    requires Fits(3, w) && Fits(3, v) && Xor(Wide(b), Up8(w)) == Xor(Wide(c), Up8(v))
    ensures b == c && w == v
  {
  }

  lemma {:induction false} WordInjective(x: seq<bv8>, y: seq<bv8>)
    requires |x| == |y| <= 4 && Word(x) == Word(y)
    ensures x == y
    decreases |x|
  {
    hide Fits, Xor, Wide, Up8;
    if x != [] {
      var n := |x| - 1;
      WordFits(x[1..]);
      WordFits(y[1..]);
      FitsThree(n, Word(x[1..]));
      FitsThree(n, Word(y[1..]));
      WordParts(x[0], Word(x[1..]), y[0], Word(y[1..]));
      WordInjective(x[1..], y[1..]);
      assert x == [x[0]] + x[1..] && y == [y[0]] + y[1..];
    }
  }

  /** Up to four bytes enter the checksum as one word. */
  lemma {:induction false} AsWord(v: bv32, x: seq<bv8>)
    requires |x| <= 4
    ensures BitSerial(v, x) == Bits8Times(|x|, Xor(v, Word(x)))
    decreases |x|
  {
    hide Bits8, Fits, Xor, Wide, Up8;
    if x == [] {
      XorCancels(v, 0);
    } else {
      var low, high := Xor(v, Wide(x[0])), Word(x[1..]);
      WordFits(x[1..]);
      FitsThree(|x| - 1, high);
      AsWord(Bits8(low), x[1..]);
      Bits8Shifted(low, high);
      XorAssoc(v, Wide(x[0]), Up8(high));
    }
  }

  lemma {:induction false} TimesInjective(n: nat, v: bv32, w: bv32)
    requires Bits8Times(n, v) == Bits8Times(n, w)
    ensures v == w
  {
    hide Bits8;
    if n > 0 {
      TimesInjective(n - 1, Bits8(v), Bits8(w));
      Bits8Injective(v, w);
    }
  }

  /** Any change confined to four adjacent bytes, a change of one byte in particular, changes the
      checksum. */
  lemma BurstDetected(val: bv32, pre: seq<bv8>, x: seq<bv8>, y: seq<bv8>, post: seq<bv8>)
    requires |x| == |y| <= 4 && x != y
    ensures BitSerial(val, pre + x + post) != BitSerial(val, pre + y + post)
  {
    hide Word, Bits8Times, BitSerial, Xor;
    var s := BitSerial(val, pre);
    Composes(val, pre + x, post);
    Composes(val, pre + y, post);
    Composes(val, pre, x);
    Composes(val, pre, y);
    if BitSerial(val, pre + x + post) == BitSerial(val, pre + y + post) {
      SeedInjective(BitSerial(s, x), BitSerial(s, y), post);
      AsWord(s, x);
      AsWord(s, y);
      TimesInjective(|x|, Xor(s, Word(x)), Xor(s, Word(y)));
      XorCancels(s, Word(x));
      XorCancels(s, Word(y));
      WordInjective(x, y);
    }
  }
}
