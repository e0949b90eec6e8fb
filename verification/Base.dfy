/** Bytes, machine words and the result codes shared by the transport, listing and file modules. */
module Base {

  type byte = x: int | 0 <= x < 0x100
  type u16 = x: int | 0 <= x < 0x1_0000
  type u32 = x: int | 0 <= x < 0x1_0000_0000

  const TWO32: int := 0x1_0000_0000

  /** The codes of usError.h that the modelled functions return. `Undefined` is not a code of the
      program: it marks the inputs on which the C code reads or writes outside its buffers. */
  datatype Status =
    | Ok
    | Arg
    | UsbTimeout | UsbOffline | UsbOverflow | UsbBulkErr
    | DiskOpen | DiskSeek | DiskRead | DiskWrite | DiskList
    | ProConnect | ProVersion | ProRevAck | ProPackage | ProRefuse | ProNoDevice
    | SendFailed
    | Undefined

  function Min(a: int, b: int): int {
    if a < b then a else b
  }

  /** uint32_t addition. */
  function Add32(a: u32, n: nat): u32 {
    (a + n) % TWO32
  }

  function Be16(x: u16): seq<byte> {
    [x / 0x100, x % 0x100]
  }

  function Be32(x: u32): seq<byte> {
    [x / 0x100_0000, x / 0x1_0000 % 0x100, x / 0x100 % 0x100, x % 0x100]
  }

  function Le32(x: u32): (r: seq<byte>)
    ensures |r| == 4
  {
    [x % 0x100, x / 0x100 % 0x100, x / 0x1_0000 % 0x100, x / 0x100_0000]
  }

  /** The big-endian 16-bit field of `s` at offset `i`. */
  function Be16At(s: seq<byte>, i: nat): u16
    requires i + 2 <= |s|
  {
    (s[i] as int) * 0x100 + s[i + 1]
  }

  function Be32At(s: seq<byte>, i: nat): u32
    requires i + 4 <= |s|
  {
    (s[i] as int) * 0x100_0000 + (s[i + 1] as int) * 0x1_0000 + (s[i + 2] as int) * 0x100 + s[i + 3]
  }

  function Le32At(s: seq<byte>, i: nat): u32
    requires i + 4 <= |s|
  {
    (s[i] as int) + (s[i + 1] as int) * 0x100 + (s[i + 2] as int) * 0x1_0000 + (s[i + 3] as int) * 0x100_0000
  }

  lemma Be32RoundTrip(x: u32)
    ensures |Be32(x)| == 4 && Be32At(Be32(x), 0) == x
  {
    Digits(x);
  }

  lemma Digits(x: u32)
    ensures x == x / 0x100_0000 * 0x100_0000 + x / 0x1_0000 % 0x100 * 0x1_0000 + x / 0x100 % 0x100 * 0x100 + x % 0x100
  {
    var a, b := x / 0x100, x / 0x1_0000;
    assert a / 0x100 == b && b / 0x100 == x / 0x100_0000;
  }

  lemma Be16RoundTrip(x: u16)
    ensures |Be16(x)| == 2 && Be16At(Be16(x), 0) == x
  {
  }

  lemma Le32RoundTrip(x: u32)
    ensures |Le32(x)| == 4 && Le32At(Le32(x), 0) == x
  {
    Digits(x);
  }

  lemma Le32Stored(s: seq<byte>, at: nat, x: u32)
    requires at + 4 <= |s| && s[at..at + 4] == Le32(x)
    ensures Le32At(s, at) == x
  {
    hide Le32;
    Le32RoundTrip(x);
    assert Le32At(s, at) == Le32At(s[at..at + 4], 0);
  }

  lemma Le32Same(s: seq<byte>, t: seq<byte>, i: nat)
    requires i + 4 <= |s| && i + 4 <= |t| && forall k :: i <= k < i + 4 ==> s[k] == t[k]
    ensures Le32At(s, i) == Le32At(t, i)
  {
  }

  /** A field reads the same wherever it stands. */
  lemma Be32Inside(pre: seq<byte>, field: seq<byte>, post: seq<byte>)
    requires |field| == 4
    ensures Be32At(pre + field + post, |pre|) == Be32At(field, 0)
  {
  }

  lemma Be16Inside(pre: seq<byte>, field: seq<byte>, post: seq<byte>)
    requires |field| == 2
    ensures Be16At(pre + field + post, |pre|) == Be16At(field, 0)
  {
  }

  /** Two's complement reading of a 32-bit field. */
  function Signed32(x: u32): int {
    if x < 0x8000_0000 then x else x - TWO32
  }

  /** The bytes of a NUL-terminated string. */
  function CString(s: seq<byte>): (name: seq<byte>)
    ensures |name| <= |s|
  {
    if s == [] || s[0] == 0 then [] else [s[0]] + CString(s[1..])
  }

  function Flatten<T>(parts: seq<seq<T>>): seq<T> {
    if parts == [] then [] else parts[0] + Flatten(parts[1..])
  }

  lemma {:induction false} FlattenConcat<T>(a: seq<seq<T>>, b: seq<seq<T>>)
    ensures Flatten(a + b) == Flatten(a) + Flatten(b)
  {
    if a == [] {
      assert a + b == b;
    } else {
      FlattenConcat(a[1..], b);
      assert (a + b)[0] == a[0] && (a + b)[1..] == a[1..] + b;
      assert a[0] + (Flatten(a[1..]) + Flatten(b)) == a[0] + Flatten(a[1..]) + Flatten(b);
    }
  }

  lemma FlattenCons<T>(x: seq<T>, parts: seq<seq<T>>)
    ensures Flatten([x] + parts) == x + Flatten(parts) && Flatten([x]) == x
  {
    assert ([x] + parts)[1..] == parts;
    assert Flatten([x]) == x + Flatten([]);
  }

  /** `s` with `data` written over it from offset `at` on, as memcpy does. */
  function Overlay(s: seq<byte>, at: nat, data: seq<byte>): (r: seq<byte>)
    requires at + |data| <= |s|
    ensures |r| == |s|
  {
    s[..at] + data + s[at + |data|..]
  }

  lemma OverlayNothing(s: seq<byte>, at: nat)
    requires at <= |s|
    ensures Overlay(s, at, []) == s
  {
  }

  lemma OverlayTwice(s: seq<byte>, at: nat, a: seq<byte>, b: seq<byte>)
    requires at + |a| + |b| <= |s|
    ensures Overlay(Overlay(s, at, a), at + |a|, b) == Overlay(s, at, a + b)
  {
  }

  /** memcpy into an array. */
  method Poke(a: array<byte>, at: nat, data: seq<byte>)
    requires at + |data| <= a.Length
    modifies a
    ensures a[..] == Overlay(old(a[..]), at, data)
  {
    var i := 0;
    while i < |data|
      invariant 0 <= i <= |data|
      invariant forall k :: 0 <= k < a.Length ==> a[k] == if at <= k < at + i then data[k - at] else old(a[k])
    {
      a[at + i] := data[i];
      i := i + 1;
    }
  }
}
