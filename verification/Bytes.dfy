/** Bytes, fixed-width integers and their big-endian form. */
module Bytes {
  type byte = x: int | 0 <= x < 0x100
  type u16 = x: int | 0 <= x < 0x1_0000
  type u32 = x: int | 0 <= x < 0x1_0000_0000

  const MAX_U32: u32 := 0xFFFF_FFFF

  /** Conversions that keep the low bits only. */
  function ToU16(n: int): (r: u16)
    ensures 0 <= n < 0x1_0000 ==> r == n
  {
    n % 0x1_0000
  }

  function ToU32(n: int): (r: u32)
    ensures 0 <= n < 0x1_0000_0000 ==> r == n
  {
    n % 0x1_0000_0000
  }

  lemma ToU32Next(n: nat)
    ensures ToU32(ToU32(n) + 1) == ToU32(n + 1)
  {
  }

  /** The big-endian form of `n` in `width` bytes, and its value. */
  function Be(n: nat, width: nat): (b: seq<byte>)
    ensures |b| == width
  {
    if width == 0 then [] else Be(n / 0x100, width - 1) + [n % 0x100]
  }

  function FromBe(b: seq<byte>): nat {
    if b == [] then 0 else FromBe(b[..|b| - 1]) * 0x100 + b[|b| - 1]
  }

  /** How many numbers `width` bytes can hold. */
  function Range(width: nat): nat {
    if width == 0 then 1 else Range(width - 1) * 0x100
  }

  lemma {:induction false} BeRoundTrip(n: nat, width: nat)
    requires n < Range(width)
    ensures FromBe(Be(n, width)) == n
  {
    if width > 0 {
      BeRoundTrip(n / 0x100, width - 1);
      assert Be(n, width)[..width - 1] == Be(n / 0x100, width - 1);
    }
  }

  lemma {:induction false} FromBeInRange(b: seq<byte>)
    ensures FromBe(b) < Range(|b|)
    decreases |b|
  {
    if b != [] {
      FromBeInRange(b[..|b| - 1]);
    }
  }

  function Be16(n: u16): seq<byte> { Be(n, 2) }

  function Be32(n: u32): seq<byte> { Be(n, 4) }

  function FromBe16(b: seq<byte>): u16
    requires |b| == 2
  {
    FromBeInRange(b);
    assert Range(2) == 0x1_0000;
    FromBe(b)
  }

  function FromBe32(b: seq<byte>): u32
    requires |b| == 4
  {
    FromBeInRange(b);
    assert Range(4) == 0x1_0000_0000;
    FromBe(b)
  }

  // ---------- the order of the bytes ----------

  /** Most significant byte first. */
  predicate IsBe16(b: seq<byte>, n: u16) {
    |b| == 2 && b[0] == n / 0x100 && b[1] == n % 0x100
  }

  predicate IsBe32(b: seq<byte>, n: u32) {
    && |b| == 4
    && b[0] == n / 0x100_0000 && b[1] == n / 0x1_0000 % 0x100 && b[2] == n / 0x100 % 0x100 && b[3] == n % 0x100
  }

  lemma BeStep(n: nat, width: nat)
    ensures Be(n, width + 1) == Be(n / 0x100, width) + [n % 0x100]
  {
  }

  lemma Be16Bytes(n: u16)
    ensures IsBe16(Be16(n), n)
  {
    BeStep(n, 1);
    BeStep(n / 0x100, 0);
  }

  lemma Be32Bytes(n: u32)
    ensures IsBe32(Be32(n), n)
  {
    BeStep(n, 3);
    BeStep(n / 0x100, 2);
    BeStep(n / 0x1_0000, 1);
    BeStep(n / 0x100_0000, 0);
    assert n / 0x100 / 0x100 == n / 0x1_0000 && n / 0x1_0000 / 0x100 == n / 0x100_0000;
  }

  lemma FromBeStep(b: seq<byte>)
    requires b != []
    ensures FromBe(b) == FromBe(b[..|b| - 1]) * 0x100 + b[|b| - 1]
  {
  }

  lemma FromBe16Bytes(b: seq<byte>)
    requires |b| == 2
    ensures FromBe16(b) == b[0] as int * 0x100 + b[1] && IsBe16(b, FromBe16(b))
  {
    FromBeStep(b);
    FromBeStep(b[..1]);
  }

  lemma FromBe32Value(b: seq<byte>)
    requires |b| == 4
    ensures FromBe32(b) == ((b[0] as int * 0x100 + b[1]) * 0x100 + b[2]) * 0x100 + b[3]
  {
    FromBeStep(b);
    FromBeStep(b[..3]);
    FromBeStep(b[..2]);
    FromBeStep(b[..1]);
    assert b[..3][..2] == b[..2] && b[..2][..1] == b[..1];
  }

  lemma LastByte(x: nat, y: byte)
    ensures (x * 0x100 + y) / 0x100 == x && (x * 0x100 + y) % 0x100 == y
  {
  }

  lemma FourBytes(n: nat)
    ensures n / 0x1_0000 == n / 0x100 / 0x100 && n / 0x100_0000 == n / 0x100 / 0x100 / 0x100
  {
  }

  lemma FromBe32Bytes(b: seq<byte>)
    requires |b| == 4
    ensures FromBe32(b) == b[0] as int * 0x100_0000 + b[1] as int * 0x1_0000 + b[2] as int * 0x100 + b[3]
    ensures IsBe32(b, FromBe32(b))
  {
    FromBe32Value(b);
    FourBytes(FromBe32(b));
    LastByte(b[0], b[1]);
    LastByte(b[0] as int * 0x100 + b[1], b[2]);
    LastByte((b[0] as int * 0x100 + b[1]) * 0x100 + b[2], b[3]);
  }

  lemma Be16RoundTrip(n: u16)
    ensures FromBe16(Be16(n)) == n
  {
    assert Range(2) == 0x1_0000;
    BeRoundTrip(n, 2);
  }

  lemma Be32RoundTrip(n: u32)
    ensures FromBe32(Be32(n)) == n
  {
    assert Range(4) == 0x1_0000_0000;
    BeRoundTrip(n, 4);
  }
}
