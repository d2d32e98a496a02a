/** Fixed-width unsigned words as bounded integers, with every wrap-around written out.
    Exclusive or is taken byte by byte, so that only bytes are converted between integers
    and bit vectors. */
module Words {

  type byte = x: int | 0 <= x < 256
  type u32 = x: int | 0 <= x < 0x1_0000_0000
  type u64 = x: int | 0 <= x < 0x1_0000_0000_0000_0000

  datatype Option<+T> = None | Some(value: T)

  /** 2^n. */
  function Pow2(n: nat): (r: nat)
    ensures r > 0
  {
    if n == 0 then 1 else 2 * Pow2(n - 1)
  }

  lemma {:induction false} Pow2Add(m: nat, n: nat)
    ensures Pow2(m + n) == Pow2(m) * Pow2(n)
  {
    if m == 0 {
    } else {
      Pow2Add(m - 1, n);
      assert Pow2(m + n) == 2 * Pow2(m - 1 + n);
    }
  }

  lemma Pow2Square(n: nat, v: nat)
    requires Pow2(n) == v
    ensures Pow2(2 * n) == v * v
  {
    Pow2Add(n, n);
  }

  lemma Pow2Values()
    ensures Pow2(8) == 256 && Pow2(32) == 0x1_0000_0000 && Pow2(64) == 0x1_0000_0000_0000_0000
  {
    assert Pow2(4) == 16;
    hide Pow2;
    Pow2Square(4, 16);
    Pow2Square(8, 256);
    Pow2Square(16, 65536);
    Pow2Square(32, 0x1_0000_0000);
  }

  /** The byte that eight bits say. */
  function OfBits8(b: bv8): byte { b as int }

  function XorByte(x: byte, y: byte): byte {
    OfBits8((x as bv8) ^ (y as bv8))
  }

  function Xor32(a: u32, b: u32): u32 {
    XorByte(a % 0x100, b % 0x100) + 0x100 * XorByte(a / 0x100 % 0x100, b / 0x100 % 0x100)
    + 0x1_0000 * XorByte(a / 0x1_0000 % 0x100, b / 0x1_0000 % 0x100)
    + 0x100_0000 * XorByte(a / 0x100_0000, b / 0x100_0000)
  }

  function Xor64(a: u64, b: u64): u64 {
    Xor32(Lo(a), Lo(b)) + 0x1_0000_0000 * Xor32(Hi(a), Hi(b))
  }

  function Add64(a: u64, b: u64): u64 { (a + b) % 0x1_0000_0000_0000_0000 }
  function Sub64(a: u64, b: u64): u64 { (a - b) % 0x1_0000_0000_0000_0000 }
  function Mul64(a: u64, b: u64): u64 { Mod64(a * b) }
  function Mod64(a: int): u64 { a % 0x1_0000_0000_0000_0000 }
  function Add32(a: u32, b: u32): u32 { (a + b) % 0x1_0000_0000 }
  function Sub32(a: u32, b: u32): u32 { (a - b) % 0x1_0000_0000 }
  function Mul32(a: u32, b: u32): u32 { Mod32(a * b) }
  function Mod32(a: int): u32 { a % 0x1_0000_0000 }

  /** The low and the high half of a 64-bit word. */
  function Lo(a: u64): u32 { a % 0x1_0000_0000 }
  function Hi(a: u64): u32 { a / 0x1_0000_0000 }

  /** a / 2^r, one bit at a time. */
  function Shr(a: nat, r: nat): (q: nat)
    ensures q <= a
  {
    if r == 0 then a else Shr(a / 2, r - 1)
  }

  /** Rotations are written for the amounts 0 < r < width. */
  function Rotl64(a: u64, r: nat): u64
    requires 0 < r < 64
  {
    Mod64(a * Pow2(r) + Shr(a, 64 - r))
  }

  function Rotl32(a: u32, r: nat): u32
    requires 0 < r < 32
  {
    Mod32(a * Pow2(r) + Shr(a, 32 - r))
  }

  function Shr64(a: u64, r: nat): u64 {
    Shr(a, r)
  }

  function Shr32(a: u32, r: nat): u32 {
    Shr(a, r)
  }

  /** Little-endian reads, at an offset that lies inside the bytes. */
  function ReadLE16(s: seq<byte>, at: nat): (r: nat)
    requires at + 2 <= |s|
    ensures r < 65536
  {
    (s[at] as int) + 256 * (s[at + 1] as int)
  }

  function ReadLE32(s: seq<byte>, at: nat): u32
    requires at + 4 <= |s|
  {
    ReadLE16(s, at) + 65536 * ReadLE16(s, at + 2)
  }

  function ReadLE64(s: seq<byte>, at: nat): u64
    requires at + 8 <= |s|
  {
    ReadLE32(s, at) + 0x1_0000_0000 * ReadLE32(s, at + 4)
  }

  /** Byte i of the little-endian form of v. */
  function ByteOf(v: nat, i: nat): byte {
    Shr(v, 8 * i) % 256
  }

  // ----- laws of the bit operations

  /** A byte is what its eight bits say. */
  lemma ByteOfBits(x: byte)
    ensures OfBits8(x as bv8) == x
  {
  }

  lemma BitsOfByte(t: bv8)
    ensures OfBits8(t) as bv8 == t
  {
  }

  /** Exclusive or: a bit of the result is set exactly where just one of the two bits is. */
  lemma XorByteBit(x: byte, y: byte, j: bv8)
    requires j < 8
    ensures (XorByte(x, y) as bv8 >> j) & 1 == 1 <==> (x as bv8 >> j) & 1 != (y as bv8 >> j) & 1
  {
    BitsOfByte((x as bv8) ^ (y as bv8));
    XorBit(x as bv8, y as bv8, j);
  }

  lemma XorBit(x: bv8, y: bv8, j: bv8)
    requires j < 8
    ensures ((x ^ y) >> j) & 1 == 1 <==> (x >> j) & 1 != (y >> j) & 1
  {
  }

  /** Exclusive or with the same byte twice gives the first byte back. */
  lemma XorByteTwice(x: byte, y: byte)
    ensures XorByte(XorByte(x, y), y) == x
  {
    BitsOfByte((x as bv8) ^ (y as bv8));
    XorCancels(x as bv8, y as bv8);
    ByteOfBits(x);
  }

  lemma XorCancels(x: bv8, y: bv8)
    ensures (x ^ y) ^ y == x
  {
  }

  /** Exclusive or of two words given by their bytes. */
  lemma XorOfBytes(a3: byte, a2: byte, a1: byte, a0: byte, b3: byte, b2: byte, b1: byte, b0: byte)
    ensures Xor32(Of32(a3, a2, a1, a0), Of32(b3, b2, b1, b0)) ==
      Of32(XorByte(a3, b3), XorByte(a2, b2), XorByte(a1, b1), XorByte(a0, b0))
  {
    hide XorByte;
    BytesOf32(a3, a2, a1, a0);
    BytesOf32(b3, b2, b1, b0);
  }

  function Of32(a3: byte, a2: byte, a1: byte, a0: byte): u32 {
    0x100_0000 * (a3 as int) + 0x1_0000 * (a2 as int) + 0x100 * (a1 as int) + a0 as int
  }

  lemma BytesOf32(a3: byte, a2: byte, a1: byte, a0: byte)
    ensures var a := Of32(a3, a2, a1, a0);
            a % 0x100 == a0 && a / 0x100 % 0x100 == a1 && a / 0x1_0000 % 0x100 == a2 && a / 0x100_0000 == a3
  {
    var a := Of32(a3, a2, a1, a0);
    assert a / 0x100 == 0x1_0000 * a3 + 0x100 * a2 + a1;
    assert a / 0x1_0000 == 0x100 * a3 + a2;
  }

  /** The same for whole words: each byte of the result is the exclusive or of the two bytes there, and
      the second exclusive or undoes the first. */
  lemma Xor32Twice(a: u32, b: u32)
    ensures Xor32(Xor32(a, b), b) == a
  {
    hide XorByte, Xor32, Of32;
    AsBytes(a);
    AsBytes(b);
    var a0, a1, a2, a3 := a % 0x100, a / 0x100 % 0x100, a / 0x1_0000 % 0x100, a / 0x100_0000;
    var b0, b1, b2, b3 := b % 0x100, b / 0x100 % 0x100, b / 0x1_0000 % 0x100, b / 0x100_0000;
    XorOfBytes(a3, a2, a1, a0, b3, b2, b1, b0);
    XorOfBytes(XorByte(a3, b3), XorByte(a2, b2), XorByte(a1, b1), XorByte(a0, b0), b3, b2, b1, b0);
    XorByteTwice(a0, b0);
    XorByteTwice(a1, b1);
    XorByteTwice(a2, b2);
    XorByteTwice(a3, b3);
  }

  lemma AsBytes(a: u32)
    ensures a == Of32(a / 0x100_0000, a / 0x1_0000 % 0x100, a / 0x100 % 0x100, a % 0x100)
  {
    assert a / 0x100 / 0x100 == a / 0x1_0000 && a / 0x1_0000 / 0x100 == a / 0x100_0000;
  }

  lemma Xor64Twice(a: u64, b: u64)
    ensures Xor64(Xor64(a, b), b) == a
  {
    hide Xor32;
    Xor32Twice(Lo(a), Lo(b));
    Xor32Twice(Hi(a), Hi(b));
    assert Lo(Xor64(a, b)) == Xor32(Lo(a), Lo(b)) && Hi(Xor64(a, b)) == Xor32(Hi(a), Hi(b));
  }

  /** The word that 64 bits say, by its bytes. */
  ghost function Down8(w: bv64): bv64 { w >> 8 }
  ghost function Down16(w: bv64): bv64 { w >> 16 }
  ghost function Down24(w: bv64): bv64 { w >> 24 }
  ghost function Down32(w: bv64): bv64 { w >> 32 }
  ghost function Byte0(w: bv64): byte { OfBits8((w & 0xFF) as bv8) }
  ghost function Byte1(w: bv64): byte { Byte0(Down8(w)) }
  ghost function Byte2(w: bv64): byte { Byte0(Down16(w)) }
  ghost function Byte3(w: bv64): byte { Byte0(Down24(w)) }
  ghost function OfBits32(w: bv64): u32 { Of32(Byte3(w), Byte2(w), Byte1(w), Byte0(w)) }
  ghost function HighOfBits(w: bv64): u32 { OfBits32(Down32(w)) }
  ghost function OfBits64(w: bv64): u64 { OfBits32(w) + 0x1_0000_0000 * HighOfBits(w) }

  lemma XorOfBits(x: byte, y: byte, a: bv8, b: bv8)
    requires x as bv8 == a && y as bv8 == b
    ensures XorByte(x, y) == OfBits8(a ^ b)
  {
  }

  lemma XorBits8(a: bv8, b: bv8)
    ensures XorByte(OfBits8(a), OfBits8(b)) == OfBits8(a ^ b)
  {
    hide XorByte;
    BitsOfByte(a);
    BitsOfByte(b);
    XorOfBits(OfBits8(a), OfBits8(b), a, b);
  }

  lemma XorByte0(a: bv64, b: bv64)
    ensures XorByte(Byte0(a), Byte0(b)) == Byte0(a ^ b)
  {
    hide XorByte, OfBits8;
    var x, y := (a & 0xFF) as bv8, (b & 0xFF) as bv8;
    assert ((a ^ b) & 0xFF) as bv8 == x ^ y;
    XorBits8(x, y);
  }

  lemma Down8Xor(a: bv64, b: bv64)
    ensures Down8(a ^ b) == Down8(a) ^ Down8(b)
  {
  }

  lemma Down16Xor(a: bv64, b: bv64)
    ensures Down16(a ^ b) == Down16(a) ^ Down16(b)
  {
  }

  lemma Down24Xor(a: bv64, b: bv64)
    ensures Down24(a ^ b) == Down24(a) ^ Down24(b)
  {
  }

  lemma Down32Xor(a: bv64, b: bv64)
    ensures Down32(a ^ b) == Down32(a) ^ Down32(b)
  {
  }

  lemma XorByte123(a: bv64, b: bv64)
    ensures XorByte(Byte1(a), Byte1(b)) == Byte1(a ^ b)
    ensures XorByte(Byte2(a), Byte2(b)) == Byte2(a ^ b)
    ensures XorByte(Byte3(a), Byte3(b)) == Byte3(a ^ b)
  {
    hide XorByte, Byte0, Down8, Down16, Down24;
    Down8Xor(a, b);
    Down16Xor(a, b);
    Down24Xor(a, b);
    XorByte0(Down8(a), Down8(b));
    XorByte0(Down16(a), Down16(b));
    XorByte0(Down24(a), Down24(b));
  }

  /** Exclusive or of words is exclusive or of all their bits. */
  lemma XorBits32(a: bv64, b: bv64)
    ensures Xor32(OfBits32(a), OfBits32(b)) == OfBits32(a ^ b)
  {
    hide Xor32, XorByte, Of32, Byte0, Byte1, Byte2, Byte3;
    XorByte0(a, b);
    XorByte123(a, b);
    XorOfBytes(Byte3(a), Byte2(a), Byte1(a), Byte0(a), Byte3(b), Byte2(b), Byte1(b), Byte0(b));
  }

  lemma XorHighBits(a: bv64, b: bv64)
    ensures Xor32(HighOfBits(a), HighOfBits(b)) == HighOfBits(a ^ b)
  {
    Down32Xor(a, b);
    hide Xor32, OfBits32, Down32;
    XorBits32(Down32(a), Down32(b));
  }

  lemma XorBits64(a: bv64, b: bv64)
    ensures Xor64(OfBits64(a), OfBits64(b)) == OfBits64(a ^ b)
  {
    hide Xor32, OfBits32, HighOfBits;
    XorBits32(a, b);
    XorHighBits(a, b);
  }

  /** A shift to the right divides by a power of two. */
  lemma {:induction false} ShrIsDiv(a: nat, r: nat)
    ensures Shr(a, r) == a / Pow2(r)
  {
    if r > 0 {
      ShrIsDiv(a / 2, r - 1);
      DivTwice(a, Pow2(r - 1));
    }
  }

  lemma DivTwice(a: nat, p: nat)
    requires p > 0
    ensures a / 2 / p == a / (2 * p)
  {
    HalfDivided(a, p, 2 * p);
  }

  lemma HalfDivided(a: nat, p: nat, n: nat)
    requires p > 0 && n == p + p
    ensures a / 2 / p == a / n
  {
    var half := a / 2;
    var q, d := half / p, a / n;
    Divided(half, p, q, half % p);
    Divided(a, n, d, a % n);
    SameQuotient(half, a % 2, p, n, q, half % p, d, a % n);
  }

  lemma SameQuotient(half: nat, bit: nat, p: nat, n: nat, q: nat, r: nat, d: nat, e: nat)
    requires bit < 2 && n == p + p && half == p * q + r && r < p && 2 * half + bit == n * d + e && e < n
    ensures q == d
  {
    Double(p, n, d);
    if d > q {
      Above(p, d, q);
    } else if d < q {
      Above(p, q, d);
    }
  }

  lemma Double(p: nat, n: nat, q: nat)
    requires n == p + p
    ensures n * q == 2 * (p * q)
  {
  }

  lemma Divided(a: nat, n: nat, q: nat, r: nat)
    requires n > 0 && q == a / n && r == a % n
    ensures a == n * q + r && 0 <= r < n
  {
  }

  lemma Above(p: nat, x: nat, y: nat)
    requires x > y
    ensures p * x >= p * y + p
  {
    Distribute(p, y + 1, x - y - 1);
    Distribute(p, y, 1);
    NatTimes(p, x - y - 1);
  }

  lemma Distribute(p: nat, x: nat, y: nat)
    ensures p * (x + y) == p * x + p * y
  {
  }

  lemma NatTimes(p: nat, x: nat)
    ensures p * x >= 0
  {
  }

  /** A word is the sum of its bytes, each at its place. */
  lemma WordOfBytes(s: seq<byte>, at: nat)
    requires at + 8 <= |s|
    ensures ReadLE32(s, at) == Of32(s[at + 3], s[at + 2], s[at + 1], s[at])
    ensures ReadLE64(s, at) ==
      Of32(s[at + 3], s[at + 2], s[at + 1], s[at]) + 0x1_0000_0000 * Of32(s[at + 7], s[at + 6], s[at + 5], s[at + 4])
  {
  }
}
