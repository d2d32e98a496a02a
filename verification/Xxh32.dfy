/** XXH32: one-shot and streaming, the latter with a length counter that wraps at 2^32. */
module Xxh32 {
  import opened Words
  import opened Memory
  import opened XxhBlocks

  const PRIME_1: u32 := 0x9E3779B1
  const PRIME_2: u32 := 0x85EBCA77
  const PRIME_3: u32 := 0xC2B2AE3D
  const PRIME_4: u32 := 0x27D4EB2F
  const PRIME_5: u32 := 0x165667B1

  type Quad = s: seq<u32> | |s| == 4 witness [0, 0, 0, 0]

  function Round(acc: u32, input: u32): u32 {
    Mul32(Rotl32(Add32(acc, Mul32(input, PRIME_2)), 13), PRIME_1)
  }

  function Avalanche(hash: u32): u32 {
    var a := Mul32(Xor32(hash, Shr32(hash, 15)), PRIME_2);
    var b := Mul32(Xor32(a, Shr32(a, 13)), PRIME_3);
    Xor32(b, Shr32(b, 16))
  }

  function InitAccs(seed: u32): Quad {
    [Add32(Add32(seed, PRIME_1), PRIME_2), Add32(seed, PRIME_2), seed, Sub32(seed, PRIME_1)]
  }

  function MergeAccs(acc: Quad): u32 {
    Add32(Add32(Rotl32(acc[0], 1), Rotl32(acc[1], 7)), Add32(Rotl32(acc[2], 12), Rotl32(acc[3], 18)))
  }

  /** One 16-byte block, a word for each lane. */
  function Mix(acc: Quad, block: seq<byte>): Quad {
    if |block| == 16 then
      [Round(acc[0], ReadLE32(block, 0)), Round(acc[1], ReadLE32(block, 4)),
       Round(acc[2], ReadLE32(block, 8)), Round(acc[3], ReadLE32(block, 12))]
    else acc
  }

  function Blocks16(): Core<Quad> {
    Core(16, Mix)
  }

  function Process4(hash: u32, word: u32): u32 {
    Mul32(Rotl32(Add32(hash, Mul32(word, PRIME_3)), 17), PRIME_4)
  }

  function Process1(hash: u32, b: byte): u32 {
    Mul32(Rotl32(Add32(hash, Mul32(b, PRIME_5)), 11), PRIME_1)
  }

  /** Reference: the last bytes, four at a time and then one at a time. */
  function Tail(hash: u32, rest: seq<byte>): u32
    decreases |rest|
  {
    if |rest| >= 4 then Tail(Process4(hash, ReadLE32(rest, 0)), rest[4..])
    else if |rest| > 0 then Tail(Process1(hash, rest[0]), rest[1..])
    else Avalanche(hash)
  }

  lemma TailEnd(hash: u32, ptr: seq<byte>, end: nat)
    requires end <= |ptr|
    ensures Tail(hash, ptr[end..end]) == Avalanche(hash)
  {
  }

  lemma Tail4(hash: u32, ptr: seq<byte>, at: nat, end: nat)
    requires at + 4 <= end <= |ptr|
    ensures Tail(hash, ptr[at..end]) == Tail(Process4(hash, ReadLE32(ptr, at)), ptr[at + 4..end])
  {
    hide Process4, Process1, Avalanche;
    assert ptr[at..end][4..] == ptr[at + 4..end];
  }

  lemma Tail1(hash: u32, ptr: seq<byte>, at: nat, end: nat)
    requires at < end <= |ptr| && end < at + 4
    ensures Tail(hash, ptr[at..end]) == Tail(Process1(hash, ptr[at]), ptr[at + 1..end])
  {
    hide Process4, Process1, Avalanche;
    assert ptr[at..end][1..] == ptr[at + 1..end];
  }

  /** XXH32_finalize, the rerolled loops. */
  method FinalizeLoop(hash0: u32, ptr: seq<byte>, at0: nat, len0: nat) returns (r: u32)
    requires at0 + len0 % 16 <= |ptr|
    ensures r == Tail(hash0, ptr[at0..at0 + len0 % 16])
  {
    hide Process4, Process1, Avalanche, ReadLE32, Tail;
    var hash, at, len := hash0, at0, len0 % 16;
    ghost var end := at + len;
    while len >= 4
      invariant 0 <= at <= at + len == end && Tail(hash, ptr[at..end]) == Tail(hash0, ptr[at0..end])
    {
      Tail4(hash, ptr, at, end);
      hash := Process4(hash, ReadLE32(ptr, at));
      at, len := at + 4, len - 4;
    }
    while len > 0
      invariant len < 4 && 0 <= at <= at + len == end && Tail(hash, ptr[at..end]) == Tail(hash0, ptr[at0..end])
    {
      Tail1(hash, ptr, at, end);
      hash := Process1(hash, ptr[at]);
      at, len := at + 1, len - 1;
    }
    TailEnd(hash, ptr, end);
    return Avalanche(hash);
  }

  /** XXH32_finalize, the jump table: every case of the switch with the cases it falls through to. */
  method FinalizeJump(hash0: u32, ptr: seq<byte>, at0: nat, len: nat) returns (r: u32)
    requires at0 + len % 16 <= |ptr|
    ensures r == Tail(hash0, ptr[at0..at0 + len % 16])
  {
    hide Process4, Process1, Avalanche, ReadLE32, Tail;
    var hash, at, c := hash0, at0, len % 16;
    ghost var end := at + c;
    if c >= 12 {
      Tail4(hash, ptr, at, end);
      hash := Process4(hash, ReadLE32(ptr, at));
      at := at + 4;
    }
    if c >= 8 {
      Tail4(hash, ptr, at, end);
      hash := Process4(hash, ReadLE32(ptr, at));
      at := at + 4;
    }
    if c >= 4 {
      Tail4(hash, ptr, at, end);
      hash := Process4(hash, ReadLE32(ptr, at));
      at := at + 4;
    }
    assert end == at + c % 4;
    if c % 4 == 3 {
      Tail1(hash, ptr, at, end);
      hash := Process1(hash, ptr[at]);
      at := at + 1;
    }
    if c % 4 >= 2 {
      Tail1(hash, ptr, at, end);
      hash := Process1(hash, ptr[at]);
      at := at + 1;
    }
    if c % 4 >= 1 {
      Tail1(hash, ptr, at, end);
      hash := Process1(hash, ptr[at]);
      at := at + 1;
    }
    TailEnd(hash, ptr, end);
    return Avalanche(hash);
  }

  /** Reference: the hash of a whole input of any length. */
  ghost function Hash(seed: u32, input: seq<byte>): u32 {
    TimesDiv(|input|, 16);
    var h := if |input| >= 16 then MergeAccs(Blocks(Blocks16(), InitAccs(seed), input, 0, |input| / 16))
             else Add32(seed, PRIME_5);
    Tail(Add32(h, Mod32(|input|)), input[|input| - |input| % 16..])
  }

  /** XXH32_endian_align. */
  method OneShot(input: seq<byte>, seed: u32) returns (r: u32)
    ensures r == Hash(seed, input)
  {
    hide Blocks, MergeAccs, Tail;
    var h32, at := 0, 0;
    TimesDiv(|input|, 16);
    if |input| >= 16 {
      ghost var n;
      var acc;
      acc, at, n := ConsumeLong(Blocks16(), InitAccs(seed), input, 0, |input|);
      TimesUnique(n, |input|, 16);
      h32 := MergeAccs(acc);
    } else {
      h32 := Add32(seed, PRIME_5);
    }
    h32 := Add32(h32, Mod32(|input|));
    assert input[at..at + |input| % 16] == input[|input| - |input| % 16..];
    r := FinalizeLoop(h32, input, at, |input| % 16);
  }

  class State {
    var totalLen32: u32
    var largeLen: bool
    var acc: Quad
    const buffer: array<byte>
    var bufferedSize: nat

    /** The state has absorbed exactly data, of any length, under seed. The counter keeps only the
        length modulo 2^32; whether the length reached 16 is a flag of its own. */
    ghost predicate Absorbed(seed: u32, data: seq<byte>)
      reads this, buffer
    {
      && buffer.Length == 16
      && totalLen32 == |data| % 0x1_0000_0000
      && largeLen == (|data| >= 16)
      && bufferedSize == |data| % 16
      && Rest(Blocks16(), data, |data| / 16, buffer[..bufferedSize])
      && Fed(Blocks16(), InitAccs(seed), data, |data| / 16, acc)
    }

    /** XXH32_reset. */
    constructor (seed: u32)
      ensures Absorbed(seed, []) && fresh(buffer)
    {
      totalLen32, largeLen, bufferedSize := 0, false, 0;
      acc := InitAccs(seed);
      buffer := new byte[16];
    }

    /** XXH32_update. Null input is the empty input. */
    method Update(input: seq<byte>, ghost seed: u32, ghost data: seq<byte>)
      requires Absorbed(seed, data)
      modifies this, buffer
      ensures Absorbed(seed, data + input)
    {
      hide Fed, Rest, InitAccs, Times;
      LengthCounter(|data|, |input|);
      totalLen32 := Add32(totalLen32, Mod32(|input|));
      largeLen := largeLen || |input| >= 16 || totalLen32 >= 16;
      ghost var n;
      acc, bufferedSize, n := Feed(Blocks16(), acc, buffer, bufferedSize, input, InitAccs(seed), data, |data| / 16);
      RestLength(Blocks16(), data + input, n, buffer[..bufferedSize]);
    }

    /** XXH32_digest: the seed is read back from the third lane while no block was mixed. */
    method Digest(ghost seed: u32, ghost data: seq<byte>) returns (r: u32)
      requires Absorbed(seed, data)
      ensures r == Hash(seed, data)
    {
      hide MergeAccs, Tail, Blocks, Fed, Rest, Times;
      DigestFacts(Blocks16(), InitAccs(seed), data, |data| / 16, acc, buffer[..bufferedSize]);
      var h32;
      if largeLen {
        h32 := MergeAccs(acc);
      } else {
        h32 := Add32(acc[2], PRIME_5);
      }
      h32 := Add32(h32, totalLen32);
      assert buffer[..][0..0 + bufferedSize] == buffer[..bufferedSize];
      r := FinalizeLoop(h32, buffer[..], 0, bufferedSize);
    }
  }

  /** The 32-bit counter wraps, yet with its help the flag tells exactly whether the true length
      reached a block: before it does, nothing has wrapped. */
  lemma LengthCounter(total: nat, len: nat)
    ensures Add32(total % 0x1_0000_0000, Mod32(len)) == (total + len) % 0x1_0000_0000
    ensures (total >= 16 || len >= 16 || (total + len) % 0x1_0000_0000 >= 16) == (total + len >= 16)
  {
    TwoMods(total, len);
    SmallMod(total + len);
  }

  lemma SmallMod(a: nat)
    ensures a < 0x1_0000_0000 ==> a % 0x1_0000_0000 == a
  {
  }

  lemma RestLength(core: Core<Quad>, data: seq<byte>, n: nat, rest: seq<byte>)
    requires Rest(core, data, n, rest) && core.size == 16
    ensures n == |data| / 16 && |rest| == |data| % 16
  {
    TimesUnique(n, |data|, 16);
  }

  /** Main result: feed any pieces, each of any size, with a digest after every piece. */
  method HashPieces(seed: u32, pieces: seq<seq<byte>>) returns (digests: seq<u32>)
    ensures |digests| == |pieces| + 1
    ensures forall i :: 0 <= i <= |pieces| ==> digests[i] == Hash(seed, Concat(pieces[..i]))
  {
    hide Hash, Concat;
    ConcatEmpty(pieces[..0]);
    var st := new State(seed);
    var h := st.Digest(seed, []);
    digests := [h];
    for n := 0 to |pieces|
      invariant fresh(st) && fresh(st.buffer) && st.Absorbed(seed, Concat(pieces[..n]))
      invariant |digests| == n + 1
      invariant forall i :: 0 <= i <= n ==> digests[i] == Hash(seed, Concat(pieces[..i]))
    {
      ConcatNext(pieces, n);
      ConcatPrefix(pieces, n + 1);
      st.Update(pieces[n], seed, Concat(pieces[..n]));
      h := st.Digest(seed, Concat(pieces[..n + 1]));
      digests := digests + [h];
    }
  }

  // ----- what the rounds compute, in numbers

  lemma ModIs(a: int, q: int, x: u32)
    requires a == q * 0x1_0000_0000 + x
    ensures a % 0x1_0000_0000 == x
  {
  }

  lemma InitLaw(seed: u32)
    ensures InitAccs(seed) ==
      [(seed as int + 0x24234428) % 0x1_0000_0000, (seed as int + 0x85EBCA77) % 0x1_0000_0000, seed,
       (seed as int + 0x61C8864F) % 0x1_0000_0000]
  {
  }

  lemma Shifts()
    ensures Pow2(1) == 2 && Pow2(7) == 128 && Pow2(11) == 2048 && Pow2(12) == 4096 && Pow2(13) == 8192
    ensures Pow2(14) == 16384 && Pow2(15) == 32768 && Pow2(16) == 65536 && Pow2(17) == 131072 && Pow2(18) == 262144
    ensures Pow2(19) == 524288 && Pow2(20) == 1048576 && Pow2(21) == 2097152
    ensures Pow2(25) == 33554432 && Pow2(31) == 2147483648
  {
    assert Pow2(6) == 64;
    assert Pow2(12) == 4096;
    assert Pow2(18) == 262144;
    assert Pow2(24) == 16777216;
    assert Pow2(30) == 1073741824;
  }

  /** A rotation, by the powers of two it shifts up and down. */
  lemma RotlIs(x: u32, r: nat, up: nat, down: nat)
    requires 0 < r < 32 && Pow2(r) == up && Pow2(32 - r) == down
    ensures Rotl32(x, r) == ((x as int) * up + x / down) % 0x1_0000_0000
  {
    ShrIsDiv(x, 32 - r);
  }

  lemma AddProduct(a: u32, b: u32, c: u32)
    ensures Add32(a, Mul32(b, c)) == (a + (b as int) * (c as int)) % 0x1_0000_0000
  {
    AddModulo(a, (b as int) * (c as int));
  }

  lemma AddModulo(a: u32, m: int)
    ensures (a + m % 0x1_0000_0000) % 0x1_0000_0000 == (a + m) % 0x1_0000_0000
  {
  }

  /** The bits that a rotation shifts up and those that it brings round do not meet. */
  lemma Rotl13(x: u32)
    ensures Rotl32(x, 13) == (x as int) * 8192 % 0x1_0000_0000 + x / 524288
  {
    Shifts();
    hide Pow2, Shr, Rotl32;
    RotlIs(x, 13, 8192, 524288);
    var hi, low := x / 524288, x % 524288;
    ModIs((x as int) * 8192, hi, low * 8192);
    ModIs((x as int) * 8192 + hi, hi, low * 8192 + hi);
  }

  lemma Rotl17(x: u32)
    ensures Rotl32(x, 17) == (x as int) * 131072 % 0x1_0000_0000 + x / 32768
  {
    Shifts();
    hide Pow2, Shr, Rotl32;
    RotlIs(x, 17, 131072, 32768);
    var hi, low := x / 32768, x % 32768;
    ModIs((x as int) * 131072, hi, low * 131072);
    ModIs((x as int) * 131072 + hi, hi, low * 131072 + hi);
  }

  lemma Rotl11(x: u32)
    ensures Rotl32(x, 11) == (x as int) * 2048 % 0x1_0000_0000 + x / 2097152
  {
    Shifts();
    hide Pow2, Shr, Rotl32;
    RotlIs(x, 11, 2048, 2097152);
    var hi, low := x / 2097152, x % 2097152;
    ModIs((x as int) * 2048, hi, low * 2048);
    ModIs((x as int) * 2048 + hi, hi, low * 2048 + hi);
  }

  lemma RoundLaw(acc: u32, input: u32)
    ensures var x := (acc as int + (input as int) * 0x85EBCA77) % 0x1_0000_0000;
            Round(acc, input) == (x * 8192 % 0x1_0000_0000 + x / 524288) * 0x9E3779B1 % 0x1_0000_0000
  {
    hide Add32, Rotl32;
    AddProduct(acc, input, PRIME_2);
    Rotl13(Add32(acc, Mul32(input, PRIME_2)));
  }

  lemma Process4Law(hash: u32, word: u32)
    ensures var x := (hash as int + (word as int) * 0xC2B2AE3D) % 0x1_0000_0000;
            Process4(hash, word) == (x * 131072 % 0x1_0000_0000 + x / 32768) * 0x27D4EB2F % 0x1_0000_0000
  {
    hide Add32, Rotl32;
    AddProduct(hash, word, PRIME_3);
    Rotl17(Add32(hash, Mul32(word, PRIME_3)));
  }

  lemma Process1Law(hash: u32, b: byte)
    ensures var x := (hash as int + (b as int) * 0x165667B1) % 0x1_0000_0000;
            Process1(hash, b) == (x * 2048 % 0x1_0000_0000 + x / 2097152) * 0x9E3779B1 % 0x1_0000_0000
  {
    hide Add32, Rotl32;
    AddProduct(hash, b, PRIME_5);
    Rotl11(Add32(hash, Mul32(b, PRIME_5)));
  }

  lemma AvalancheLaw(hash: u32)
    ensures var a := Xor32(hash, hash / 32768) * 0x85EBCA77 % 0x1_0000_0000;
            var b := Xor32(a, a / 8192) * 0xC2B2AE3D % 0x1_0000_0000;
            Avalanche(hash) == Xor32(b, b / 65536)
  {
    Shifts();
    hide Pow2, Shr, Xor32;
    var a := Mul32(Xor32(hash, Shr32(hash, 15)), PRIME_2);
    var b := Mul32(Xor32(a, Shr32(a, 13)), PRIME_3);
    ShrIsDiv(hash, 15);
    ShrIsDiv(a, 13);
    ShrIsDiv(b, 16);
  }

  lemma MergeLaw(acc: Quad)
    ensures var a, b, c, d := acc[0] as int, acc[1] as int, acc[2] as int, acc[3] as int;
            MergeAccs(acc) ==
              (a * 2 + a / 2147483648 + (b * 128 + b / 33554432) + (c * 4096 + c / 1048576)
               + (d * 262144 + d / 16384)) % 0x1_0000_0000
  {
    Shifts();
    hide Pow2, Shr, Rotl32;
    RotlIs(acc[0], 1, 2, 2147483648);
    RotlIs(acc[1], 7, 128, 33554432);
    RotlIs(acc[2], 12, 4096, 1048576);
    RotlIs(acc[3], 18, 262144, 16384);
    var a, b, c, d := acc[0] as int, acc[1] as int, acc[2] as int, acc[3] as int;
    FourMods(a * 2 + a / 2147483648, b * 128 + b / 33554432, c * 4096 + c / 1048576, d * 262144 + d / 16384);
  }

  lemma FourMods(a: int, b: int, c: int, d: int)
    ensures Add32(Add32(Mod32(a), Mod32(b)), Add32(Mod32(c), Mod32(d))) == Mod32(a + b + c + d)
  {
    TwoMods(a, b);
    TwoMods(c, d);
    hide Add32, Mod32;
    TwoMods(a + b, c + d);
  }

  lemma TwoMods(a: int, b: int)
    ensures Add32(Mod32(a), Mod32(b)) == Mod32(a + b)
  {
  }
}
