/** XXH64: one-shot and streaming. The finalizer takes the whole length and keeps its low bits. */
module Xxh64 {
  import opened Words
  import opened Memory
  import opened XxhBlocks

  const PRIME_1: u64 := 0x9E3779B185EBCA87
  const PRIME_2: u64 := 0xC2B2AE3D27D4EB4F
  const PRIME_3: u64 := 0x165667B19E3779F9
  const PRIME_4: u64 := 0x85EBCA77C2B2AE63
  const PRIME_5: u64 := 0x27D4EB2F165667C5

  type Quad = s: seq<u64> | |s| == 4 witness [0, 0, 0, 0]

  function Round(acc: u64, input: u64): u64 {
    Mul64(Rotl64(Add64(acc, Mul64(input, PRIME_2)), 31), PRIME_1)
  }

  function MergeRound(acc: u64, val: u64): u64 {
    Add64(Mul64(Xor64(acc, Round(0, val)), PRIME_1), PRIME_4)
  }

  function Avalanche(hash: u64): u64 {
    var a := Mul64(Xor64(hash, Shr64(hash, 33)), PRIME_2);
    var b := Mul64(Xor64(a, Shr64(a, 29)), PRIME_3);
    Xor64(b, Shr64(b, 32))
  }

  function InitAccs(seed: u64): Quad {
    [Add64(Add64(seed, PRIME_1), PRIME_2), Add64(seed, PRIME_2), seed, Sub64(seed, PRIME_1)]
  }

  function MergeAccs(acc: Quad): u64 {
    var h := Add64(Add64(Rotl64(acc[0], 1), Rotl64(acc[1], 7)), Add64(Rotl64(acc[2], 12), Rotl64(acc[3], 18)));
    MergeRound(MergeRound(MergeRound(MergeRound(h, acc[0]), acc[1]), acc[2]), acc[3])
  }

  /** One 32-byte block, a word for each lane. */
  function Mix(acc: Quad, block: seq<byte>): Quad {
    if |block| == 32 then
      [Round(acc[0], ReadLE64(block, 0)), Round(acc[1], ReadLE64(block, 8)),
       Round(acc[2], ReadLE64(block, 16)), Round(acc[3], ReadLE64(block, 24))]
    else acc
  }

  function Blocks32(): Core<Quad> {
    Core(32, Mix)
  }

  function Process8(hash: u64, word: u64): u64 {
    Add64(Mul64(Rotl64(Xor64(hash, Round(0, word)), 27), PRIME_1), PRIME_4)
  }

  function Process4(hash: u64, word: u32): u64 {
    Add64(Mul64(Rotl64(Xor64(hash, Mul64(word, PRIME_1)), 23), PRIME_2), PRIME_3)
  }

  function Process1(hash: u64, b: byte): u64 {
    Mul64(Rotl64(Xor64(hash, Mul64(b, PRIME_5)), 11), PRIME_1)
  }

  /** Reference: the last bytes, eight at a time, then four, then one at a time. */
  function Tail(hash: u64, rest: seq<byte>): u64
    decreases |rest|
  {
    if |rest| >= 8 then Tail(Process8(hash, ReadLE64(rest, 0)), rest[8..])
    else if |rest| >= 4 then Tail(Process4(hash, ReadLE32(rest, 0)), rest[4..])
    else if |rest| > 0 then Tail(Process1(hash, rest[0]), rest[1..])
    else Avalanche(hash)
  }

  /** XXH64_finalize. */
  method Finalize(hash0: u64, ptr: seq<byte>, at0: nat, len0: nat) returns (r: u64)
    requires at0 + len0 % 32 <= |ptr|
    ensures r == Tail(hash0, ptr[at0..at0 + len0 % 32])
  {
    hide Process8, Process4, Process1, Avalanche, ReadLE64, ReadLE32, Tail;
    var hash, at, len := hash0, at0, len0 % 32;
    ghost var end := at + len;
    while len >= 8
      invariant 0 <= at <= at + len == end && Tail(hash, ptr[at..end]) == Tail(hash0, ptr[at0..end])
    {
      TailStep(hash, ptr, at, end);
      hash := Process8(hash, ReadLE64(ptr, at));
      at, len := at + 8, len - 8;
    }
    if len >= 4 {
      TailStep(hash, ptr, at, end);
      hash := Process4(hash, ReadLE32(ptr, at));
      at, len := at + 4, len - 4;
    }
    while len > 0
      invariant len < 4 && 0 <= at <= at + len == end && Tail(hash, ptr[at..end]) == Tail(hash0, ptr[at0..end])
    {
      TailStep(hash, ptr, at, end);
      hash := Process1(hash, ptr[at]);
      at, len := at + 1, len - 1;
    }
    TailStep(hash, ptr, end, end);
    return Avalanche(hash);
  }

  lemma TailStep(hash: u64, ptr: seq<byte>, at: nat, end: nat)
    requires at <= end <= |ptr|
    ensures at + 8 <= end ==> Tail(hash, ptr[at..end]) == Tail(Process8(hash, ReadLE64(ptr, at)), ptr[at + 8..end])
    ensures at + 4 <= end < at + 8 ==>
            Tail(hash, ptr[at..end]) == Tail(Process4(hash, ReadLE32(ptr, at)), ptr[at + 4..end])
    ensures at < end < at + 4 ==> Tail(hash, ptr[at..end]) == Tail(Process1(hash, ptr[at]), ptr[at + 1..end])
    ensures at == end ==> Tail(hash, ptr[at..end]) == Avalanche(hash)
  {
    hide Process8, Process4, Process1, Avalanche;
    if at + 8 <= end {
      assert ptr[at..end][8..] == ptr[at + 8..end];
    } else if at + 4 <= end {
      assert ptr[at..end][4..] == ptr[at + 4..end];
    } else if at < end {
      assert ptr[at..end][1..] == ptr[at + 1..end];
    }
  }

  /** Reference: the hash of a whole input. */
  ghost function Hash(seed: u64, input: seq<byte>): u64 {
    TimesDiv(|input|, 32);
    var h := if |input| >= 32 then MergeAccs(Blocks(Blocks32(), InitAccs(seed), input, 0, |input| / 32))
             else Add64(seed, PRIME_5);
    Tail(Add64(h, Mod64(|input|)), input[|input| - |input| % 32..])
  }

  /** XXH64_endian_align. */
  method OneShot(input: seq<byte>, seed: u64) returns (r: u64)
    ensures r == Hash(seed, input)
  {
    hide Blocks, MergeAccs, Tail;
    var h64, at := 0, 0;
    TimesDiv(|input|, 32);
    if |input| >= 32 {
      ghost var n;
      var acc;
      acc, at, n := ConsumeLong(Blocks32(), InitAccs(seed), input, 0, |input|);
      TimesUnique(n, |input|, 32);
      h64 := MergeAccs(acc);
    } else {
      h64 := Add64(seed, PRIME_5);
    }
    h64 := Add64(h64, Mod64(|input|));
    assert input[at..at + |input| % 32] == input[|input| - |input| % 32..];
    r := Finalize(h64, input, at, |input|);
  }

  class State {
    var totalLen: u64
    var acc: Quad
    const buffer: array<byte>
    var bufferedSize: nat

    /** The state has absorbed exactly data under seed. The counter wraps at 2^64, which the low
        five bits of the length survive. */
    ghost predicate Absorbed(seed: u64, data: seq<byte>)
      reads this, buffer
    {
      && buffer.Length == 32
      && totalLen == |data| % 0x1_0000_0000_0000_0000
      && bufferedSize == |data| % 32
      && Rest(Blocks32(), data, |data| / 32, buffer[..bufferedSize])
      && Fed(Blocks32(), InitAccs(seed), data, |data| / 32, acc)
    }

    /** XXH64_reset. */
    constructor (seed: u64)
      ensures Absorbed(seed, []) && fresh(buffer)
    {
      totalLen, bufferedSize := 0, 0;
      acc := InitAccs(seed);
      buffer := new byte[32];
    }

    /** XXH64_update. Null input is the empty input. */
    method Update(input: seq<byte>, ghost seed: u64, ghost data: seq<byte>)
      requires Absorbed(seed, data)
      modifies this, buffer
      ensures Absorbed(seed, data + input)
    {
      hide Fed, Rest, InitAccs, Times;
      LengthCounter(|data|, |input|);
      totalLen := Add64(totalLen, Mod64(|input|));
      ghost var n;
      acc, bufferedSize, n := Feed(Blocks32(), acc, buffer, bufferedSize, input, InitAccs(seed), data, |data| / 32);
      RestLength(Blocks32(), data + input, n, buffer[..bufferedSize]);
    }

    /** XXH64_digest: whether a block was mixed is read off the counter itself. */
    method Digest(ghost seed: u64, ghost data: seq<byte>) returns (r: u64)
      requires Absorbed(seed, data) && |data| < 0x1_0000_0000_0000_0000
      ensures r == Hash(seed, data)
    {
      hide MergeAccs, Tail, Blocks, Fed, Rest, Times, Hash, InitAccs, Add64;
      HashFacts(seed, data);
      DigestFacts(Blocks32(), InitAccs(seed), data, |data| / 32, acc, buffer[..bufferedSize]);
      var h64;
      if totalLen >= 32 {
        h64 := MergeAccs(acc);
      } else {
        InitThird(seed);
        h64 := Add64(acc[2], PRIME_5);
      }
      h64 := Add64(h64, totalLen);
      assert buffer[..][0..0 + bufferedSize] == buffer[..bufferedSize];
      r := Finalize(h64, buffer[..], 0, totalLen);
    }
  }

  lemma InitThird(seed: u64)
    ensures InitAccs(seed)[2] == seed
  {
  }

  /** The reference, with the blocks counted. */
  lemma HashFacts(seed: u64, data: seq<byte>)
    ensures Times(|data| / 32, 32) <= |data|
    ensures var h := if |data| >= 32 then MergeAccs(Blocks(Blocks32(), InitAccs(seed), data, 0, |data| / 32))
                     else Add64(seed, PRIME_5);
            Hash(seed, data) == Tail(Add64(h, Mod64(|data|)), data[|data| - |data| % 32..])
  {
    hide MergeAccs, Tail, Blocks, InitAccs, Add64;
    TimesDiv(|data|, 32);
  }

  lemma LengthCounter(total: nat, len: nat)
    ensures Add64(total % 0x1_0000_0000_0000_0000, Mod64(len)) == (total + len) % 0x1_0000_0000_0000_0000
  {
  }

  lemma RestLength(core: Core<Quad>, data: seq<byte>, n: nat, rest: seq<byte>)
    requires Rest(core, data, n, rest) && core.size == 32
    ensures n == |data| / 32 && |rest| == |data| % 32
  {
    TimesUnique(n, |data|, 32);
  }

  /** Main result: feed any pieces below 2^64 bytes in all, with a digest after every piece. */
  method HashPieces(seed: u64, pieces: seq<seq<byte>>) returns (digests: seq<u64>)
    requires |Concat(pieces)| < 0x1_0000_0000_0000_0000
    ensures |digests| == |pieces| + 1
    ensures forall i :: 0 <= i <= |pieces| ==> digests[i] == Hash(seed, Concat(pieces[..i]))
  {
    hide Hash, Concat;
    ConcatEmpty(pieces[..0]);
    var st := new State(seed);
    var h := st.Digest(seed, []);
    digests := [h];
    for n := 0 to |pieces|
      invariant fresh(st) && fresh(st.buffer) && st.Absorbed(seed, Concat(pieces[..n]))
      invariant |digests| == n + 1
      invariant forall i :: 0 <= i <= n ==> digests[i] == Hash(seed, Concat(pieces[..i]))
    {
      ConcatNext(pieces, n);
      ConcatPrefix(pieces, n + 1);
      st.Update(pieces[n], seed, Concat(pieces[..n]));
      h := st.Digest(seed, Concat(pieces[..n + 1]));
      digests := digests + [h];
    }
  }

  // ----- what the rounds compute, in numbers

  lemma ModIs(a: int, q: int, x: u64)
    requires a == q * 0x1_0000_0000_0000_0000 + x
    ensures a % 0x1_0000_0000_0000_0000 == x
  {
  }

  lemma InitLaw(seed: u64)
    ensures InitAccs(seed) ==
      [(seed as int + 0x60EA27EEADC0B5D6) % 0x1_0000_0000_0000_0000,
       (seed as int + 0xC2B2AE3D27D4EB4F) % 0x1_0000_0000_0000_0000, seed,
       (seed as int + 0x61C8864E7A143579) % 0x1_0000_0000_0000_0000]
  {
  }

  lemma Shifts()
    ensures Pow2(1) == 0x2 && Pow2(7) == 0x80 && Pow2(11) == 0x800 && Pow2(12) == 0x1000
    ensures Pow2(18) == 0x40000 && Pow2(23) == 0x800000 && Pow2(27) == 0x8000000 && Pow2(29) == 0x20000000
    ensures Pow2(31) == 0x80000000 && Pow2(32) == 0x100000000 && Pow2(33) == 0x200000000 && Pow2(37) == 0x2000000000
    ensures Pow2(41) == 0x20000000000 && Pow2(46) == 0x400000000000 && Pow2(52) == 0x10000000000000
            && Pow2(53) == 0x20000000000000
    ensures Pow2(57) == 0x200000000000000 && Pow2(63) == 0x8000000000000000
  {
    assert Pow2(6) == 0x40;
    assert Pow2(12) == 0x1000;
    assert Pow2(18) == 0x40000;
    assert Pow2(24) == 0x1000000;
    assert Pow2(30) == 0x40000000;
    assert Pow2(36) == 0x1000000000;
    assert Pow2(42) == 0x40000000000;
    assert Pow2(48) == 0x1000000000000;
    assert Pow2(54) == 0x40000000000000;
    assert Pow2(60) == 0x1000000000000000;
  }

  /** A rotation, by the powers of two it shifts up and down. */
  lemma RotlIs(x: u64, r: nat, up: nat, down: nat)
    requires 0 < r < 64 && Pow2(r) == up && Pow2(64 - r) == down
    ensures Rotl64(x, r) == ((x as int) * up + x / down) % 0x1_0000_0000_0000_0000
  {
    ShrIsDiv(x, 64 - r);
  }

  lemma AddProduct(a: u64, b: u64, c: u64)
    ensures Add64(a, Mul64(b, c)) == (a + (b as int) * (c as int)) % 0x1_0000_0000_0000_0000
  {
    AddModulo(a, (b as int) * (c as int));
  }

  lemma AddModulo(a: u64, m: int)
    ensures (a + m % 0x1_0000_0000_0000_0000) % 0x1_0000_0000_0000_0000 == (a + m) % 0x1_0000_0000_0000_0000
  {
  }

  /** The bits that a rotation shifts up and those that it brings round do not meet. */
  lemma Rotl31(x: u64)
    ensures Rotl64(x, 31) == (x as int) * 0x80000000 % 0x1_0000_0000_0000_0000 + x / 0x200000000
  {
    Shifts();
    hide Pow2, Shr, Rotl64;
    RotlIs(x, 31, 0x80000000, 0x200000000);
    var hi, low := x / 0x200000000, x % 0x200000000;
    ModIs((x as int) * 0x80000000, hi, low * 0x80000000);
    ModIs((x as int) * 0x80000000 + hi, hi, low * 0x80000000 + hi);
  }

  lemma Rotl27(x: u64)
    ensures Rotl64(x, 27) == (x as int) * 0x8000000 % 0x1_0000_0000_0000_0000 + x / 0x2000000000
  {
    Shifts();
    hide Pow2, Shr, Rotl64;
    RotlIs(x, 27, 0x8000000, 0x2000000000);
    var hi, low := x / 0x2000000000, x % 0x2000000000;
    ModIs((x as int) * 0x8000000, hi, low * 0x8000000);
    ModIs((x as int) * 0x8000000 + hi, hi, low * 0x8000000 + hi);
  }

  lemma Rotl23(x: u64)
    ensures Rotl64(x, 23) == (x as int) * 0x800000 % 0x1_0000_0000_0000_0000 + x / 0x20000000000
  {
    Shifts();
    hide Pow2, Shr, Rotl64;
    RotlIs(x, 23, 0x800000, 0x20000000000);
    var hi, low := x / 0x20000000000, x % 0x20000000000;
    ModIs((x as int) * 0x800000, hi, low * 0x800000);
    ModIs((x as int) * 0x800000 + hi, hi, low * 0x800000 + hi);
  }

  lemma Rotl11(x: u64)
    ensures Rotl64(x, 11) == (x as int) * 0x800 % 0x1_0000_0000_0000_0000 + x / 0x20000000000000
  {
    Shifts();
    hide Pow2, Shr, Rotl64;
    RotlIs(x, 11, 0x800, 0x20000000000000);
    var hi, low := x / 0x20000000000000, x % 0x20000000000000;
    ModIs((x as int) * 0x800, hi, low * 0x800);
    ModIs((x as int) * 0x800 + hi, hi, low * 0x800 + hi);
  }

  lemma RoundLaw(acc: u64, input: u64)
    ensures var x := (acc as int + (input as int) * 0xC2B2AE3D27D4EB4F) % 0x1_0000_0000_0000_0000;
            Round(acc, input)
                == (x * 0x80000000 % 0x1_0000_0000_0000_0000
                    + x / 0x200000000) * 0x9E3779B185EBCA87 % 0x1_0000_0000_0000_0000
  {
    hide Add64, Rotl64;
    AddProduct(acc, input, PRIME_2);
    Rotl31(Add64(acc, Mul64(input, PRIME_2)));
  }

  lemma MergeRoundLaw(acc: u64, val: u64)
    ensures MergeRound(acc, val) ==
      ((Xor64(acc, Round(0, val)) as int) * 0x9E3779B185EBCA87 + 0x85EBCA77C2B2AE63) % 0x1_0000_0000_0000_0000
  {
    hide Xor64, Round, Add64;
    AddProduct(PRIME_4, Xor64(acc, Round(0, val)), PRIME_1);
    AddSwap(PRIME_4, Mul64(Xor64(acc, Round(0, val)), PRIME_1));
  }

  lemma AddSwap(a: u64, b: u64)
    ensures Add64(a, b) == Add64(b, a)
  {
  }

  lemma Process8Law(hash: u64, word: u64)
    ensures var x := Xor64(hash, Round(0, word)) as int;
            Process8(hash, word) ==
              ((x * 0x8000000 % 0x1_0000_0000_0000_0000 + x / 0x2000000000) * 0x9E3779B185EBCA87
                  + 0x85EBCA77C2B2AE63) % 0x1_0000_0000_0000_0000
  {
    hide Xor64, Round, Rotl64, Add64;
    var x := Xor64(hash, Round(0, word));
    Rotl27(x);
    AddProduct(PRIME_4, Rotl64(x, 27), PRIME_1);
    AddSwap(PRIME_4, Mul64(Rotl64(x, 27), PRIME_1));
  }

  lemma Process4Law(hash: u64, word: u32)
    ensures var x := Xor64(hash, (word as int) * 0x9E3779B185EBCA87 % 0x1_0000_0000_0000_0000) as int;
            Process4(hash, word) ==
              ((x * 0x800000 % 0x1_0000_0000_0000_0000 + x / 0x20000000000) * 0xC2B2AE3D27D4EB4F
                  + 0x165667B19E3779F9) % 0x1_0000_0000_0000_0000
  {
    hide Xor64, Rotl64, Add64;
    var x := Xor64(hash, Mul64(word, PRIME_1));
    Rotl23(x);
    AddProduct(PRIME_3, Rotl64(x, 23), PRIME_2);
    AddSwap(PRIME_3, Mul64(Rotl64(x, 23), PRIME_2));
  }

  lemma Process1Law(hash: u64, b: byte)
    ensures var x := Xor64(hash, (b as int) * 0x27D4EB2F165667C5 % 0x1_0000_0000_0000_0000) as int;
            Process1(hash, b)
                == (x * 0x800 % 0x1_0000_0000_0000_0000
                    + x / 0x20000000000000) * 0x9E3779B185EBCA87 % 0x1_0000_0000_0000_0000
  {
    hide Xor64, Rotl64;
    Rotl11(Xor64(hash, Mul64(b, PRIME_5)));
  }

  lemma AvalancheLaw(hash: u64)
    ensures var a := Xor64(hash, hash / 0x200000000) * 0xC2B2AE3D27D4EB4F % 0x1_0000_0000_0000_0000;
            var b := Xor64(a, a / 0x20000000) * 0x165667B19E3779F9 % 0x1_0000_0000_0000_0000;
            Avalanche(hash) == Xor64(b, b / 0x100000000)
  {
    Shifts();
    hide Pow2, Shr, Xor64;
    var a := Mul64(Xor64(hash, Shr64(hash, 33)), PRIME_2);
    var b := Mul64(Xor64(a, Shr64(a, 29)), PRIME_3);
    ShrIsDiv(hash, 33);
    ShrIsDiv(a, 29);
    ShrIsDiv(b, 32);
  }

  /** The four lanes rotated and added, before each is mixed in once more. */
  lemma MergeLaw(acc: Quad)
    ensures var a, b, c, d := acc[0] as int, acc[1] as int, acc[2] as int, acc[3] as int;
            var h := (a * 2 + a / 0x8000000000000000 + (b * 128 + b / 0x200000000000000)
                      + (c * 4096 + c / 0x10000000000000)
                          + (d * 262144 + d / 0x400000000000)) % 0x1_0000_0000_0000_0000;
            MergeAccs(acc) == MergeRound(MergeRound(MergeRound(MergeRound(h, acc[0]), acc[1]), acc[2]), acc[3])
  {
    Shifts();
    hide Pow2, Shr, Rotl64, MergeRound;
    RotlIs(acc[0], 1, 2, 0x8000000000000000);
    RotlIs(acc[1], 7, 128, 0x200000000000000);
    RotlIs(acc[2], 12, 4096, 0x10000000000000);
    RotlIs(acc[3], 18, 262144, 0x400000000000);
    var a, b, c, d := acc[0] as int, acc[1] as int, acc[2] as int, acc[3] as int;
    FourMods(a * 2 + a / 0x8000000000000000, b * 128 + b / 0x200000000000000, c * 4096
        + c / 0x10000000000000, d * 262144 + d / 0x400000000000);
  }

  lemma FourMods(a: int, b: int, c: int, d: int)
    ensures Add64(Add64(Mod64(a), Mod64(b)), Add64(Mod64(c), Mod64(d))) == Mod64(a + b + c + d)
  {
    TwoMods(a, b);
    TwoMods(c, d);
    hide Add64, Mod64;
    TwoMods(a + b, c + d);
  }

  lemma TwoMods(a: int, b: int)
    ensures Add64(Mod64(a), Mod64(b)) == Mod64(a + b)
  {
  }
}
