/** Known answers of XXH32 and XXH64. They hold the seeds, primes, rotations and shifts of the reference
    functions to numbers that do not come from these, most of them from the library's test vectors. */
module Xxh32Answers {
  import opened Words
  import opened XxhBlocks
  import opened Xxh32

  // ----- one step on given numbers: every quotient and remainder is a parameter

  lemma Parts13(x: u32, hi: nat, low: nat)
    requires x == hi * 524288 + low && low < 524288
    ensures (x as int) * 8192 % 0x1_0000_0000 == low * 8192 && x / 524288 == hi
  {
    ModIs((x as int) * 8192, hi, low * 8192);
  }

  lemma Parts17(x: u32, hi: nat, low: nat)
    requires x == hi * 32768 + low && low < 32768
    ensures (x as int) * 131072 % 0x1_0000_0000 == low * 131072 && x / 32768 == hi
  {
    ModIs((x as int) * 131072, hi, low * 131072);
  }

  lemma Parts11(x: u32, hi: nat, low: nat)
    requires x == hi * 2097152 + low && low < 2097152
    ensures (x as int) * 2048 % 0x1_0000_0000 == low * 2048 && x / 2097152 == hi
  {
    ModIs((x as int) * 2048, hi, low * 2048);
  }

  lemma RoundAt(acc: u32, input: u32, q: int, x: u32, hi: nat, low: nat, p: int, r: u32)
    requires acc + input * 0x85EBCA77 == q * 0x1_0000_0000 + x
    requires x == hi * 524288 + low && low < 524288
    requires (low * 8192 + hi) * 0x9E3779B1 == p * 0x1_0000_0000 + r
    ensures Round(acc, input) == r
  {
    hide Round;
    RoundLaw(acc, input);
    ModIs(acc + input * 0x85EBCA77, q, x);
    Parts13(x, hi, low);
    ModIs((low * 8192 + hi) * 0x9E3779B1, p, r);
  }

  lemma Process4At(hash: u32, word: u32, q: int, x: u32, hi: nat, low: nat, p: int, r: u32)
    requires hash + word * 0xC2B2AE3D == q * 0x1_0000_0000 + x
    requires x == hi * 32768 + low && low < 32768
    requires (low * 131072 + hi) * 0x27D4EB2F == p * 0x1_0000_0000 + r
    ensures Process4(hash, word) == r
  {
    hide Process4;
    Process4Law(hash, word);
    ModIs(hash + word * 0xC2B2AE3D, q, x);
    Parts17(x, hi, low);
    ModIs((low * 131072 + hi) * 0x27D4EB2F, p, r);
  }

  lemma Process1At(hash: u32, b: byte, q: int, x: u32, hi: nat, low: nat, p: int, r: u32)
    requires hash + b * 0x165667B1 == q * 0x1_0000_0000 + x
    requires x == hi * 2097152 + low && low < 2097152
    requires (low * 2048 + hi) * 0x9E3779B1 == p * 0x1_0000_0000 + r
    ensures Process1(hash, b) == r
  {
    hide Process1;
    Process1Law(hash, b);
    ModIs(hash + b * 0x165667B1, q, x);
    Parts11(x, hi, low);
    ModIs((low * 2048 + hi) * 0x9E3779B1, p, r);
  }

  lemma AvalancheAt(hash: u32, x: u32, p: int, a: u32, y: u32, q: int, b: u32, z: u32)
    requires Xor32(hash, hash / 32768) == x && (x as int) * 0x85EBCA77 == p * 0x1_0000_0000 + a
    requires Xor32(a, a / 8192) == y && (y as int) * 0xC2B2AE3D == q * 0x1_0000_0000 + b
    requires Xor32(b, b / 65536) == z
    ensures Avalanche(hash) == z
  {
    hide Xor32, Avalanche;
    AvalancheLaw(hash);
    ModIs((x as int) * 0x85EBCA77, p, a);
    ModIs((y as int) * 0xC2B2AE3D, q, b);
  }

  lemma StartSum(seed: u32, len: nat)
    ensures Add32(Add32(seed, PRIME_5), Mod32(len)) == (seed as int + 0x165667B1 + len) % 0x1_0000_0000
  {
    TwoMods(seed as int + PRIME_5, len);
    assert Add32(seed, PRIME_5) == Mod32(seed as int + PRIME_5);
    hide Add32, Mod32;
    assert Mod32(seed as int + PRIME_5 + len) == (seed as int + 0x165667B1 + len) % 0x1_0000_0000 by {
      ModOf(seed as int + 0x165667B1 + len);
    }
  }

  lemma ModOf(a: int)
    ensures Mod32(a) == a % 0x1_0000_0000
  {
  }

  lemma ShortHash(seed: u32, input: seq<byte>)
    requires |input| < 16
    ensures Hash(seed, input) == Tail((seed as int + 0x165667B1 + |input|) % 0x1_0000_0000, input)
  {
    hide Tail, Add32, Mod32;
    StartSum(seed, |input|);
    assert input[|input| - |input| % 16..] == input;
  }

  lemma ZeroWord(s: seq<byte>, at: nat)
    requires at + 4 <= |s| && s[at] == s[at + 1] == s[at + 2] == s[at + 3] == 0
    ensures ReadLE32(s, at) == 0
  {
  }

  lemma EndSum(h: u32, len: nat)
    ensures Add32(h, Mod32(len)) == (h as int + len) % 0x1_0000_0000
  {
    AddModulo(h, len);
  }

  lemma OneBlock(acc: Quad, input: seq<byte>)
    requires |input| >= 16
    ensures Times(1, 16) == 16 && Blocks(Blocks16(), acc, input, 0, 1) == Mix(acc, input[..16])
  {
    hide Mix, Blocks;
    BlocksInOrder(Blocks16(), acc, input, 0, 0);
    assert input[0 + 0 * 16..0 + 0 * 16 + 16] == input[..16];
  }

  lemma OneBlockLength(len: nat)
    requires 16 <= len < 32
    ensures len / 16 == 1 && len - len % 16 == 16
  {
  }

  lemma OneBlockTail(seed: u32, input: seq<byte>)
    requires 16 <= |input| < 32 && Times(1, 16) == 16
    ensures Hash(seed, input) ==
      Tail(Add32(MergeAccs(Blocks(Blocks16(), InitAccs(seed), input, 0, 1)), Mod32(|input|)), input[16..])
  {
    hide Tail, MergeAccs, Mix, InitAccs, Add32, Mod32, Blocks, Times;
    OneBlockLength(|input|);
  }

  lemma OneBlockHash(seed: u32, input: seq<byte>)
    requires 16 <= |input| < 32
    ensures Hash(seed, input) ==
      Tail((MergeAccs(Mix(InitAccs(seed), input[..16])) as int + |input|) % 0x1_0000_0000, input[16..])
  {
    hide Hash, Tail, MergeAccs, Mix, InitAccs, Add32, Mod32, Blocks, Blocks16, Times;
    OneBlock(InitAccs(seed), input);
    OneBlockTail(seed, input);
    EndSum(MergeAccs(Mix(InitAccs(seed), input[..16])), |input|);
  }

  lemma EmptyAvalanche()
    ensures Avalanche(0x165667B1) == 0x2CC5D05
  {
    hide Xor32, Avalanche;
    XorBits32(0x165667B1, 0x2CAC);
    XorBits32(0x7E00CC7B, 0x3F006);
    XorBits32(0x2CC5FC9, 0x2CC);
    AvalancheAt(0x165667B1, 0x16564B1D, 0xBAF67E7, 0x7E00CC7B, 0x7E033C7D, 0x5FD667DB, 0x2CC5FC9, 0x2CC5D05);
  }

  lemma Empty()
    ensures Hash(0, []) == 0x2CC5D05
  {
    hide Avalanche, Hash;
    EmptyAvalanche();
    ShortHash(0, []);
  }

  lemma SixteenZerosRounds()
    ensures Round(0x24234428, 0) == 0x93768344
    ensures Round(0x85EBCA77, 0) == 0x8DF8C7AD
    ensures Round(0, 0) == 0
    ensures Round(0x61C8864F, 0) == 0xFA824469
  {
    hide Round;
    RoundAt(0x24234428, 0, 0, 0x24234428, 0x484, 0x34428, 0x4098BF0C, 0x93768344);
    RoundAt(0x85EBCA77, 0, 0, 0x85EBCA77, 0x10BD, 0x3CA77, 0x4AF90234, 0x8DF8C7AD);
    RoundAt(0, 0, 0, 0, 0, 0, 0, 0);
    RoundAt(0x61C8864F, 0, 0, 0x61C8864F, 0xC39, 0x864F, 0xA604327, 0xFA824469);
  }

  lemma SixteenZerosWords()
    ensures var b := [0, 0, 0, 0, 0, 0, 0, 0, 0, 0, 0, 0, 0, 0, 0, 0];
            ReadLE32(b, 0) == 0 && ReadLE32(b, 4) == 0 && ReadLE32(b, 8) == 0 && ReadLE32(b, 12) == 0
  {
    hide ReadLE32;
    var b := [0, 0, 0, 0, 0, 0, 0, 0, 0, 0, 0, 0, 0, 0, 0, 0];
    ZeroWord(b, 0);
    ZeroWord(b, 4);
    ZeroWord(b, 8);
    ZeroWord(b, 12);
  }

  lemma SixteenZerosLanes()
    ensures Mix(InitAccs(0), [0, 0, 0, 0, 0, 0, 0, 0, 0, 0, 0, 0, 0, 0, 0, 0]) ==
      [0x93768344, 0x8DF8C7AD, 0, 0xFA824469]
  {
    hide Round, InitAccs, ReadLE32;
    InitLaw(0);
    SixteenZerosWords();
    SixteenZerosRounds();
  }

  lemma SixteenZerosMerged()
    ensures MergeAccs([0x93768344, 0x8DF8C7AD, 0, 0xFA824469]) == 0x34F8C758
  {
    hide MergeAccs;
    MergeLaw([0x93768344, 0x8DF8C7AD, 0, 0xFA824469]);
  }

  lemma SixteenZerosAvalanche()
    ensures Avalanche(0x34F8C768) == 0x8E022B3A
  {
    hide Xor32, Avalanche;
    XorBits32(0x34F8C768, 0x69F1);
    XorBits32(0x9CD0E31F, 0x4E687);
    XorBits32(0x8E02A538, 0x8E02);
    AvalancheAt(0x34F8C768, 0x34F8AE99, 0x1BB5FCE2, 0x9CD0E31F, 0x9CD40598, 0x77462266, 0x8E02A538, 0x8E022B3A);
  }

  lemma SixteenZerosTail()
    ensures Tail(0x34F8C768, []) == 0x8E022B3A
  {
    hide Avalanche, Process4, Process1;
    SixteenZerosAvalanche();
  }

  lemma SixteenZeros()
    ensures Hash(0, [0, 0, 0, 0, 0, 0, 0, 0, 0, 0, 0, 0, 0, 0, 0, 0]) == 0x8E022B3A
  {
    hide Hash, Mix, MergeAccs, Tail, InitAccs;
    var input: seq<byte> := [0, 0, 0, 0, 0, 0, 0, 0, 0, 0, 0, 0, 0, 0, 0, 0];
    assert input[..16] == [0, 0, 0, 0, 0, 0, 0, 0, 0, 0, 0, 0, 0, 0, 0, 0] && input[16..] == [];
    OneBlockHash(0, input);
    SixteenZerosLanes();
    SixteenZerosMerged();
    SixteenZerosTail();
  }

  lemma Vector21Rounds()
    ensures Round(0xC25ABDD9, 0x9B925200) == 0xA32DA122
    ensures Round(0x24234428, 0x24A332B7) == 0x84093460
    ensures Round(0x9E3779B1, 0x95AF002D) == 0x7E251C60
    ensures Round(0, 0x93B8EC0E) == 0x9D7CCCE2
  {
    hide Round;
    RoundAt(0xC25ABDD9, 0x9B925200, 0x51624EF5, 0xCE12DBD9, 0x19C2, 0x2DBD9, 0x3889E09B, 0xA32DA122);
    RoundAt(0x24234428, 0x24A332B7, 0x132A8822, 0x93013D39, 0x1260, 0x13D39, 0x1881C8DC, 0x84093460);
    RoundAt(0x9E3779B1, 0x95AF002D, 0x4E4DC91E, 0xD303109C, 0x1A60, 0x3109C, 0x3C9D5A1C, 0x7E251C60);
    RoundAt(0, 0x93B8EC0E, 0x4D472238, 0x8C12C682, 0x1182, 0x2C682, 0x36E3D147, 0x9D7CCCE2);
  }

  lemma Vector21Words()
    ensures var b := [0, 82, 146, 155, 183, 50, 163, 36, 45, 0, 175, 149, 14, 236, 184, 147];
            ReadLE32(b, 0) == 0x9B925200 && ReadLE32(b, 4) == 0x24A332B7 && ReadLE32(b, 8) == 0x95AF002D
                && ReadLE32(b, 12) == 0x93B8EC0E
  {
  }

  lemma Vector21Lanes()
    ensures Mix(InitAccs(0x9E3779B1), [0, 82, 146, 155, 183, 50, 163, 36, 45, 0, 175, 149, 14, 236, 184, 147]) ==
      [0xA32DA122, 0x84093460, 0x7E251C60, 0x9D7CCCE2]
  {
    hide Round, InitAccs, ReadLE32;
    InitLaw(0x9E3779B1);
    Vector21Words();
    Vector21Rounds();
  }

  lemma Vector21Merged()
    ensures MergeAccs([0xA32DA122, 0x84093460, 0x7E251C60, 0x9D7CCCE2]) == 0xD045F05C
  {
    hide MergeAccs;
    MergeLaw([0xA32DA122, 0x84093460, 0x7E251C60, 0x9D7CCCE2]);
  }

  lemma Vector21Avalanche()
    ensures Avalanche(0x993542B2) == 0x9668CDAB
  {
    hide Xor32, Avalanche;
    XorBits32(0x993542B2, 0x1326A);
    XorBits32(0x66B2E468, 0x33597);
    XorBits32(0x96685BC3, 0x9668);
    AvalancheAt(0x993542B2, 0x993470D8, 0x50255AEE, 0x66B2E468, 0x66B1D1FF, 0x4E1A6EAC, 0x96685BC3, 0x9668CDAB);
  }

  lemma Vector21Step1()
    ensures Process4(0xD045F071, 0x93EFDFE3) == 0x34E59C4F
  {
    hide Process4;
    Process4At(0xD045F071, 0x93EFDFE3, 0x70830924, 0xCC709388, 0x198E1, 0x1388, 0x6142CC1, 0x34E59C4F);
  }

  lemma Vector21Step2()
    ensures Process1(0x34E59C4F, 0xAA) == 0x993542B2
  {
    hide Process1;
    Process1At(0x34E59C4F, 0xAA, 0xF, 0xA4677D9, 0x52, 0x677D9, 0x1FFAF638, 0x993542B2);
  }

  lemma Vector21Tail()
    ensures Tail(0xD045F071, [227, 223, 239, 147, 170]) == 0x9668CDAB
  {
    hide Avalanche, Process4, Process1;
    Vector21Step1();
    assert [227, 223, 239, 147, 170][4..] == [170] && ReadLE32([227, 223, 239, 147, 170], 0) == 0x93EFDFE3;
    Vector21Step2();
    assert [170][1..] == [];
    Vector21Avalanche();
  }

  /** Entry 43 of the test vectors: the first 21 bytes of the test buffer, a block, a word and a byte. */
  lemma Vector21()
    ensures Hash(0x9E3779B1,
            [0, 82, 146, 155, 183, 50, 163, 36, 45, 0, 175, 149, 14, 236, 184, 147, 227, 223, 239, 147, 170])
                == 0x9668CDAB
  {
    hide Hash, Mix, MergeAccs, Tail, InitAccs;
    var input: seq<byte> := [0, 82, 146, 155, 183, 50, 163, 36, 45, 0, 175, 149, 14, 236, 184, 147, 227, 223, 239,
        147, 170];
    assert input[..16] == [0, 82, 146, 155, 183, 50, 163, 36, 45, 0, 175, 149, 14, 236, 184, 147]
           && input[16..] == [227, 223, 239, 147, 170];
    OneBlockHash(0x9E3779B1, input);
    Vector21Lanes();
    Vector21Merged();
    Vector21Tail();
  }
}

module Xxh64Answers {
  import opened Words
  import opened XxhBlocks
  import opened Xxh64

  lemma Parts31(x: u64, hi: nat, low: nat)
    requires x == hi * 0x200000000 + low && low < 0x200000000
    ensures (x as int) * 0x80000000 % 0x1_0000_0000_0000_0000 == low * 0x80000000 && x / 0x200000000 == hi
  {
    ModIs((x as int) * 0x80000000, hi, low * 0x80000000);
  }

  lemma Parts27(x: u64, hi: nat, low: nat)
    requires x == hi * 0x2000000000 + low && low < 0x2000000000
    ensures (x as int) * 0x8000000 % 0x1_0000_0000_0000_0000 == low * 0x8000000 && x / 0x2000000000 == hi
  {
    ModIs((x as int) * 0x8000000, hi, low * 0x8000000);
  }

  lemma Parts23(x: u64, hi: nat, low: nat)
    requires x == hi * 0x20000000000 + low && low < 0x20000000000
    ensures (x as int) * 0x800000 % 0x1_0000_0000_0000_0000 == low * 0x800000 && x / 0x20000000000 == hi
  {
    ModIs((x as int) * 0x800000, hi, low * 0x800000);
  }

  lemma Parts11(x: u64, hi: nat, low: nat)
    requires x == hi * 0x20000000000000 + low && low < 0x20000000000000
    ensures (x as int) * 0x800 % 0x1_0000_0000_0000_0000 == low * 0x800 && x / 0x20000000000000 == hi
  {
    ModIs((x as int) * 0x800, hi, low * 0x800);
  }

  lemma RoundAt(acc: u64, input: u64, q: int, x: u64, hi: nat, low: nat, p: int, r: u64)
    requires acc + input * 0xC2B2AE3D27D4EB4F == q * 0x1_0000_0000_0000_0000 + x
    requires x == hi * 0x200000000 + low && low < 0x200000000
    requires (low * 0x80000000 + hi) * 0x9E3779B185EBCA87 == p * 0x1_0000_0000_0000_0000 + r
    ensures Round(acc, input) == r
  {
    hide Round;
    RoundLaw(acc, input);
    ModIs(acc + input * 0xC2B2AE3D27D4EB4F, q, x);
    Parts31(x, hi, low);
    ModIs((low * 0x80000000 + hi) * 0x9E3779B185EBCA87, p, r);
  }

  lemma MergeRoundAt(acc: u64, val: u64, k: u64, x: u64, p: int, r: u64)
    requires Round(0, val) == k && Xor64(acc, k) == x
    requires (x as int) * 0x9E3779B185EBCA87 + 0x85EBCA77C2B2AE63 == p * 0x1_0000_0000_0000_0000 + r
    ensures MergeRound(acc, val) == r
  {
    hide MergeRound, Round, Xor64;
    MergeRoundLaw(acc, val);
    ModIs((x as int) * 0x9E3779B185EBCA87 + 0x85EBCA77C2B2AE63, p, r);
  }

  lemma Process8At(hash: u64, word: u64, k: u64, x: u64, hi: nat, low: nat, p: int, r: u64)
    requires Round(0, word) == k && Xor64(hash, k) == x
    requires x == hi * 0x2000000000 + low && low < 0x2000000000
    requires (low * 0x8000000 + hi) * 0x9E3779B185EBCA87 + 0x85EBCA77C2B2AE63 == p * 0x1_0000_0000_0000_0000 + r
    ensures Process8(hash, word) == r
  {
    hide Process8, Round, Xor64;
    Process8Law(hash, word);
    Parts27(x, hi, low);
    ModIs((low * 0x8000000 + hi) * 0x9E3779B185EBCA87 + 0x85EBCA77C2B2AE63, p, r);
  }

  lemma Process4At(hash: u64, word: u32, q: int, k: u64, x: u64, hi: nat, low: nat, p: int, r: u64)
    requires (word as int) * 0x9E3779B185EBCA87 == q * 0x1_0000_0000_0000_0000 + k && Xor64(hash, k) == x
    requires x == hi * 0x20000000000 + low && low < 0x20000000000
    requires (low * 0x800000 + hi) * 0xC2B2AE3D27D4EB4F + 0x165667B19E3779F9 == p * 0x1_0000_0000_0000_0000 + r
    ensures Process4(hash, word) == r
  {
    hide Process4, Xor64;
    Process4Law(hash, word);
    ModIs((word as int) * 0x9E3779B185EBCA87, q, k);
    Parts23(x, hi, low);
    ModIs((low * 0x800000 + hi) * 0xC2B2AE3D27D4EB4F + 0x165667B19E3779F9, p, r);
  }

  lemma Process1At(hash: u64, b: byte, q: int, k: u64, x: u64, hi: nat, low: nat, p: int, r: u64)
    requires (b as int) * 0x27D4EB2F165667C5 == q * 0x1_0000_0000_0000_0000 + k && Xor64(hash, k) == x
    requires x == hi * 0x20000000000000 + low && low < 0x20000000000000
    requires (low * 0x800 + hi) * 0x9E3779B185EBCA87 == p * 0x1_0000_0000_0000_0000 + r
    ensures Process1(hash, b) == r
  {
    hide Process1, Xor64;
    Process1Law(hash, b);
    ModIs((b as int) * 0x27D4EB2F165667C5, q, k);
    Parts11(x, hi, low);
    ModIs((low * 0x800 + hi) * 0x9E3779B185EBCA87, p, r);
  }

  lemma AvalancheAt(hash: u64, x: u64, p: int, a: u64, y: u64, q: int, b: u64, z: u64)
    requires Xor64(hash, hash / 0x200000000) == x
    requires (x as int) * 0xC2B2AE3D27D4EB4F == p * 0x1_0000_0000_0000_0000 + a
    requires Xor64(a, a / 0x20000000) == y
    requires (y as int) * 0x165667B19E3779F9 == q * 0x1_0000_0000_0000_0000 + b
    requires Xor64(b, b / 0x100000000) == z
    ensures Avalanche(hash) == z
  {
    hide Xor64, Avalanche;
    AvalancheLaw(hash);
    ModIs((x as int) * 0xC2B2AE3D27D4EB4F, p, a);
    ModIs((y as int) * 0x165667B19E3779F9, q, b);
  }

  lemma StartSum(seed: u64, len: nat)
    ensures Add64(Add64(seed, PRIME_5), Mod64(len))
            == (seed as int + 0x27D4EB2F165667C5 + len) % 0x1_0000_0000_0000_0000
  {
    TwoMods(seed as int + PRIME_5, len);
    assert Add64(seed, PRIME_5) == Mod64(seed as int + PRIME_5);
    hide Add64, Mod64;
    assert Mod64(seed as int + PRIME_5 + len) == (seed as int + 0x27D4EB2F165667C5 + len) % 0x1_0000_0000_0000_0000 by {
      ModOf(seed as int + 0x27D4EB2F165667C5 + len);
    }
  }

  lemma ModOf(a: int)
    ensures Mod64(a) == a % 0x1_0000_0000_0000_0000
  {
  }

  lemma ShortHash(seed: u64, input: seq<byte>)
    requires |input| < 32
    ensures Hash(seed, input) == Tail((seed as int + 0x27D4EB2F165667C5 + |input|) % 0x1_0000_0000_0000_0000, input)
  {
    hide Tail, Add64, Mod64;
    StartSum(seed, |input|);
    assert input[|input| - |input| % 32..] == input;
  }

  lemma EndSum(h: u64, len: nat)
    ensures Add64(h, Mod64(len)) == (h as int + len) % 0x1_0000_0000_0000_0000
  {
    AddModulo(h, len);
  }

  lemma OneBlock(acc: Quad, input: seq<byte>)
    requires |input| >= 32
    ensures Times(1, 32) == 32 && Blocks(Blocks32(), acc, input, 0, 1) == Mix(acc, input[..32])
  {
    hide Mix, Blocks;
    BlocksInOrder(Blocks32(), acc, input, 0, 0);
    assert input[0 + 0 * 32..0 + 0 * 32 + 32] == input[..32];
  }

  lemma OneBlockLength(len: nat)
    requires 32 <= len < 64
    ensures len / 32 == 1 && len - len % 32 == 32
  {
  }

  lemma OneBlockTail(seed: u64, input: seq<byte>)
    requires 32 <= |input| < 64 && Times(1, 32) == 32
    ensures Hash(seed, input) ==
      Tail(Add64(MergeAccs(Blocks(Blocks32(), InitAccs(seed), input, 0, 1)), Mod64(|input|)), input[32..])
  {
    hide Tail, MergeAccs, Mix, InitAccs, Add64, Mod64, Blocks, Times;
    OneBlockLength(|input|);
  }

  lemma OneBlockHash(seed: u64, input: seq<byte>)
    requires 32 <= |input| < 64
    ensures Hash(seed, input) ==
      Tail((MergeAccs(Mix(InitAccs(seed), input[..32])) as int + |input|) % 0x1_0000_0000_0000_0000, input[32..])
  {
    hide Hash, Tail, MergeAccs, Mix, InitAccs, Add64, Mod64, Blocks, Blocks32, Times;
    OneBlock(InitAccs(seed), input);
    OneBlockTail(seed, input);
    EndSum(MergeAccs(Mix(InitAccs(seed), input[..32])), |input|);
  }

  lemma EmptyXor1()
    ensures Xor64(0x27D4EB2F165667C5, 0x13EA7597) == 0x27D4EB2F05BC1252
  {
    hide Xor64;
    XorBits64(0x27D4EB2F165667C5, 0x13EA7597);
  }

  lemma EmptyXor2()
    ensures Xor64(0xBEB13DDA13C2ED4E, 0x5F589EED0) == 0xBEB13DDFE64B039E
  {
    hide Xor64;
    XorBits64(0xBEB13DDA13C2ED4E, 0x5F589EED0);
  }

  lemma EmptyXor3()
    ensures Xor64(0xEF46DB37BE9E32AE, 0xEF46DB37) == 0xEF46DB3751D8E999
  {
    hide Xor64;
    XorBits64(0xEF46DB37BE9E32AE, 0xEF46DB37);
  }

  lemma EmptyAvalanche()
    ensures Avalanche(0x27D4EB2F165667C5) == 0xEF46DB3751D8E999
  {
    hide Xor64, Avalanche;
    EmptyXor1();
    EmptyXor2();
    EmptyXor3();
    AvalancheAt(0x27D4EB2F165667C5, 0x27D4EB2F05BC1252, 0x1E4B276164D31384, 0xBEB13DDA13C2ED4E, 0xBEB13DDFE64B039E,
        0x10A39819A54D6418, 0xEF46DB37BE9E32AE, 0xEF46DB3751D8E999);
  }

  lemma Empty()
    ensures Hash(0, []) == 0xEF46DB3751D8E999
  {
    hide Avalanche, Hash;
    EmptyAvalanche();
    ShortHash(0, []);
  }

  lemma Vector45Rounds()
    ensures Round(0x60EA27EF4BF82F87, 0x24A332B79B925200) == 0x51FD4DBAE1D7E238
    ensures Round(0xC2B2AE3DC60C6500, 0x93B8EC0E95AF002D) == 0xB784D54EA9ABD2D8
    ensures Round(0x9E3779B1, 0x2ACDD6AA93EFDFE3) == 0x7B1C684714278C7C
    ensures Round(0x61C8864F184BAF2A, 0xD56F5A543F5C8B53) == 0x952B9F582D6589E2
  {
    hide Round;
    RoundAt(0x60EA27EF4BF82F87, 0x24A332B79B925200, 0x1BDD3ED8149E44EC, 0x12F041187657D87, 0x978208, 0x187657D87,
        0x78F2BA2AD67E8CC4, 0x51FD4DBAE1D7E238);
    RoundAt(0xC2B2AE3DC60C6500, 0x93B8EC0E95AF002D, 0x70593E022A10E3E9, 0xA47228D19C7AC1E3, 0x52391468, 0x19C7AC1E3,
        0x7F76930F1AD99149, 0xB784D54EA9ABD2D8);
    RoundAt(0x9E3779B1, 0x2ACDD6AA93EFDFE3, 0x208DDCEEA853B127, 0xE78A854974BEF1BE, 0x73C542A4, 0x174BEF1BE,
        0x732F4FB53F19119B, 0x7B1C684714278C7C);
    RoundAt(0x61C8864F184BAF2A, 0xD56F5A543F5C8B53, 0xA2535B2552BB743A, 0xDFF1EB1C9F7BDEC7, 0x6FF8F58E, 0x9F7BDEC7,
        0x314881762EC4165F, 0x952B9F582D6589E2);
  }

  lemma Vector45Words()
    ensures var b := [0, 82, 146, 155, 183, 50, 163, 36, 45, 0, 175, 149, 14, 236, 184, 147, 227, 223, 239, 147, 170,
            214, 205, 42, 83, 139, 92, 63, 84, 90, 111, 213];
            ReadLE64(b, 0) == 0x24A332B79B925200 && ReadLE64(b, 8) == 0x93B8EC0E95AF002D
                && ReadLE64(b, 16) == 0x2ACDD6AA93EFDFE3 && ReadLE64(b, 24) == 0xD56F5A543F5C8B53
  {
  }

  lemma Vector45Lanes()
    ensures Mix(InitAccs(0x9E3779B1),
            [0, 82, 146, 155, 183, 50, 163, 36, 45, 0, 175, 149, 14, 236, 184, 147, 227, 223, 239, 147, 170, 214,
                205, 42, 83, 139, 92, 63, 84, 90, 111, 213]) ==
      [0x51FD4DBAE1D7E238, 0xB784D54EA9ABD2D8, 0x7B1C684714278C7C, 0x952B9F582D6589E2]
  {
    hide Round, InitAccs, ReadLE64;
    InitLaw(0x9E3779B1);
    Vector45Words();
    Vector45Rounds();
  }

  lemma Vector45Merge1()
    ensures MergeRound(0xAA4A69A339EB4D2A, 0x51FD4DBAE1D7E238) == 0xFF06B626F3FE4DB6
  {
    hide Round, MergeRound, Xor64;
    RoundAt(0, 0x51FD4DBAE1D7E238, 0x3E5B2ED56C08F48A, 0xF1D36B92BCA83748, 0x78E9B5C9, 0xBCA83748,
        0x3A4C59F89D86A678, 0x1BA87618793276FF);
    XorBits64(0xAA4A69A339EB4D2A, 0x1BA87618793276FF);
    MergeRoundAt(0xAA4A69A339EB4D2A, 0x51FD4DBAE1D7E238, 0x1BA87618793276FF, 0xB1E21FBB40D93BD5, 0x6DF01BB99EA6C581,
        0xFF06B626F3FE4DB6);
  }

  lemma Vector45Merge2()
    ensures MergeRound(0xFF06B626F3FE4DB6, 0xB784D54EA9ABD2D8) == 0x69CFBCEA15CE9D19
  {
    hide Round, MergeRound, Xor64;
    RoundAt(0, 0xB784D54EA9ABD2D8, 0x8B92C0EA0D765980, 0xB43AC5E8997258A8, 0x5A1D62F4, 0x997258A8,
        0x2F6AE99D4FDBE303, 0x2363ABAD4F8FB6AC);
    XorBits64(0xFF06B626F3FE4DB6, 0x2363ABAD4F8FB6AC);
    MergeRoundAt(0xFF06B626F3FE4DB6, 0xB784D54EA9ABD2D8, 0x2363ABAD4F8FB6AC, 0xDC651D8BBC71FB1A, 0x88362ABA377FD6AE,
        0x69CFBCEA15CE9D19);
  }

  lemma Vector45Merge3()
    ensures MergeRound(0x69CFBCEA15CE9D19, 0x7B1C684714278C7C) == 0xD566F134A5EABDE5
  {
    hide Round, MergeRound, Xor64;
    RoundAt(0, 0x7B1C684714278C7C, 0x5DA17491167EDD2A, 0x958CE622C0DA2E44, 0x4AC67311, 0xC0DA2E44,
        0x3B98398D90523D26, 0xB15B97CA7B0D17F7);
    XorBits64(0x69CFBCEA15CE9D19, 0xB15B97CA7B0D17F7);
    MergeRoundAt(0x69CFBCEA15CE9D19, 0x7B1C684714278C7C, 0xB15B97CA7B0D17F7, 0xD8942B206EC38AEE, 0x85DA61678075174B,
        0xD566F134A5EABDE5);
  }

  lemma Vector45Merge4()
    ensures MergeRound(0xD566F134A5EABDE5, 0x952B9F582D6589E2) == 0x4B881EA29DADF279
  {
    hide Round, MergeRound, Xor64;
    RoundAt(0, 0x952B9F582D6589E2, 0x71732C9CE69F2078, 0x6FB9A4D3D51002BE, 0x37DCD269, 0x1D51002BE,
        0x90F2C38DFB4EEBA5, 0xBAEBF7E966DCCF5F);
    XorBits64(0xD566F134A5EABDE5, 0xBAEBF7E966DCCF5F);
    MergeRoundAt(0xD566F134A5EABDE5, 0x952B9F582D6589E2, 0xBAEBF7E966DCCF5F, 0x6F8D06DDC33672BA, 0x44F136905B3C1F61,
        0x4B881EA29DADF279);
  }

  lemma Vector45Sum()
    ensures ((0x51FD4DBAE1D7E238 * 2 + 0x51FD4DBAE1D7E238 / 0x8000000000000000)
         + (0xB784D54EA9ABD2D8 * 128 + 0xB784D54EA9ABD2D8 / 0x200000000000000)
         + (0x7B1C684714278C7C * 4096 + 0x7B1C684714278C7C / 0x10000000000000)
         + (0x952B9F582D6589E2 * 262144 + 0x952B9F582D6589E2 / 0x400000000000)) % 0x1_0000_0000_0000_0000
      == 0xAA4A69A339EB4D2A
  {
    ModIs((0x51FD4DBAE1D7E238 * 2 + 0x51FD4DBAE1D7E238 / 0x8000000000000000)
         + (0xB784D54EA9ABD2D8 * 128 + 0xB784D54EA9ABD2D8 / 0x200000000000000)
         + (0x7B1C684714278C7C * 4096 + 0x7B1C684714278C7C / 0x10000000000000)
         + (0x952B9F582D6589E2 * 262144 + 0x952B9F582D6589E2 / 0x400000000000), 154812, 0xAA4A69A339EB4D2A);
  }

  lemma Vector45Merged()
    ensures MergeAccs([0x51FD4DBAE1D7E238, 0xB784D54EA9ABD2D8, 0x7B1C684714278C7C, 0x952B9F582D6589E2]) ==
      0x4B881EA29DADF279
  {
    hide MergeAccs, MergeRound;
    MergeLaw([0x51FD4DBAE1D7E238, 0xB784D54EA9ABD2D8, 0x7B1C684714278C7C, 0x952B9F582D6589E2]);
    Vector45Sum();
    Vector45Merge1();
    Vector45Merge2();
    Vector45Merge3();
    Vector45Merge4();
  }

  lemma Vector45Xor1()
    ensures Xor64(0x916B9ED737AB21C7, 0x48B5CF6B) == 0x916B9ED77F1EEEAC
  {
    hide Xor64;
    XorBits64(0x916B9ED737AB21C7, 0x48B5CF6B);
  }

  lemma Vector45Xor2()
    ensures Xor64(0xA60899277A138B14, 0x53044C93B) == 0xA60899224A57422F
  {
    hide Xor64;
    XorBits64(0xA60899277A138B14, 0x53044C93B);
  }

  lemma Vector45Xor3()
    ensures Xor64(0x66BDA694C74096B7, 0x66BDA694) == 0x66BDA694A1FD3023
  {
    hide Xor64;
    XorBits64(0x66BDA694C74096B7, 0x66BDA694);
  }

  lemma Vector45Avalanche()
    ensures Avalanche(0x916B9ED737AB21C7) == 0x66BDA694A1FD3023
  {
    hide Xor64, Avalanche;
    Vector45Xor1();
    Vector45Xor2();
    Vector45Xor3();
    AvalancheAt(0x916B9ED737AB21C7, 0x916B9ED77F1EEEAC, 0x6E990E2DA3677E1D, 0xA60899277A138B14, 0xA60899224A57422F,
        0xE7CC74D0C146F16, 0x66BDA694C74096B7, 0x66BDA694A1FD3023);
  }

  lemma Vector45Step1()
    ensures Process8(0x4B881EA29DADF2A6, 0x33B9858FFCFFC059) == 0x8E06BC0206DEC35D
  {
    hide Process8, Round, Xor64;
    RoundAt(0, 0x33B9858FFCFFC059, 0x2756B16A6FE0B363, 0x1C3331FBB1320E77, 0xE1998FD, 0x1B1320E77,
        0x85DD624DD7077AD9, 0xEA43E87003764F6B);
    XorBits64(0x4B881EA29DADF2A6, 0xEA43E87003764F6B);
    Process8At(0x4B881EA29DADF2A6, 0x33B9858FFCFFC059, 0xEA43E87003764F6B, 0xA1CBF6D29EDBBDCD, 0x50E5FB6,
        0x129EDBBDCD, 0x5C10A4D2D10AE652, 0x8E06BC0206DEC35D);
  }

  lemma Vector45Step2()
    ensures Process4(0x8E06BC0206DEC35D, 0xF774AB1D) == 0x896341EF079541E1
  {
    hide Process4, Xor64;
    XorBits64(0x8E06BC0206DEC35D, 0x67398CD0B22A1E4B);
    Process4At(0x8E06BC0206DEC35D, 0xF774AB1D, 0x98EFA14E, 0x67398CD0B22A1E4B, 0xE93F30D2B4F4DD16, 0x749F98,
        0xD2B4F4DD16, 0x5020196590B60F93, 0x896341EF079541E1);
  }

  lemma Vector45Step3()
    ensures Process1(0x896341EF079541E1, 0xB6) == 0x916B9ED737AB21C7
  {
    hide Process1, Xor64;
    XorBits64(0x896341EF079541E1, 0x515F3379E16DC60E);
    Process1At(0x896341EF079541E1, 0xB6, 0x1C, 0x515F3379E16DC60E, 0xD83C7296E6F887EF, 0x6C1, 0x1C7296E6F887EF,
        0x8CA71A36E39443EF, 0x916B9ED737AB21C7);
  }

  lemma Vector45Tail()
    ensures Tail(0x4B881EA29DADF2A6, [89, 192, 255, 252, 143, 133, 185, 51, 29, 171, 116, 247, 182])
            == 0x66BDA694A1FD3023
  {
    hide Avalanche, Process4, Process1, Process8;
    Vector45Step1();
    assert [89, 192, 255, 252, 143, 133, 185, 51, 29, 171, 116, 247, 182][8..] == [29, 171, 116, 247, 182]
           && ReadLE64([89, 192, 255, 252, 143, 133, 185, 51, 29, 171, 116, 247, 182], 0) == 0x33B9858FFCFFC059;
    Vector45Step2();
    assert [29, 171, 116, 247, 182][4..] == [182] && ReadLE32([29, 171, 116, 247, 182], 0) == 0xF774AB1D;
    Vector45Step3();
    assert [182][1..] == [];
    Vector45Avalanche();
  }

  /** Entry 91 of the test vectors: the first 45 bytes, a block, two words of either size and a byte. */
  lemma Vector45()
    ensures Hash(0x9E3779B1,
            [0, 82, 146, 155, 183, 50, 163, 36, 45, 0, 175, 149, 14, 236, 184, 147, 227, 223, 239, 147, 170, 214,
                205, 42, 83, 139, 92, 63, 84, 90, 111, 213, 89, 192, 255, 252, 143, 133, 185, 51, 29, 171, 116, 247,
                    182]) == 0x66BDA694A1FD3023
  {
    hide Hash, Mix, MergeAccs, Tail, InitAccs;
    var input: seq<byte> := [0, 82, 146, 155, 183, 50, 163, 36, 45, 0, 175, 149, 14, 236, 184, 147, 227, 223, 239,
        147, 170, 214, 205, 42, 83, 139, 92, 63, 84, 90, 111, 213, 89, 192, 255, 252, 143, 133, 185, 51, 29, 171,
            116, 247, 182];
    assert input[..32]
           == [0, 82, 146, 155, 183, 50, 163, 36, 45, 0, 175, 149, 14, 236, 184, 147, 227, 223, 239, 147, 170, 214,
               205, 42, 83, 139, 92, 63, 84, 90, 111, 213]
                   && input[32..] == [89, 192, 255, 252, 143, 133, 185, 51, 29, 171, 116, 247, 182];
    OneBlockHash(0x9E3779B1, input);
    Vector45Lanes();
    Vector45Merged();
    Vector45Tail();
  }
}

/** XXH3 takes its first lanes and the multiplier of its scramble from the primes of the two others. */
module Xxh3Constants {
  import Xxh32
  import Xxh64
  import Xxh3Secret
  import Xxh3Kernel

  lemma InitAccOfPrimes()
    ensures Xxh3Secret.InitAcc() ==
      [Xxh32.PRIME_3, Xxh64.PRIME_1, Xxh64.PRIME_2, Xxh64.PRIME_3,
       Xxh64.PRIME_4, Xxh32.PRIME_2, Xxh64.PRIME_5, Xxh32.PRIME_1]
    ensures Xxh3Kernel.PRIME32_1 == Xxh32.PRIME_1
  {
  }
}
