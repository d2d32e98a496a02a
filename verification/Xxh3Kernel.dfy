/** The arithmetic under the stripes: the sequential scalar lanes, the vector registers and the
    scalar/NEON mix all compute the same eight lanes; likewise the two scrambles. */
module Xxh3Kernel {
  import opened Words
  import opened Xxh3Stripes

  const PRIME32_1: u32 := 0x9E3779B1

  /** The neighbour of a lane: lane ^ 1. */
  function Swap(i: nat): nat
    requires i < 8
    ensures Swap(i) < 8 && Swap(i) != i && Swap(i) / 2 == i / 2
  {
    if i % 2 == 0 then i + 1 else i - 1
  }

  function Word(s: Stripe, lane: nat): u64
    requires lane < 8
  {
    ReadLE64(s, 8 * lane)
  }

  /** The 32 x 32 product of a lane: low half of the keyed word times its high half. */
  function Product(input: Stripe, key: Stripe, lane: nat): u64
    requires lane < 8
  {
    var dataKey := Xor64(Word(input, lane), Word(key, lane));
    Mult32to64(dataKey, Hi(dataKey))
  }

  /** XXH_mult32to64: only the low halves are multiplied, and the product never wraps. */
  function Mult32to64(x: u64, y: u64): u64 {
    HalfProduct(Lo(x), Lo(y));
    Lo(x) * Lo(y)
  }

  lemma HalfProduct(a: u32, b: u32)
    ensures 0 <= a * b <= 0xFFFF_FFFE_0000_0001
  {
    MulMono(a, b, 0xFFFF_FFFF);
    MulMono(0xFFFF_FFFF, a, 0xFFFF_FFFF);
  }

  lemma MulMono(a: nat, b: nat, c: nat)
    requires b <= c
    ensures 0 <= a * b <= a * c
  {
    assert a * c == a * b + a * (c - b);
  }

  /** Reference: each lane gains its neighbour's data and its own product. */
  function AccumulateLane(acc: Lanes, input: Stripe, key: Stripe, i: nat): u64
    requires i < 8
  {
    Mod64(acc[i] + Word(input, Swap(i)) + Product(input, key, i))
  }

  function AccumulateLanes(acc: Lanes, input: Stripe, key: Stripe): Lanes {
    seq(8, i requires 0 <= i < 8 => AccumulateLane(acc, input, key, i))
  }

  /** XXH3_scalarRound, in place: the neighbour first, then the lane itself. */
  method ScalarRound(acc: array<u64>, input: Stripe, key: Stripe, lane: nat)
    requires acc.Length == 8 && lane < 8
    modifies acc
    ensures acc[Swap(lane)] == Mod64(old(acc[Swap(lane)]) + Word(input, lane))
    ensures acc[lane] == Mod64(Product(input, key, lane) + old(acc[lane]))
    ensures forall j :: 0 <= j < 8 && j != lane && j != Swap(lane) ==> acc[j] == old(acc[j])
  {
    acc[Swap(lane)] := Mod64(acc[Swap(lane)] + Word(input, lane));
    acc[lane] := Mod64(Product(input, key, lane) + acc[lane]);
  }

  /** What the scalar loop has made of lane j once it reached lane i, having started at from. */
  ghost function ScalarLane(acc: Lanes, input: Stripe, key: Stripe, from: nat, i: nat, j: nat): u64
    requires i <= 8 && j < 8
  {
    var own := if from <= j < i then Product(input, key, j) else 0;
    var neighbour := if from <= Swap(j) < i then Word(input, Swap(j)) else 0;
    Mod64(acc[j] + neighbour + own)
  }

  lemma ScalarLaneStep(acc: Lanes, input: Stripe, key: Stripe, from: nat, i: nat)
    requires from <= i < 8
    ensures ScalarLane(acc, input, key, from, i + 1, i)
         == Mod64(Product(input, key, i) + ScalarLane(acc, input, key, from, i, i))
    ensures ScalarLane(acc, input, key, from, i + 1, Swap(i))
         == Mod64(ScalarLane(acc, input, key, from, i, Swap(i)) + Word(input, i))
    ensures forall j :: 0 <= j < 8 && j != i && j != Swap(i) ==>
              ScalarLane(acc, input, key, from, i + 1, j) == ScalarLane(acc, input, key, from, i, j)
  {
    hide Word, Product, Mod64, Swap;
    SwapTwice(i);
    var j := Swap(i);
    ModSum(acc[i] + (if from <= j < i then Word(input, j) else 0), Product(input, key, i));
    ModSum(acc[j] + (if from <= j < i then Product(input, key, j) else 0), Word(input, i));
    forall j | 0 <= j < 8 && j != i && j != Swap(i)
      ensures ScalarLane(acc, input, key, from, i + 1, j) == ScalarLane(acc, input, key, from, i, j)
    {
      SwapTwice(j);
    }
  }

  lemma SwapTwice(i: nat)
    requires i < 8
    ensures Swap(Swap(i)) == i && Swap(i) != i
  {
  }

  lemma ModSum(a: int, b: int)
    ensures Mod64(b + Mod64(a)) == Mod64(a + b) == Mod64(Mod64(a) + b)
  {
  }

  /** XXH3_accumulate_512_scalar, and the scalar half of the NEON form when from > 0. */
  method ScalarLanes(acc: array<u64>, input: Stripe, key: Stripe, from: nat)
    requires acc.Length == 8 && from <= 8
    modifies acc
    ensures forall j :: 0 <= j < 8 ==> acc[j] == ScalarLane(old(acc[..]), input, key, from, 8, j)
  {
    hide Word, Product, ScalarLane;
    ghost var start: Lanes := acc[..];
    forall j | 0 <= j < 8
      ensures ScalarLane(start, input, key, from, from, j) == acc[j]
    {
      ScalarLaneStart(start, input, key, from, j);
    }
    for i := from to 8
      invariant forall j :: 0 <= j < 8 ==> acc[j] == ScalarLane(start, input, key, from, i, j)
    {
      ScalarLaneStep(start, input, key, from, i);
      ScalarRound(acc, input, key, i);
    }
  }

  lemma ScalarLaneStart(acc: Lanes, input: Stripe, key: Stripe, from: nat, j: nat)
    requires from <= 8 && j < 8
    ensures ScalarLane(acc, input, key, from, from, j) == acc[j]
  {
  }

  method ScalarAccumulate512(acc: array<u64>, input: Stripe, key: Stripe)
    requires acc.Length == 8
    modifies acc
    ensures acc[..] == AccumulateLanes(old(acc[..]), input, key)
  {
    hide Word, Product;
    ScalarLanes(acc, input, key, 0);
  }

  /** One lane of a register: the swapped data is added first, then the product. */
  function VectorLane(acc: u64, input: Stripe, key: Stripe, j: nat): u64
    requires j < 8
  {
    Mod64(Product(input, key, j) + Mod64(acc + Word(input, Swap(j))))
  }

  /** One vector register of width lanes starting at lane: swapped data and products are added
      to all its lanes at once. */
  method VectorRegister(acc: array<u64>, input: Stripe, key: Stripe, lane: nat, width: nat)
    requires acc.Length == 8 && lane + width <= 8 && lane % 2 == 0 && width % 2 == 0
    modifies acc
    ensures forall j :: lane <= j < lane + width ==> acc[j] == AccumulateLane(old(acc[..]), input, key, j)
    ensures forall j :: 0 <= j < 8 && !(lane <= j < lane + width) ==> acc[j] == old(acc[j])
  {
    hide Word, Product, Mod64, Swap;
    forall j | lane <= j < lane + width
      ensures VectorLane(acc[j], input, key, j) == AccumulateLane(acc[..], input, key, j)
    {
      ModSum(acc[j] + Word(input, Swap(j)), Product(input, key, j));
    }
    forall j | lane <= j < lane + width {
      acc[j] := VectorLane(acc[j], input, key, j);
    }
  }

  /** XXH3_accumulate_512 for registers of 2, 4 or 8 lanes (SSE2, AVX2, AVX512). */
  method VectorAccumulate512(acc: array<u64>, input: Stripe, key: Stripe, width: nat)
    requires acc.Length == 8 && width in {2, 4, 8}
    modifies acc
    ensures acc[..] == AccumulateLanes(old(acc[..]), input, key)
  {
    hide Word, Product;
    VectorPart(acc, input, key, width, 8 / width);
  }

  /** The first n registers. */
  method VectorPart(acc: array<u64>, input: Stripe, key: Stripe, width: nat, n: nat)
    requires acc.Length == 8 && width in {2, 4, 8} && width * n <= 8
    modifies acc
    ensures forall j :: 0 <= j < width * n ==> acc[j] == AccumulateLane(old(acc[..]), input, key, j)
    ensures forall j :: width * n <= j < 8 ==> acc[j] == old(acc[j])
  {
    hide Word, Product;
    for i := 0 to n
      invariant forall j :: 0 <= j < width * i ==> acc[j] == AccumulateLane(old(acc[..]), input, key, j)
      invariant forall j :: width * i <= j < 8 ==> acc[j] == old(acc[j])
    {
      ghost var before: Lanes := acc[..];
      VectorRegister(acc, input, key, width * i, width);
    }
  }

  // ----- NEON: registers of two 64-bit lanes, or of four 32-bit lanes

  type Vec64 = v: seq<u64> | |v| == 2 witness [0, 0]
  type Vec32 = v: seq<u32> | |v| == 4 witness [0, 0, 0, 0]

  /** Register i of a stripe, and the same with its lanes swapped. */
  function Load(s: Stripe, i: nat): Vec64
    requires i < 4
  {
    [Word(s, 2 * i), Word(s, 2 * i + 1)]
  }

  function Swapped(v: Vec64): Vec64 {
    [v[1], v[0]]
  }

  function XorLanes(a: Vec64, b: Vec64): Vec64 {
    hide Xor64;
    [Xor64(a[0], b[0]), Xor64(a[1], b[1])]
  }

  /** The same register seen as four 32-bit lanes, the low half of each lane first. */
  function Halved(v: Vec64): Vec32 {
    [Lo(v[0]), Hi(v[0]), Lo(v[1]), Hi(v[1])]
  }

  /** vuzpq_u32: the even lanes of both, and the odd lanes of both. */
  function Evens(a: Vec32, b: Vec32): Vec32 {
    [a[0], a[2], b[0], b[2]]
  }

  function Odds(a: Vec32, b: Vec32): Vec32 {
    [a[1], a[3], b[1], b[3]]
  }

  /** One lane of a widening multiply and add. */
  function WideningMla(a: u64, x: u32, y: u32): u64 {
    HalfProduct(x, y);
    Mod64(a + x * y)
  }

  /** vmlal_u32 on the low and on the high lanes. */
  function MlalLow(a: Vec64, x: Vec32, y: Vec32): Vec64 {
    [WideningMla(a[0], x[0], y[0]), WideningMla(a[1], x[1], y[1])]
  }

  function MlalHigh(a: Vec64, x: Vec32, y: Vec32): Vec64 {
    [WideningMla(a[0], x[2], y[2]), WideningMla(a[1], x[3], y[3])]
  }

  /** The sum that lane j gains, computed the NEON way. */
  lemma NeonLane(acc: Lanes, input: Stripe, key: Stripe, j: nat)
    requires j < 8
    ensures var dataKey := Xor64(Word(input, j), Word(key, j));
            Add64(acc[j], WideningMla(Word(input, Swap(j)), Lo(dataKey), Hi(dataKey)))
                == AccumulateLane(acc, input, key, j)
  {
    hide Word, Xor64, Swap, Mod64, Lo, Hi;
    var dataKey := Xor64(Word(input, j), Word(key, j));
    WordHalves(dataKey);
    HalfProduct(Lo(dataKey), Hi(dataKey));
    assert Product(input, key, j) == Lo(dataKey) * Hi(dataKey);
    ModSum(Word(input, Swap(j)) + Product(input, key, j), acc[j]);
    AddIsMod(acc[j], WideningMla(Word(input, Swap(j)), Lo(dataKey), Hi(dataKey)));
  }

  lemma AddIsMod(a: u64, b: u64)
    ensures Add64(a, b) == Mod64(a + b)
  {
  }

  /** Two registers at once: both are de-interleaved into the low and the high halves of four lanes. */
  method NeonFour(acc: array<u64>, input: Stripe, key: Stripe, i: nat)
    requires acc.Length == 8 && i + 1 < 4
    modifies acc
    ensures forall j :: 2 * i <= j < 2 * i + 4 ==> acc[j] == AccumulateLane(old(acc[..]), input, key, j)
    ensures forall j :: 0 <= j < 8 && !(2 * i <= j < 2 * i + 4) ==> acc[j] == old(acc[j])
  {
    hide Word, AccumulateLane, WideningMla, Xor64, Add64, Lo, Hi;
    ghost var was: Lanes := acc[..];
    forall j | 2 * i <= j < 2 * i + 4
      ensures var dataKey := Xor64(Word(input, j), Word(key, j));
              Add64(was[j], WideningMla(Word(input, Swap(j)), Lo(dataKey), Hi(dataKey)))
                  == AccumulateLane(was, input, key, j)
    {
      NeonLane(was, input, key, j);
    }
    var data1, data2 := Load(input, i), Load(input, i + 1);
    var swap1, swap2 := Swapped(data1), Swapped(data2);
    var key1, key2 := Halved(XorLanes(data1, Load(key, i))), Halved(XorLanes(data2, Load(key, i + 1)));
    var lo, hi := Evens(key1, key2), Odds(key1, key2);
    var sum1, sum2 := MlalLow(swap1, lo, hi), MlalHigh(swap2, lo, hi);
    acc[2 * i], acc[2 * i + 1] := Add64(acc[2 * i], sum1[0]), Add64(acc[2 * i + 1], sum1[1]);
    acc[2 * i + 2], acc[2 * i + 3] := Add64(acc[2 * i + 2], sum2[0]), Add64(acc[2 * i + 3], sum2[1]);
  }

  /** One register. */
  method NeonTwo(acc: array<u64>, input: Stripe, key: Stripe, i: nat)
    requires acc.Length == 8 && i < 4
    modifies acc
    ensures forall j :: 2 * i <= j < 2 * i + 2 ==> acc[j] == AccumulateLane(old(acc[..]), input, key, j)
    ensures forall j :: 0 <= j < 8 && !(2 * i <= j < 2 * i + 2) ==> acc[j] == old(acc[j])
  {
    hide Word, AccumulateLane, WideningMla, Xor64, Add64, Lo, Hi;
    ghost var was: Lanes := acc[..];
    NeonLane(was, input, key, 2 * i);
    NeonLane(was, input, key, 2 * i + 1);
    var data := Load(input, i);
    var swap, dataKey := Swapped(data), XorLanes(data, Load(key, i));
    acc[2 * i], acc[2 * i + 1] :=
      Add64(acc[2 * i], WideningMla(swap[0], Lo(dataKey[0]), Hi(dataKey[0]))),
      Add64(acc[2 * i + 1], WideningMla(swap[1], Lo(dataKey[1]), Hi(dataKey[1])));
  }

  /** XXH3_accumulate_512_neon: the lanes from neonLanes on are scalar and come first, the others go
      four at a time, and what is left of them two at a time, for any even split. */
  method NeonAccumulate512(acc: array<u64>, input: Stripe, key: Stripe, neonLanes: nat)
    requires acc.Length == 8 && 0 < neonLanes <= 8 && neonLanes % 2 == 0
    modifies acc
    ensures acc[..] == AccumulateLanes(old(acc[..]), input, key)
  {
    hide Word, Product;
    ghost var start: Lanes := acc[..];
    ScalarLanes(acc, input, key, neonLanes);
    forall j | 0 <= j < 8
      ensures acc[j] == if j < neonLanes then start[j] else AccumulateLane(start, input, key, j)
    {
      assert Swap(j) < neonLanes <==> j < neonLanes;
    }
    hide AccumulateLane;
    var i := 0;
    while i + 1 < neonLanes / 2
      invariant i <= neonLanes / 2 && NeonProgress(acc[..], start, input, key, i, neonLanes)
    {
      ghost var before: Lanes := acc[..];
      NeonFour(acc, input, key, i);
      NeonLaneOnly(before, start, input, key, i, neonLanes);
      i := i + 2;
    }
    while i < neonLanes / 2
      invariant i <= neonLanes / 2 && NeonProgress(acc[..], start, input, key, i, neonLanes)
    {
      ghost var before: Lanes := acc[..];
      NeonTwo(acc, input, key, i);
      NeonLaneOnly(before, start, input, key, i, neonLanes);
      i := i + 1;
    }
  }

  /** Registers below i and the scalar lanes are done, the others are as they were. */
  ghost predicate NeonProgress(acc: Lanes, start: Lanes, input: Stripe, key: Stripe, i: nat, neonLanes: nat) {
    forall j :: 0 <= j < 8 ==>
        acc[j] == if 2 * i <= j < neonLanes then start[j] else AccumulateLane(start, input, key, j)
  }

  /** A lane's sum depends on that lane of the accumulator only. */
  lemma NeonLaneOnly(acc: Lanes, start: Lanes, input: Stripe, key: Stripe, i: nat, neonLanes: nat)
    requires NeonProgress(acc, start, input, key, i, neonLanes)
    ensures forall j :: 2 * i <= j < neonLanes && j < 8 ==>
                          AccumulateLane(acc, input, key, j) == AccumulateLane(start, input, key, j)
  {
  }

  /** Reference: XXH3_scalarScrambleRound. */
  function ScrambleLane(acc: u64, key: u64): u64 {
    Mul64(Xor64(Xor64(acc, Shr64(acc, 47)), key), PRIME32_1)
  }

  function ScrambleLanes(acc: Lanes, key: Stripe): Lanes {
    seq(8, i requires 0 <= i < 8 => ScrambleLane(acc[i], Word(key, i)))
  }

  method ScalarScramble(acc: array<u64>, key: Stripe)
    requires acc.Length == 8
    modifies acc
    ensures acc[..] == ScrambleLanes(old(acc[..]), key)
  {
    hide Word, ScrambleLane, Shr64, Xor64;
    for i := 0 to 8
      invariant forall j :: 0 <= j < i ==> acc[j] == ScrambleLane(old(acc[j]), Word(key, j))
      invariant forall j :: i <= j < 8 ==> acc[j] == old(acc[j])
    {
      acc[i] := ScrambleLane(acc[i], Word(key, i));
    }
  }

  /** Two 32 x 32 products and a shift make the low 64 bits of a 64 x 32 product. */
  lemma ScrambleProducts(x: u64, prime: u32)
    ensures Add64(Mult32to64(x, prime), Mod64(Mult32to64(Hi(x), prime) * 0x1_0000_0000)) == Mul64(x, prime)
  {
    hide Add64, Mod64, Lo, Hi;
    WordHalves(x);
    WordHalves(prime);
    Distribute(Lo(x), Hi(x), prime);
    AddMod(Mult32to64(x, prime), Mult32to64(Hi(x), prime) * 0x1_0000_0000);
  }

  lemma WordHalves(x: u64)
    ensures x == Lo(x) + Hi(x) * 0x1_0000_0000 && Lo(Hi(x)) == Hi(x)
    ensures x < 0x1_0000_0000 ==> Lo(x) == x
  {
  }

  lemma AddMod(lo: u64, hi: nat)
    ensures Add64(lo, Mod64(hi)) == Mod64(lo + hi)
  {
  }

  lemma Distribute(lo: nat, hi: nat, p: nat)
    ensures (lo + hi * 0x1_0000_0000) * p == lo * p + (hi * p) * 0x1_0000_0000
  {
  }

  /** XXH3_scrambleAcc for vector registers. */
  method VectorScramble(acc: array<u64>, key: Stripe, width: nat)
    requires acc.Length == 8 && width in {2, 4, 8}
    modifies acc
    ensures acc[..] == ScrambleLanes(old(acc[..]), key)
  {
    hide Word, Shr64, Xor64, Mult32to64, Mul64, Add64, Mod64;
    for i := 0 to 8 / width
      invariant forall j :: 0 <= j < width * i ==> acc[j] == ScrambleLane(old(acc[j]), Word(key, j))
      invariant forall j :: width * i <= j < 8 ==> acc[j] == old(acc[j])
    {
      forall j | width * i <= j < width * i + width
        ensures VectorScrambleLane(acc[j], Word(key, j)) == ScrambleLane(acc[j], Word(key, j))
      {
        ScrambleProducts(Xor64(Xor64(acc[j], Shr64(acc[j], 47)), Word(key, j)), PRIME32_1);
      }
      forall j | width * i <= j < width * i + width {
        acc[j] := VectorScrambleLane(acc[j], Word(key, j));
      }
    }
  }

  function VectorScrambleLane(acc: u64, key: u64): u64 {
    var dataKey := Xor64(Xor64(acc, Shr64(acc, 47)), key);
    var prodLo := Mult32to64(dataKey, PRIME32_1);
    var prodHi := Mult32to64(Hi(dataKey), PRIME32_1);
    Add64(prodLo, Mod64(prodHi * 0x1_0000_0000))
  }

  /** The kernel all of these methods compute. */
  function Xxh3(): Kernel {
    Kernel(AccumulateLanes, ScrambleLanes)
  }

  /** The compiled forms of XXH3_accumulate_512. */
  datatype Form = Scalar | Vector(width: nat) | Neon(lanes: nat)

  predicate Supported(f: Form) {
    match f
    case Scalar => true
    case Vector(width) => width in {2, 4, 8}
    case Neon(lanes) => 0 < lanes <= 8 && lanes % 2 == 0
  }

  /** XXH3_accumulate over nbStripes stripes, in place, in any form. */
  method AccumulateInPlace(
    form: Form, acc: array<u64>, input: seq<byte>, at: nat, secret: seq<byte>, secretAt: nat, nbStripes: nat)
    requires Supported(form) && acc.Length == 8
    requires at + 64 * nbStripes <= |input| && secretAt + 8 * nbStripes + 56 <= |secret|
    modifies acc
    ensures acc[..] == AccumulateN(Xxh3(), old(acc[..]), input, at, secret, secretAt, nbStripes)
  {
    hide Word, Product, AccumulateLanes;
    for n := 0 to nbStripes
      invariant acc[..] == AccumulateN(Xxh3(), old(acc[..]), input, at, secret, secretAt, n)
    {
      var stripe, key := StripeAt(input, at + 64 * n), StripeAt(secret, secretAt + 8 * n);
      match form
      case Scalar => ScalarAccumulate512(acc, stripe, key);
      case Vector(width) => VectorAccumulate512(acc, stripe, key, width);
      case Neon(lanes) => NeonAccumulate512(acc, stripe, key, lanes);
    }
  }

  datatype Hash128 = Hash128(low64: u64, high64: u64)

  /** The bitwise or of two words whose set bits are disjoint at n: a has none below, b none above. */
  function OrBits(a: nat, b: nat): nat {
    if a == 0 then b
    else (if a % 2 == 1 || b % 2 == 1 then 1 else 0) + 2 * OrBits(a / 2, b / 2)
  }

  lemma {:induction false} OrDisjoint(a: nat, b: nat, n: nat)
    requires b < Pow2(n)
    ensures OrBits(a * Pow2(n), b) == a * Pow2(n) + b
  {
    if a == 0 {
    } else if n == 0 {
      OrZero(a);
    } else {
      var p := Pow2(n - 1);
      assert a * Pow2(n) == 2 * (a * p);
      assert a * p > 0;
      OrDisjoint(a, b / 2, n - 1);
    }
  }

  lemma {:induction false} OrZero(a: nat)
    ensures OrBits(a, 0) == a
  {
    if a > 0 {
      OrZero(a / 2);
    }
  }

  /** XXH_mult64to128, portable form. Each sum is bounded before it is formed: nothing wraps. */
  function Mult64to128(lhs: u64, rhs: u64): (r: Hash128)
    ensures r.low64 + r.high64 * 0x1_0000_0000_0000_0000 == lhs * rhs
  {
    Mult64to128Exact(lhs, rhs);
    var loLo := Mult32to64(Lo(lhs), Lo(rhs));
    var hiLo := Mult32to64(Hi(lhs), Lo(rhs));
    var loHi := Mult32to64(Lo(lhs), Hi(rhs));
    var hiHi := Mult32to64(Hi(lhs), Hi(rhs));
    var cross: u64 := Hi(loLo) + Lo(hiLo) + loHi;
    var upper: u64 := Hi(hiLo) + Hi(cross) + hiHi;
    var lower: u64 := OrBits(Mod64(cross * 0x1_0000_0000), Lo(loLo));
    Hash128(lower, upper)
  }

  lemma Mult64to128Exact(lhs: u64, rhs: u64)
    ensures var loLo := Mult32to64(Lo(lhs), Lo(rhs));
            var hiLo := Mult32to64(Hi(lhs), Lo(rhs));
            var loHi := Mult32to64(Lo(lhs), Hi(rhs));
            var hiHi := Mult32to64(Hi(lhs), Hi(rhs));
            var cross := Hi(loLo) + Lo(hiLo) + loHi;
            && cross < 0x1_0000_0000_0000_0000
            && (var upper := Hi(hiLo) + Hi(cross) + hiHi;
                var lower := OrBits(Mod64(cross * 0x1_0000_0000), Lo(loLo));
                && upper < 0x1_0000_0000_0000_0000 && lower < 0x1_0000_0000_0000_0000
                && lower + upper * 0x1_0000_0000_0000_0000 == lhs * rhs)
  {
    hide Mult32to64, OrBits, Lo, Hi;
    SchoolBook(lhs, rhs);
    var loLo := Mult32to64(Lo(lhs), Lo(rhs));
    var hiLo := Mult32to64(Hi(lhs), Lo(rhs));
    var loHi := Mult32to64(Lo(lhs), Hi(rhs));
    var hiHi := Mult32to64(Hi(lhs), Hi(rhs));
    CrossSums(loLo, hiLo, loHi, hiHi);
    Halves(loLo);
    Halves(hiLo);
    var cross := Hi(loLo) + Lo(hiLo) + loHi;
    Halves(cross);
    OrLow(Lo(cross), Lo(loLo));
  }

  lemma Halves(x: u64)
    ensures Lo(x) == x % 0x1_0000_0000 && Hi(x) == x / 0x1_0000_0000
  {
  }

  lemma OrLow(a: u32, b: u32)
    ensures OrBits(a * 0x1_0000_0000, b) == a * 0x1_0000_0000 + b
  {
    Pow2Values();
    OrDisjoint(a, b, 32);
  }

  /** The four products of the halves, which never wrap, make up the whole product. */
  lemma SchoolBook(lhs: u64, rhs: u64)
    ensures Mult32to64(Lo(lhs), Lo(rhs)) <= 0xFFFF_FFFE_0000_0001
            && Mult32to64(Hi(lhs), Lo(rhs)) <= 0xFFFF_FFFE_0000_0001
    ensures Mult32to64(Lo(lhs), Hi(rhs)) <= 0xFFFF_FFFE_0000_0001
            && Mult32to64(Hi(lhs), Hi(rhs)) <= 0xFFFF_FFFE_0000_0001
    ensures lhs * rhs == Mult32to64(Lo(lhs), Lo(rhs))
                       + (Mult32to64(Hi(lhs), Lo(rhs)) + Mult32to64(Lo(lhs), Hi(rhs))) * 0x1_0000_0000
                       + Mult32to64(Hi(lhs), Hi(rhs)) * 0x1_0000_0000_0000_0000
  {
    hide Mult32to64, Prod;
    MultHalves(Lo(lhs), Lo(rhs));
    MultHalves(Hi(lhs), Lo(rhs));
    MultHalves(Lo(lhs), Hi(rhs));
    MultHalves(Hi(lhs), Hi(rhs));
    FourProducts(lhs, rhs, Lo(lhs), Hi(lhs), Lo(rhs), Hi(rhs));
  }

  /** A product that is only unfolded where its bound or its expansion is shown. */
  ghost function Prod(a: nat, b: nat): nat { a * b }

  lemma MultHalves(x: u32, y: u32)
    ensures Mult32to64(x, y) == Prod(x, y) <= 0xFFFF_FFFE_0000_0001
  {
    HalfProduct(x, y);
  }

  /** The school-book sums, on the four products alone. */
  lemma CrossSums(loLo: nat, hiLo: nat, loHi: nat, hiHi: nat)
    requires loLo <= 0xFFFF_FFFE_0000_0001 && hiLo <= 0xFFFF_FFFE_0000_0001
    requires loHi <= 0xFFFF_FFFE_0000_0001 && hiHi <= 0xFFFF_FFFE_0000_0001
    ensures var cross := loLo / 0x1_0000_0000 + hiLo % 0x1_0000_0000 + loHi;
            var upper := hiLo / 0x1_0000_0000 + cross / 0x1_0000_0000 + hiHi;
            var lower := (cross % 0x1_0000_0000) * 0x1_0000_0000 + loLo % 0x1_0000_0000;
            && cross < 0x1_0000_0000_0000_0000 && upper < 0x1_0000_0000_0000_0000
            && (cross * 0x1_0000_0000) % 0x1_0000_0000_0000_0000 == (cross % 0x1_0000_0000) * 0x1_0000_0000
            && lower < 0x1_0000_0000_0000_0000
            && lower + upper * 0x1_0000_0000_0000_0000
            == loLo + (hiLo + loHi) * 0x1_0000_0000 + hiHi * 0x1_0000_0000_0000_0000
  {
  }

  lemma FourProducts(lhs: nat, rhs: nat, a: nat, b: nat, c: nat, d: nat)
    requires lhs == a + b * 0x1_0000_0000 && rhs == c + d * 0x1_0000_0000
    ensures lhs * rhs == Prod(a, c) + (Prod(b, c) + Prod(a, d)) * 0x1_0000_0000 + Prod(b, d) * 0x1_0000_0000_0000_0000
  {
    Distribute(a, b, c);
    Distribute(a, b, d);
    assert lhs * rhs == lhs * c + (lhs * d) * 0x1_0000_0000;
  }

  // ----- the lanes in numbers

  /** A lane gains the word of lane n, its neighbour, and the product of the two halves of its own keyed
      word x. */
  lemma LaneLaw(acc: Lanes, input: Stripe, key: Stripe, i: nat, n: nat, x: u64)
    requires i < 8 && n < 8 && n == if i % 2 == 0 then i + 1 else i - 1
    requires x == Xor64(ReadLE64(input, 8 * i), ReadLE64(key, 8 * i))
    ensures AccumulateLanes(acc, input, key)[i] as int ==
      (acc[i] as int + ReadLE64(input, 8 * n) as int + (x as int % 0x1_0000_0000) * (x as int / 0x1_0000_0000))
      % 0x1_0000_0000_0000_0000
  {
    hide ReadLE64, Xor64;
    assert Product(input, key, i) == Lo(x) * Lo(Hi(x)) && Lo(Hi(x)) == Hi(x);
  }

  /** A scramble folds the top 17 bits of each lane in, then the key word, and multiplies. */
  lemma ScrambleLaw(acc: Lanes, key: Stripe, i: nat)
    requires i < 8
    ensures ScrambleLanes(acc, key)[i] as int ==
      (Xor64(Xor64(acc[i], acc[i] / 0x8000_0000_0000), ReadLE64(key, 8 * i)) as int) * 0x9E3779B1
      % 0x1_0000_0000_0000_0000
  {
    ShrIsDiv(acc[i], 47);
    TwoTo47();
    hide ReadLE64, Xor64, Shr, Pow2;
  }

  lemma TwoTo47()
    ensures Pow2(47) == 0x8000_0000_0000
  {
    assert Pow2(12) == 4096;
    assert Pow2(24) == 16777216;
    assert Pow2(36) == 68719476736;
  }
}
