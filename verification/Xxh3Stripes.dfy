/** The long-input core of XXH3: the flat meaning of a run of stripes, the one-shot block
    loop and the resumable ConsumeStripes, both proved against that flat meaning.

    The source passes the accumulate and scramble routines as function pointers; here they
    are the two function values of a Kernel, and every result holds for every kernel. */
module Xxh3Stripes {
  import opened Words

  // 64 is the length of a stripe, 8 the secret bytes one stripe consumes, 136 the shortest secret
  // and 7 the misalignment of the last key. They stand as literals: a symbolic constant under a
  // multiplication is nonlinear to the solver.

  type Lanes = s: seq<u64> | |s| == 8 witness seq(8, i => 0)
  type Stripe = s: seq<byte> | |s| == 64 witness seq(64, i => 0)
  type Secret = s: seq<byte> | |s| >= 136 witness seq(136, i => 0)

  datatype Kernel = Kernel(accumulate512: (Lanes, Stripe, Stripe) -> Lanes, scramble: (Lanes, Stripe) -> Lanes)

  /** Number of stripes between two scrambles. */
  function PerBlock(secret: Secret): (n: nat)
    ensures n >= 9 && 8 * n + 64 <= |secret|
  {
    (|secret| - 64) / 8
  }

  function StripeAt(s: seq<byte>, at: nat): Stripe
    requires at + 64 <= |s|
  {
    s[at..at + 64]
  }

  function ScrambleKey(secret: Secret): Stripe {
    StripeAt(secret, |secret| - 64)
  }

  /** The lanes together with the number of stripes already taken from the current block. */
  datatype Cursor = Cursor(acc: Lanes, pos: nat)

  /** One stripe: mixed under the secret of its position, and scrambled when it ends a block. */
  ghost function Step(k: Kernel, secret: Secret, c: Cursor, stripe: Stripe): (r: Cursor)
    requires c.pos < PerBlock(secret)
    ensures r.pos < PerBlock(secret)
  {
    var mixed := k.accumulate512(c.acc, stripe, StripeAt(secret, 8 * c.pos));
    if c.pos + 1 == PerBlock(secret) then Cursor(k.scramble(mixed, ScrambleKey(secret)), 0)
    else Cursor(mixed, c.pos + 1)
  }

  /** Reference: n stripes of input from byte offset at, one at a time. */
  ghost function Stripes(k: Kernel, secret: Secret, c: Cursor, input: seq<byte>, at: nat, n: nat): (r: Cursor)
    requires c.pos < PerBlock(secret) && at + 64 * n <= |input|
    ensures r.pos < PerBlock(secret)
  {
    if n == 0 then c
    else Step(k, secret, Stripes(k, secret, c, input, at, n - 1), StripeAt(input, at + 64 * (n - 1)))
  }

  /** Reference for a whole long input: every stripe but the last, then the final 64 bytes
      under the unaligned end of the secret. */
  ghost function HashLong(k: Kernel, secret: Secret, init: Lanes, input: seq<byte>): Lanes
    requires |input| > 64
  {
    var c := Stripes(k, secret, Cursor(init, 0), input, 0, (|input| - 1) / 64);
    k.accumulate512(c.acc, StripeAt(input, |input| - 64), LastKey(secret))
  }

  function LastKey(secret: Secret): Stripe {
    StripeAt(secret, |secret| - 64 - 7)
  }

  /** Reading n more stripes resumes where the first m stopped. */
  lemma {:induction false} StripesSplit(
    k: Kernel, secret: Secret, c: Cursor, input: seq<byte>, at: nat, m: nat, n: nat)
    requires c.pos < PerBlock(secret) && at + 64 * (m + n) <= |input|
    ensures Stripes(k, secret, c, input, at, m + n)
         == Stripes(k, secret, Stripes(k, secret, c, input, at, m), input, at + 64 * m, n)
  {
    hide Step, PerBlock, StripeAt;
    if n == 0 {
    } else {
      StripesSplit(k, secret, c, input, at, m, n - 1);
    }
  }

  /** Only the bytes of the n stripes matter, not where they lie. */
  lemma {:induction false} StripesMoved(
    k: Kernel, secret: Secret, c: Cursor, a: seq<byte>, i: nat, b: seq<byte>, j: nat, n: nat)
    requires c.pos < PerBlock(secret) && i + 64 * n <= |a| && j + 64 * n <= |b|
    requires a[i..i + 64 * n] == b[j..j + 64 * n]
    ensures Stripes(k, secret, c, a, i, n) == Stripes(k, secret, c, b, j, n)
  {
    hide Step, PerBlock;
    if n == 0 {
    } else {
      var m := 64 * (n - 1);
      assert a[i..i + m] == a[i..i + 64 * n][..m] == b[j..j + 64 * n][..m] == b[j..j + m];
      StripesMoved(k, secret, c, a, i, b, j, n - 1);
      assert StripeAt(a, i + m) == a[i..i + 64 * n][m..] == b[j..j + 64 * n][m..] == StripeAt(b, j + m);
    }
  }

  /** The lanes after n stripes with no scramble, the secret advancing 8 bytes a stripe. */
  ghost function AccumulateN(
    k: Kernel, acc: Lanes, input: seq<byte>, at: nat, secret: seq<byte>, secretAt: nat, n: nat): Lanes
    requires at + 64 * n <= |input| && secretAt + 8 * n + 56 <= |secret|
  {
    if n == 0 then acc
    else k.accumulate512(AccumulateN(k, acc, input, at, secret, secretAt, n - 1),
                         StripeAt(input, at + 64 * (n - 1)), StripeAt(secret, secretAt + 8 * (n - 1)))
  }

  /** The generated XXH3_accumulate loop; pointers are a sequence and an offset. */
  method Accumulate(k: Kernel, acc0: Lanes, input: seq<byte>, at: nat, secret: seq<byte>, secretAt: nat, nbStripes: nat)
    returns (acc: Lanes)
    requires at + 64 * nbStripes <= |input| && secretAt + 8 * nbStripes + 56 <= |secret|
    ensures acc == AccumulateN(k, acc0, input, at, secret, secretAt, nbStripes)
  {
    acc := acc0;
    for n := 0 to nbStripes
      invariant acc == AccumulateN(k, acc0, input, at, secret, secretAt, n)
    {
      acc := k.accumulate512(acc, StripeAt(input, at + 64 * n), StripeAt(secret, secretAt + 8 * n));
    }
  }

  /** Inside one block, accumulating from the secret of position pos is the reference; a run
      that ends the block becomes the reference after one scramble. */
  lemma {:induction false} AccumulateIsStripes(
    k: Kernel, secret: Secret, c: Cursor, input: seq<byte>, at: nat, n: nat)
    requires c.pos + n <= PerBlock(secret) && c.pos < PerBlock(secret) && at + 64 * n <= |input|
    ensures Stripes(k, secret, c, input, at, n)
         == (var flat := AccumulateN(k, c.acc, input, at, secret, 8 * c.pos, n);
             if c.pos + n == PerBlock(secret) then Cursor(k.scramble(flat, ScrambleKey(secret)), 0)
             else Cursor(flat, c.pos + n))
  {
    if n == 0 {
    } else {
      AccumulateIsStripes(k, secret, c, input, at, n - 1);
    }
  }

  /** The two steps above together: n more stripes of the same block, after the first m. */
  lemma Advance(k: Kernel, secret: Secret, start: Cursor, input: seq<byte>, at: nat, m: nat, n: nat)
    requires start.pos < PerBlock(secret) && at + 64 * (m + n) <= |input|
    requires Stripes(k, secret, start, input, at, m).pos + n <= PerBlock(secret)
    ensures Stripes(k, secret, start, input, at, m + n)
         == (var c := Stripes(k, secret, start, input, at, m);
             var flat := AccumulateN(k, c.acc, input, at + 64 * m, secret, 8 * c.pos, n);
             if c.pos + n == PerBlock(secret) then Cursor(k.scramble(flat, ScrambleKey(secret)), 0)
             else Cursor(flat, c.pos + n))
  {
    StripesSplit(k, secret, start, input, at, m, n);
    AccumulateIsStripes(k, secret, Stripes(k, secret, start, input, at, m), input, at + 64 * m, n);
  }

  /** XXH3_consumeStripes: processes nbStripes0 stripes from offset at0, which may start in
      mid-block; returns the lanes, the new in-block count and the end offset. */
  method ConsumeStripes(
    k: Kernel, acc0: Lanes, soFar0: nat, input: seq<byte>, at0: nat, nbStripes0: nat, secret: Secret)
    returns (acc: Lanes, soFar: nat, at: nat)
    requires soFar0 < PerBlock(secret) && at0 + 64 * nbStripes0 <= |input|
    ensures Cursor(acc, soFar) == Stripes(k, secret, Cursor(acc0, soFar0), input, at0, nbStripes0)
    ensures at == at0 + 64 * nbStripes0
  {
    hide AccumulateN, StripeAt, ScrambleKey, Step, PerBlock;
    ghost var start := Cursor(acc0, soFar0);
    acc, soFar, at := acc0, soFar0, at0;
    var perBlock := PerBlock(secret);
    var nbStripes: nat := nbStripes0;
    var secretAt: nat := 8 * soFar;
    ghost var done: nat := 0;
    if nbStripes >= perBlock - soFar {
      var thisIter := perBlock - soFar;
      var more := true;
      ghost var pos: nat := soFar0;
      while more
        invariant done + nbStripes == nbStripes0 && at == at0 + 64 * done && secretAt == 8 * pos
        invariant pos < perBlock && Cursor(acc, pos) == Stripes(k, secret, start, input, at0, done)
        invariant more ==> thisIter == perBlock - pos && thisIter <= nbStripes
        invariant !more ==> pos == 0 && nbStripes < perBlock
        decreases more, nbStripes
      {
        Advance(k, secret, start, input, at0, done, thisIter);
        acc := Accumulate(k, acc, input, at, secret, secretAt, thisIter);
        acc := k.scramble(acc, ScrambleKey(secret));
        at := at + 64 * thisIter;
        nbStripes := nbStripes - thisIter;
        done, pos := done + thisIter, 0;
        thisIter := perBlock;
        secretAt := 0;
        more := nbStripes >= perBlock;
      }
      soFar := 0;
    }
    if nbStripes > 0 {
      Advance(k, secret, start, input, at0, done, nbStripes);
      acc := Accumulate(k, acc, input, at, secret, secretAt, nbStripes);
      at := at + 64 * nbStripes;
      soFar := soFar + nbStripes;
    }
  }

  /** XXH3_hashLong_internal_loop: whole blocks, a partial block, then the last stripe. */
  method HashLongLoop(k: Kernel, secret: Secret, init: Lanes, input: seq<byte>) returns (acc: Lanes)
    requires |input| > 64
    ensures acc == HashLong(k, secret, init, input)
  {
    hide AccumulateN, Step, StripeAt, PerBlock;
    ghost var start := Cursor(init, 0);
    var perBlock := PerBlock(secret);
    var nbBlocks, tail := SplitLength(|input| - 1, perBlock);
    var at: nat := 0;
    ghost var done: nat := 0;
    acc := init;
    for n := 0 to nbBlocks
      invariant at == 64 * done && at + 64 * Times(nbBlocks - n, perBlock) + tail == |input| - 1
      invariant Cursor(acc, 0) == Stripes(k, secret, start, input, 0, done)
    {
      Advance(k, secret, start, input, 0, done, perBlock);
      acc := Accumulate(k, acc, input, at, secret, 0, perBlock);
      acc := k.scramble(acc, ScrambleKey(secret));
      at, done := at + 64 * perBlock, done + perBlock;
    }
    var nbStripes := tail / 64;
    Advance(k, secret, start, input, 0, done, nbStripes);
    acc := Accumulate(k, acc, input, at, secret, 0, nbStripes);
    acc := k.accumulate512(acc, StripeAt(input, |input| - 64), LastKey(secret));
  }

  /** m * b by repeated addition: the loop above peels one block at a time. */
  ghost function Times(m: nat, b: nat): (r: nat)
    ensures r == m * b
  {
    if m == 0 then 0 else b + Times(m - 1, b)
  }

  method SplitLength(len: nat, perBlock: nat) returns (blocks: nat, tail: nat)
    requires perBlock > 0
    ensures len == 64 * Times(blocks, perBlock) + tail && tail < 64 * perBlock
  {
    blocks, tail := len / (64 * perBlock), len % (64 * perBlock);
    assert blocks * (64 * perBlock) == 64 * (blocks * perBlock);
  }

  // ----- the closed form of the long hash, in slices and numbers

  /** n stripes of input from at, each under the next 8 bytes of the secret. */
  ghost function Mixed(k: Kernel, acc: Lanes, input: seq<byte>, at: nat, secret: Secret, n: nat): Lanes
    requires at + 64 * n <= |input| && 8 * n + 56 <= |secret|
  {
    if n == 0 then acc
    else
      k.accumulate512(Mixed(k, acc, input, at, secret, n - 1),
                      input[at + 64 * n - 64..at + 64 * n], secret[8 * n - 8..8 * n + 56])
  }

  /** A block is as many stripes as the secret has room for before its last 64 bytes, and ends with a
      scramble under those. The last block is never full; the last 64 bytes of the input come once
      more, under the secret's last bytes but seven. */
  ghost function BlockForm(k: Kernel, secret: Secret, acc: Lanes, input: seq<byte>, at: nat): Lanes
    requires at < |input| && |input| > 64
    decreases |input| - at
  {
    var b := (|secret| - 64) / 8;
    if |input| - 1 - at >= 64 * b then
      var block := k.scramble(Mixed(k, acc, input, at, secret, b), secret[|secret| - 64..]);
      BlockForm(k, secret, block, input, at + 64 * b)
    else
      k.accumulate512(Mixed(k, acc, input, at, secret, (|input| - 1 - at) / 64),
                      input[|input| - 64..], secret[|secret| - 71..|secret| - 7])
  }

  lemma {:induction false} MixedIsAccumulated(k: Kernel, acc: Lanes, input: seq<byte>, at: nat, secret: Secret, n: nat)
    requires at + 64 * n <= |input| && 8 * n + 56 <= |secret|
    ensures AccumulateN(k, acc, input, at, secret, 0, n) == Mixed(k, acc, input, at, secret, n)
  {
    if n > 0 {
      MixedIsAccumulated(k, acc, input, at, secret, n - 1);
    }
  }

  lemma {:induction false} BlockFormFrom(k: Kernel, secret: Secret, init: Lanes, input: seq<byte>, acc: Lanes,
      done: nat)
    requires |input| > 64 && 64 * done < |input|
    requires Stripes(k, secret, Cursor(init, 0), input, 0, done) == Cursor(acc, 0)
    ensures HashLong(k, secret, init, input) == BlockForm(k, secret, acc, input, 64 * done)
    decreases |input| - 64 * done
  {
    hide Stripes, Step, AccumulateN, Mixed;
    var b, at := (|secret| - 64) / 8, 64 * done;
    var n := if |input| - 1 - at >= 64 * b then b else (|input| - 1 - at) / 64;
    Advance(k, secret, Cursor(init, 0), input, 0, done, n);
    MixedIsAccumulated(k, acc, input, at, secret, n);
    if n == b {
      assert secret[|secret| - 64..] == secret[|secret| - 64..|secret| - 64 + 64] == ScrambleKey(secret);
      var block := k.scramble(Mixed(k, acc, input, at, secret, b), secret[|secret| - 64..]);
      BlockFormFrom(k, secret, init, input, block, done + b);
    } else {
      assert done + n == (|input| - 1) / 64;
      assert input[|input| - 64..] == input[|input| - 64..|input| - 64 + 64];
    }
  }

  /** Main result for one long input: which bytes of the secret go where, for every kernel, secret,
      initial lanes and input. */
  lemma LongHashIsBlockForm(k: Kernel, secret: Secret, init: Lanes, input: seq<byte>)
    requires |input| > 64
    ensures HashLong(k, secret, init, input) == BlockForm(k, secret, init, input, 0)
  {
    BlockFormFrom(k, secret, init, input, init, 0);
  }
}
