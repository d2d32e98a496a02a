/** What XXH32 and XXH64 share: four lanes fed block by block, and a buffer of less than one
    block between two updates. */
module XxhBlocks {
  import opened Words
  import opened Memory

  /** Block length, and what one block does to the accumulator lanes, of whatever type A. */
  datatype Core<!A> = Core(size: nat, mix: (A, seq<byte>) -> A)

  function BlockAt(input: seq<byte>, at: nat, size: nat): seq<byte>
    requires at + size <= |input|
  {
    input[at..at + size]
  }

  /** Reference: n blocks of input from offset at. */
  ghost function Blocks<A>(core: Core<A>, acc: A, input: seq<byte>, at: nat, n: nat): A
    requires at + Times(n, core.size) <= |input|
  {
    if n == 0 then acc
    else core.mix(Blocks(core, acc, input, at, n - 1), BlockAt(input, at + Times(n - 1, core.size), core.size))
  }

  /** n * size by repeated addition, which keeps the proofs linear. */
  function Times(n: nat, size: nat): nat {
    if n == 0 then 0 else Times(n - 1, size) + size
  }

  lemma {:induction false} BlocksSplit<A>(core: Core<A>, acc: A, input: seq<byte>, at: nat, m: nat, n: nat)
    requires at + Times(m, core.size) + Times(n, core.size) <= |input|
    ensures Times(m + n, core.size) == Times(m, core.size) + Times(n, core.size)
    ensures Blocks(core, acc, input, at, m + n)
         == Blocks(core, Blocks(core, acc, input, at, m), input, at + Times(m, core.size), n)
  {
    if n == 0 {
    } else {
      BlocksSplit(core, acc, input, at, m, n - 1);
    }
  }

  lemma {:induction false} BlocksMoved<A>(core: Core<A>, acc: A, a: seq<byte>, i: nat, b: seq<byte>, j: nat, n: nat)
    requires i + Times(n, core.size) <= |a| && j + Times(n, core.size) <= |b|
    requires a[i..i + Times(n, core.size)] == b[j..j + Times(n, core.size)]
    ensures Blocks(core, acc, a, i, n) == Blocks(core, acc, b, j, n)
  {
    if n == 0 {
    } else {
      var all, m := Times(n, core.size), Times(n - 1, core.size);
      assert a[i..i + m] == a[i..i + all][..m] == b[j..j + all][..m] == b[j..j + m];
      BlocksMoved(core, acc, a, i, b, j, n - 1);
      assert BlockAt(a, i + m, core.size) == a[i..i + all][m..] == b[j..j + all][m..] == BlockAt(b, j + m, core.size);
    }
  }

  /** Block n is the n-th piece of core.size bytes behind at, and it meets the lanes that the blocks
      before it left. */
  lemma BlocksInOrder<A>(core: Core<A>, acc: A, input: seq<byte>, at: nat, n: nat)
    requires at + Times(n + 1, core.size) <= |input|
    ensures Blocks(core, acc, input, at, 0) == acc
    ensures Times(n, core.size) == n * core.size
    ensures Blocks(core, acc, input, at, n + 1) ==
      core.mix(Blocks(core, acc, input, at, n), input[at + n * core.size..at + n * core.size + core.size])
  {
    TimesIsMul(n, core.size);
  }

  /** The consumeLong loop: whole blocks of the len bytes from at0, at least one. */
  method ConsumeLong<A>(core: Core<A>, acc0: A, input: seq<byte>, at0: nat, len: nat)
    returns (acc: A, at: nat, ghost n: nat)
    requires 0 < core.size <= len && at0 + len <= |input|
    ensures at == at0 + Times(n, core.size) && 0 <= at0 + len - at < core.size
    ensures acc == Blocks(core, acc0, input, at0, n)
  {
    acc, at, n := acc0, at0, 0;
    var end, more := at0 + len, true;
    while more
      invariant at == at0 + Times(n, core.size) <= end
      invariant more ==> at + core.size <= end
      invariant !more ==> end - at < core.size
      invariant acc == Blocks(core, acc0, input, at0, n)
      decreases more, end - at
    {
      acc := core.mix(acc, BlockAt(input, at, core.size));
      at, n := at + core.size, n + 1;
      more := at < end - (core.size - 1);
    }
  }

  /** The first n blocks of data, and nothing else, went through the lanes. */
  ghost predicate Fed<A>(core: Core<A>, init: A, data: seq<byte>, n: nat, acc: A) {
    Times(n, core.size) <= |data| && acc == Blocks(core, init, data, 0, n)
  }

  /** The rest of data behind its first n blocks is shorter than a block and lies in the buffer. */
  ghost predicate Rest<A>(core: Core<A>, data: seq<byte>, n: nat, rest: seq<byte>) {
    |rest| < core.size && |data| == Times(n, core.size) + |rest| && rest == data[|data| - |rest|..]
  }

  /** What a digest reads off a state: the lanes of all whole blocks, which are the initial ones
      while there is none, and the rest behind them. */
  lemma DigestFacts<A>(core: Core<A>, init: A, data: seq<byte>, n: nat, acc: A, rest: seq<byte>)
    requires Fed(core, init, data, n, acc) && Rest(core, data, n, rest)
    ensures acc == Blocks(core, init, data, 0, n) && (n == 0 ==> acc == init)
    ensures |rest| <= |data| && rest == data[|data| - |rest|..]
  {
  }

  lemma FedMore<A>(core: Core<A>, init: A, data: seq<byte>, input: seq<byte>, n: nat, acc: A)
    requires Fed(core, init, data, n, acc)
    ensures Fed(core, init, data + input, n, acc)
  {
    assert data[0..0 + Times(n, core.size)] == (data + input)[0..0 + Times(n, core.size)];
    BlocksMoved(core, init, data, 0, data + input, 0, n);
  }

  /** m more blocks, wherever their bytes lie. */
  lemma FedStep<A>(core: Core<A>, init: A, all: seq<byte>, n: nat, acc: A, input: seq<byte>, at: nat, m: nat)
    requires Fed(core, init, all, n, acc)
    requires at + Times(m, core.size) <= |input| && Times(n, core.size) + Times(m, core.size) <= |all|
    requires input[at..at + Times(m, core.size)] == all[Times(n, core.size)..Times(n, core.size) + Times(m, core.size)]
    ensures Times(n + m, core.size) == Times(n, core.size) + Times(m, core.size)
    ensures Fed(core, init, all, n + m, Blocks(core, acc, input, at, m))
  {
    BlocksSplit(core, init, all, 0, n, m);
    BlocksMoved(core, acc, input, at, all, Times(n, core.size), m);
  }

  lemma RestFilled<A>(core: Core<A>, data: seq<byte>, n: nat, buffer: seq<byte>, size: nat, input: seq<byte>)
    requires size < core.size == |buffer| <= size + |input| && Rest(core, data, n, buffer[..size])
    ensures var full := Overwrite(buffer, size, input[0..0 + (core.size - size)]);
            var read := Times(n, core.size);
            && read + core.size <= |data + input|
            && full[0..0 + core.size] == (data + input)[read..read + core.size]
  {
    var read := Times(n, core.size);
    var full := Overwrite(buffer, size, input[0..0 + (core.size - size)]);
    assert (data + input)[read..read + core.size] == data[read..] + input[0..core.size - size] == full;
  }

  lemma RestAppended<A>(core: Core<A>, data: seq<byte>, n: nat, buffer: seq<byte>, size: nat, input: seq<byte>)
    requires size + |input| < core.size == |buffer| && Rest(core, data, n, buffer[..size])
    ensures Rest(core, data + input, n, Overwrite(buffer, size, input[0..0 + |input|])[..size + |input|])
  {
    OverwriteAppend(buffer, size, input[0..0 + |input|]);
    assert input[0..0 + |input|] == input;
  }

  lemma InputPart(data: seq<byte>, input: seq<byte>, at: nat, n: nat)
    requires at + n <= |input|
    ensures input[at..at + n] == (data + input)[|data| + at..|data| + at + n]
  {
  }

  /** The part of XXH32_update and XXH64_update behind the length counters. */
  method Feed<A>(core: Core<A>, acc0: A, buffer: array<byte>, size0: nat, input: seq<byte>,
              ghost init: A, ghost data: seq<byte>, ghost n0: nat)
    returns (acc: A, size: nat, ghost n: nat)
    requires size0 < core.size == buffer.Length
    requires Fed(core, init, data, n0, acc0) && Rest(core, data, n0, buffer[..size0])
    modifies buffer
    ensures size < core.size
    ensures Fed(core, init, data + input, n, acc) && Rest(core, data + input, n, buffer[..size])
  {
    hide Blocks, Fed, Overwrite, Rest, Times;
    acc, size, n := acc0, size0, n0;
    FedMore(core, init, data, input, n, acc);
    if |input| < core.size - size {
      RestAppended(core, data, n, buffer[..], size, input);
      CopyInto(input, 0, |input|, buffer, size);
      size := size + |input|;
      return;
    }
    var at := 0;
    if size != 0 {
      acc, at := CompleteBlock(core, acc, buffer, size, input, init, data, n);
      size, n := 0, n + 1;
    } else {
      NoRest(core, data, n, buffer[..size]);
    }
    if |input| - at >= core.size {
      acc, at, n := ReadBlocks(core, acc, input, at, init, data, n);
    }
    size := KeepTail(core, buffer, input, at, data, n);
  }

  lemma NoRest<A>(core: Core<A>, data: seq<byte>, n: nat, rest: seq<byte>)
    requires Rest(core, data, n, rest) && |rest| == 0
    ensures |data| == Times(n, core.size)
  {
  }

  /** What is left of the input goes to the start of the buffer. */
  method KeepTail<A>(core: Core<A>, buffer: array<byte>, input: seq<byte>, at: nat, ghost data: seq<byte>, ghost n: nat)
    returns (size: nat)
    requires at <= |input| && |input| - at < core.size == buffer.Length && |data| + at == Times(n, core.size)
    modifies buffer
    ensures size < core.size && Rest(core, data + input, n, buffer[..size])
  {
    hide Overwrite, Times;
    size := 0;
    InputPart(data, input, at, |input| - at);
    if at < |input| {
      OverwriteAppend(buffer[..], 0, input[at..at + (|input| - at)]);
      CopyInto(input, at, |input| - at, buffer, 0);
      size := |input| - at;
    }
  }

  /** The whole blocks of the input from offset at0. */
  method ReadBlocks<A>(core: Core<A>, acc0: A, input: seq<byte>, at0: nat, ghost init: A, ghost data: seq<byte>,
      ghost n0: nat)
    returns (acc: A, at: nat, ghost n: nat)
    requires 0 < core.size <= |input| - at0 && |data| + at0 == Times(n0, core.size)
    requires Fed(core, init, data + input, n0, acc0)
    ensures at <= |input| && |input| - at < core.size && |data| + at == Times(n, core.size)
    ensures Fed(core, init, data + input, n, acc)
  {
    hide Blocks, Fed;
    ghost var m;
    acc, at, m := ConsumeLong(core, acc0, input, at0, |input| - at0);
    InputPart(data, input, at0, Times(m, core.size));
    FedStep(core, init, data + input, n0, acc0, input, at0, m);
    n := n0 + m;
  }

  /** A non-empty buffer is completed first, and makes one block. */
  method CompleteBlock<A>(core: Core<A>, acc0: A, buffer: array<byte>, size: nat, input: seq<byte>,
                       ghost init: A, ghost data: seq<byte>, ghost n: nat)
    returns (acc: A, at: nat)
    requires size < core.size == buffer.Length <= size + |input|
    requires Fed(core, init, data + input, n, acc0) && Rest(core, data, n, buffer[..size])
    modifies buffer
    ensures at <= |input| && |data| + at == Times(n + 1, core.size)
    ensures Fed(core, init, data + input, n + 1, acc)
  {
    hide Blocks, Fed, Overwrite;
    at := core.size - size;
    RestFilled(core, data, n, buffer[..], size, input);
    CopyInto(input, 0, at, buffer, size);
    ghost var one;
    var end;
    acc, end, one := ConsumeLong(core, acc0, buffer[..], 0, core.size);
    OneBlock(one, core.size, end);
    FedStep(core, init, data + input, n, acc0, buffer[..], 0, 1);
  }

  lemma OneBlock(n: nat, size: nat, end: nat)
    requires size > 0 && end == Times(n, size) && 0 <= size - end < size
    ensures n == 1 && Times(1, size) == size
  {
    assert Times(1, size) == size;
    if n >= 2 {
      AtLeastTwo(n, size);
    }
  }

  lemma AtLeastTwo(n: nat, size: nat)
    requires n >= 2
    ensures Times(n, size) >= 2 * size
  {
    assert Times(n, size) == Times(n - 2, size) + size + size;
  }

  /** The number of whole blocks is the quotient, for the two block lengths in use. */
  lemma TimesUnique(n: nat, len: nat, size: nat)
    requires size == 16 || size == 32
    requires Times(n, size) <= len < Times(n, size) + size
    ensures n == len / size && len - Times(n, size) == len % size
  {
    TimesIsMul(n, size);
  }

  lemma TimesDiv(len: nat, size: nat)
    requires size == 16 || size == 32
    ensures Times(len / size, size) == len - len % size
  {
    TimesIsMul(len / size, size);
  }

  lemma {:induction false} TimesIsMul(n: nat, size: nat)
    ensures Times(n, size) == n * size
  {
    if n > 0 {
      TimesIsMul(n - 1, size);
      assert n * size == (n - 1) * size + size;
    }
  }
}
