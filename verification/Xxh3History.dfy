/** One XXH3 state over its whole life: resets of every kind, updates and digests in any order. */
module Xxh3History {
  import opened Words
  import opened Xxh3Stripes
  import opened Xxh3State

  datatype Op =
    | ResetDefault
    | ResetSeed(seed: u64)
    | ResetSecret(secret: Option<seq<byte>>)
    | ResetBoth(secret: Option<seq<byte>>, seed: u64)
    | Feed(input: seq<byte>)
    | TakeDigest

  predicate Accepted(secret: Option<seq<byte>>) {
    secret.Some? && |secret.value| >= 136
  }

  function SizeOf(secret: Option<seq<byte>>): nat {
    if secret.Some? then |secret.value| else 0
  }

  /** What a state has been fed since its last successful reset, and under which mode; nothing while
      there was none. A secret that is refused has already cost the state its keying, a secret that is
      refused together with a seed has not. */
  ghost function After(ops: seq<Op>): Option<(Mode, seq<byte>)> {
    if ops == [] then None
    else
      var was := After(ops[..|ops| - 1]);
      match ops[|ops| - 1]
      case ResetDefault => Some((Default, []))
      case ResetSeed(seed) => Some((WithSeed(seed), []))
      case ResetSecret(secret) => if Accepted(secret) then Some((WithSecret(secret.value), [])) else None
      case ResetBoth(secret, seed) => if Accepted(secret) then Some((WithBoth(secret.value, seed), [])) else was
      case Feed(input) => if was.Some? then Some((was.value.0, was.value.1 + input)) else None
      case TakeDigest => was
  }

  /** Secrets and inputs have a 64-bit length, and nothing is fed or read before a reset. */
  ghost predicate Allowed(ops: seq<Op>) {
    ops == [] ||
    (var before, last := ops[..|ops| - 1], ops[|ops| - 1];
     && Allowed(before)
     && (last.ResetSecret? || last.ResetBoth? ==> SizeOf(last.secret) < 0x1_0000_0000_0000_0000)
     && (last.Feed? || last.TakeDigest? ==> After(before).Some?)
     && (After(ops).Some? ==> |After(ops).value.1| < 0x1_0000_0000_0000_0000))
  }

  /** Reference: the digests of a history, each the hash of what had been fed by then. */
  ghost function Digests<H>(k: Kernel, f: Finish<H>, ops: seq<Op>): seq<H>
    requires Allowed(ops)
  {
    if ops == [] then []
    else
      var before := ops[..|ops| - 1];
      Digests(k, f, before) +
      if ops[|ops| - 1].TakeDigest? then [Hash(k, f, After(ops).value.0, After(ops).value.1)] else []
  }

  /** The state is where its history has brought it. */
  ghost predicate Follows(st: State, k: Kernel, ops: seq<Op>)
    reads st, st.customSecret, st.buffer
  {
    && st.Valid()
    && (After(ops).Some? ==> st.Absorbed(k, After(ops).value.0, After(ops).value.1))
  }

  /** One call. */
  method Apply<H>(st: State, k: Kernel, f: Finish<H>, op: Op, ghost before: seq<Op>) returns (h: Option<H>)
    requires Allowed(before + [op]) && Follows(st, k, before)
    modifies st, st.customSecret, st.buffer
    ensures Follows(st, k, before + [op]) && Allowed(before)
    ensures Digests(k, f, before + [op]) == Digests(k, f, before) + if h.Some? then [h.value] else []
  {
    hide Hash, State.Absorbed, State.Valid;
    assert (before + [op])[..|before + [op]| - 1] == before;
    h := None;
    match op
    case ResetDefault => st.Reset(k); KeepsValid(st, k, Default, []);
    case ResetSeed(seed) => st.ResetWithSeed(k, seed); KeepsValid(st, k, WithSeed(seed), []);
    case ResetSecret(secret) =>
      var ok := st.ResetWithSecret(k, secret, SizeOf(secret));
    case ResetBoth(secret, seed) =>
      var ok := st.ResetWithSecretAndSeed(k, secret, SizeOf(secret), seed);
    case Feed(input) =>
      ghost var was := After(before).value;
      st.Update(k, input, was.0, was.1);
      KeepsValid(st, k, was.0, was.1 + input);
    case TakeDigest =>
      ghost var was := After(before).value;
      var d := st.Digest(k, f, was.0, was.1);
      h := Some(d);
  }

  lemma KeepsValid(st: State, k: Kernel, m: Mode, data: seq<byte>)
    requires st.Absorbed(k, m, data)
    ensures st.Valid()
  {
  }

  /** Main result: over every history of resets, updates and digests on one state, each digest is the
      one-shot hash, under the mode of the last successful reset, of what was fed since then. */
  method RunHistory<H>(k: Kernel, f: Finish<H>, ops: seq<Op>) returns (digests: seq<H>)
    requires Allowed(ops)
    ensures digests == Digests(k, f, ops)
  {
    hide Digests, Follows, After;
    var st := new State();
    digests := [];
    Beginning(st, k, f);
    for i := 0 to |ops|
      invariant fresh(st) && fresh(st.customSecret) && fresh(st.buffer)
      invariant Allowed(ops[..i]) && Follows(st, k, ops[..i]) && digests == Digests(k, f, ops[..i])
    {
      AllowedPrefix(ops, i + 1);
      assert ops[..i + 1] == ops[..i] + [ops[i]];
      var h := Apply(st, k, f, ops[i], ops[..i]);
      if h.Some? {
        digests := digests + [h.value];
      }
    }
    assert ops[..|ops|] == ops;
  }

  lemma Beginning<H>(st: State, k: Kernel, f: Finish<H>)
    requires st.Valid()
    ensures Allowed([]) && Follows(st, k, []) && Digests(k, f, []) == []
  {
  }

  lemma {:induction false} AllowedPrefix(ops: seq<Op>, i: nat)
    requires Allowed(ops) && i <= |ops|
    ensures Allowed(ops[..i])
    decreases |ops|
  {
    if i == |ops| {
      assert ops[..i] == ops;
    } else {
      AllowedPrefix(ops[..|ops| - 1], i);
      assert ops[..|ops| - 1][..i] == ops[..i];
    }
  }
}
