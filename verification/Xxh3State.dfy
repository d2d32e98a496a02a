/** The XXH3 streaming state: reset, update and digest, against the one-shot hash.

    The 64- and the 128-bit variants share everything but their last routines, which are the
    two function values of a Finish; so one theorem covers both. */
module Xxh3State {
  import opened Words
  import opened Memory
  import opened Xxh3Stripes
  import opened Xxh3Secret

  /** finalizeLong takes the lanes, the secret and the length; shortHash takes an input of at
      most 240 bytes, the secret and the seed. */
  datatype Finish<H> = Finish(finalizeLong: (Lanes, Secret, u64) -> H, shortHash: (seq<byte>, Secret, u64) -> H)

  /** How a hash is keyed. A state that was never reset successfully has no mode. */
  datatype Mode = Default | WithSeed(seed: u64) | WithSecret(secret: Secret) | WithBoth(secret: Secret, seed: u64)

  /** Inputs longer than this take the stripe loop. */
  const MIDSIZE_MAX: nat := 240

  ghost function ShortSecret(m: Mode): Secret {
    if m.WithSecret? then m.secret else DefaultSecret()
  }

  ghost function ShortSeed(m: Mode): u64 {
    if m.WithSeed? || m.WithBoth? then m.seed else 0
  }

  ghost function LongSecret(m: Mode): Secret {
    match m
    case Default => DefaultSecret()
    case WithSeed(seed) => if seed == 0 then DefaultSecret() else DeriveSecret(seed)
    case WithSecret(secret) => secret
    case WithBoth(secret, _) => secret
  }

  /** Reference: the hash of a whole input under a mode. */
  ghost function Hash<H>(k: Kernel, f: Finish<H>, m: Mode, input: seq<byte>): H
    requires |input| < 0x1_0000_0000_0000_0000
  {
    if |input| <= 240 then f.shortHash(input, ShortSecret(m), ShortSeed(m))
    else f.finalizeLong(HashLong(k, LongSecret(m), InitAcc(), input), LongSecret(m), |input|)
  }

  /** The one-shot entry points: XXH3_64bits and its three variants. */
  method OneShot<H>(k: Kernel, f: Finish<H>, m: Mode, input: seq<byte>) returns (h: H)
    requires |input| < 0x1_0000_0000_0000_0000
    ensures h == Hash(k, f, m, input)
  {
    match m
    case Default =>
      h := Internal(k, f, input, 0, DefaultSecret(), DefaultSecret());
    case WithSecret(secret) =>
      h := Internal(k, f, input, 0, secret, secret);
    case WithSeed(seed) =>
      if seed == 0 {
        h := Internal(k, f, input, seed, DefaultSecret(), DefaultSecret());
      } else {
        h := Internal(k, f, input, seed, DefaultSecret(), DeriveSecret(seed));
      }
    case WithBoth(secret, seed) =>
      h := Internal(k, f, input, seed, DefaultSecret(), secret);
  }

  /** XXH3_64bits_internal; longSecret is the secret that the passed long-hash routine uses. */
  method Internal<H>(k: Kernel, f: Finish<H>, input: seq<byte>, seed: u64, secret: Secret, longSecret: Secret)
    returns (h: H)
    requires |input| < 0x1_0000_0000_0000_0000
    ensures |input| <= 240 ==> h == f.shortHash(input, secret, seed)
    ensures |input| > 240 ==>
              h == f.finalizeLong(HashLong(k, longSecret, InitAcc(), input), longSecret, |input|)
  {
    if |input| <= MIDSIZE_MAX {
      h := f.shortHash(input, secret, seed);
    } else {
      var acc := HashLongLoop(k, longSecret, InitAcc(), input);
      h := f.finalizeLong(acc, longSecret, |input|);
    }
  }

  class State {
    var acc: Lanes
    const customSecret: array<byte>
    const buffer: array<byte>
    var bufferedSize: nat
    var useSeed: bool
    var nbStripesSoFar: nat
    var totalLen: u64
    var nbStripesPerBlock: nat
    var secretLimit: nat
    var seed: u64
    var extSecret: Option<seq<byte>>

    /** Holds between any two calls, whatever they were: the buffers keep their sizes, and a
        secret that would be reused without being derived again belongs to the recorded seed. */
    ghost predicate Valid()
      reads this, customSecret
    {
      && customSecret.Length == 192 && buffer.Length == 256 && customSecret != buffer
      && (extSecret.None? && seed != 0 ==> customSecret[..] == DeriveSecret(seed))
    }

    /** The keying fields agree with the mode. */
    ghost predicate Keyed(m: Mode)
      reads this, customSecret
    {
      && Valid()
      && (match m
          case Default => extSecret == Some(DefaultSecret()) && seed == 0 && !useSeed
          case WithSeed(s) =>
            if s == 0 then extSecret == Some(DefaultSecret()) && seed == 0 && !useSeed
            else extSecret.None? && seed == s && useSeed
          case WithSecret(s) => extSecret == Some(s) && seed == 0 && !useSeed
          case WithBoth(secret, s) => extSecret == Some(secret) && seed == s && useSeed)
      && secretLimit == |LongSecret(m)| - 64
      && nbStripesPerBlock == PerBlock(LongSecret(m))
    }

    /** The state has absorbed exactly data since its last reset to mode m. */
    ghost predicate Absorbed(k: Kernel, m: Mode, data: seq<byte>)
      reads this, customSecret, buffer
    {
      && Keyed(m)
      && totalLen == |data|
      && Split(k, LongSecret(m), data, |data| - bufferedSize, Cursor(acc, nbStripesSoFar))
      && Window(data, buffer[..], bufferedSize)
    }

    /** XXH3_createState, with XXH3_INITSTATE. */
    constructor ()
      ensures Valid() && fresh(customSecret) && fresh(buffer)
    {
      acc := InitAcc();
      customSecret := new byte[192];
      buffer := new byte[256];
      bufferedSize, nbStripesSoFar, totalLen := 0, 0, 0;
      nbStripesPerBlock, secretLimit := 0, 0;
      useSeed, seed, extSecret := false, 0, None;
    }

    /** XXH3_reset_internal. The size arithmetic wraps as size_t does. */
    method ResetInternal(seed: u64, secret: Option<seq<byte>>, secretSize: nat)
      modifies this
      ensures bufferedSize == 0 && nbStripesSoFar == 0 && totalLen == 0
      ensures acc == InitAcc() && this.seed == seed && useSeed == (seed != 0) && extSecret == secret
      ensures secretLimit == (secretSize - 64) % 0x1_0000_0000_0000_0000 && nbStripesPerBlock == secretLimit / 8
    {
      bufferedSize, useSeed, nbStripesSoFar, totalLen := 0, false, 0, 0;
      acc := InitAcc();
      this.seed := seed;
      useSeed := seed != 0;
      extSecret := secret;
      secretLimit := (secretSize - 64) % 0x1_0000_0000_0000_0000;
      nbStripesPerBlock := secretLimit / 8;
    }

    method Reset(k: Kernel)
      requires Valid()
      modifies this
      ensures Absorbed(k, Default, [])
    {
      ResetInternal(0, Some(DefaultSecret()), 192);
    }

    /** A null or short secret is refused, but only after the fields were overwritten. */
    method ResetWithSecret(k: Kernel, secret: Option<seq<byte>>, secretSize: nat) returns (ok: bool)
      requires Valid()
      requires secret.Some? ==> |secret.value| == secretSize < 0x1_0000_0000_0000_0000
      modifies this
      ensures Valid()
      ensures ok == (secret.Some? && secretSize >= 136)
      ensures ok ==> Absorbed(k, WithSecret(secret.value), [])
    {
      ResetInternal(0, secret, secretSize);
      if secret.None? { return false; }
      if secretSize < 136 { return false; }
      return true;
    }

    /** The secret is derived again only when the seed changed or another secret was in use. */
    method ResetWithSeed(k: Kernel, seed: u64)
      requires Valid()
      modifies this, customSecret
      ensures Absorbed(k, WithSeed(seed), [])
    {
      hide DeriveSecret, DefaultSecret, InitAcc;
      if seed == 0 {
        Reset(k);
        return;
      }
      if seed != this.seed || extSecret.Some? {
        InitCustomSecret(customSecret, seed);
      }
      ResetInternal(seed, None, 192);
    }

    method ResetWithSecretAndSeed(k: Kernel, secret: Option<seq<byte>>, secretSize: nat, seed: u64) returns (ok: bool)
      requires Valid()
      requires secret.Some? ==> |secret.value| == secretSize < 0x1_0000_0000_0000_0000
      modifies this
      ensures Valid()
      ensures ok == (secret.Some? && secretSize >= 136)
      ensures ok ==> Absorbed(k, WithBoth(secret.value, seed), [])
      ensures !ok ==> unchanged(this)
    {
      if secret.None? { return false; }
      if secretSize < 136 { return false; }
      ResetInternal(seed, secret, secretSize);
      useSeed := true;
      return true;
    }

    /** The secret in use: the external one, or the derived one when there is none. */
    method CurrentSecret(ghost m: Mode) returns (secret: Secret)
      requires Keyed(m)
      ensures secret == LongSecret(m)
    {
      hide DeriveSecret, DefaultSecret;
      if extSecret.None? {
        secret := customSecret[..];
      } else {
        secret := extSecret.value;
      }
    }

    /** In the middle of a long update the buffer is logically empty: the first read bytes went
        through the lanes, and the last 64 of them stand at the end of the buffer. */
    ghost predicate Reading(k: Kernel, m: Mode, all: seq<byte>, read: nat, lanes: Lanes)
      reads this, customSecret, buffer
    {
      && Keyed(m)
      && totalLen == |all| > 256 && read <= |all|
      && Split(k, LongSecret(m), all, read, Cursor(lanes, nbStripesSoFar))
      && (read > 0 ==> 64 <= read && buffer[192..] == all[read - 64..read])
    }

    /** XXH3_update. Null input is the empty input. */
    method Update(k: Kernel, input: seq<byte>, ghost m: Mode, ghost data: seq<byte>)
      requires Absorbed(k, m, data) && |data| + |input| < 0x1_0000_0000_0000_0000
      modifies this, buffer
      ensures Absorbed(k, m, data + input)
    {
      hide DeriveSecret, DefaultSecret, InitAcc, Stripes, LongSecret, Split, Window, PerBlock, Overwrite;
      ghost var all := data + input;
      SplitMore(k, LongSecret(m), data, input, |data| - bufferedSize, Cursor(acc, nbStripesSoFar));
      WindowFacts(data, buffer[..], bufferedSize);
      totalLen := (totalLen + |input|) % 0x1_0000_0000_0000_0000;
      if |input| <= 256 - bufferedSize {
        WindowAppend(data, buffer[..], bufferedSize, input);
        CopyInto(input, 0, |input|, buffer, bufferedSize);
        bufferedSize := bufferedSize + |input|;
        return;
      }
      var lanes, at := acc, 0;
      if bufferedSize != 0 {
        lanes, at := CompleteBuffer(k, input, m, data);
      }
      if |input| - at > 256 {
        lanes, at := ReadStripes(k, lanes, input, at, m, data);
      }
      KeepRest(k, lanes, input, at, m, data);
    }

    /** Some input always remains: buffer it, and store the lanes. */
    method KeepRest(k: Kernel, lanes: Lanes, input: seq<byte>, at: nat, ghost m: Mode, ghost data: seq<byte>)
      requires 0 < |input| - at <= 256 && Reading(k, m, data + input, |data| + at, lanes) && |data| + at >= 64
      modifies this`acc, this`bufferedSize, buffer
      ensures Absorbed(k, m, data + input)
    {
      hide DeriveSecret, DefaultSecret, InitAcc, Stripes, LongSecret, Split, Window, PerBlock, Overwrite;
      InputPart(data, input, at, |input| - at);
      WindowRestart(data + input, |data| + at, buffer[..], input, at);
      CopyInto(input, at, |input| - at, buffer, 0);
      bufferedSize := |input| - at;
      acc := lanes;
    }

    /** The buffer is partially filled: complete it, then consume it. */
    method CompleteBuffer(k: Kernel, input: seq<byte>, ghost m: Mode, ghost data: seq<byte>)
      returns (lanes: Lanes, at: nat)
      requires Keyed(m) && totalLen == |data + input| && bufferedSize + |input| > 256
      requires Split(k, LongSecret(m), data + input, |data| - bufferedSize, Cursor(acc, nbStripesSoFar))
      requires Window(data, buffer[..], bufferedSize)
      modifies this, buffer
      ensures at < |input| && Reading(k, m, data + input, |data| + at, lanes)
      ensures bufferedSize == 0
    {
      hide DeriveSecret, DefaultSecret, InitAcc, Stripes, LongSecret, Split, PerBlock, Overwrite;
      var secret := CurrentSecret(m);
      ghost var read := |data| - bufferedSize;
      var loadSize := 256 - bufferedSize;
      BufferFull(data, buffer[..], bufferedSize, input);
      CopyInto(input, 0, loadSize, buffer, bufferedSize);
      SplitFeed(k, secret, data + input, read, Cursor(acc, nbStripesSoFar), buffer[..], 0, 4);
      var end;
      lanes, nbStripesSoFar, end := ConsumeStripes(k, acc, nbStripesSoFar, buffer[..], 0, 4, secret);
      at := loadSize;
      bufferedSize := 0;
    }

    /** More than a buffer of input is left: read it in place, all but its last 1 to 64 bytes, and
        keep a copy of the last stripe read. */
    method ReadStripes(k: Kernel, lanes0: Lanes, input: seq<byte>, at0: nat, ghost m: Mode, ghost data: seq<byte>)
      returns (lanes: Lanes, at: nat)
      requires |input| - at0 > 256 && Reading(k, m, data + input, |data| + at0, lanes0)
      modifies this`nbStripesSoFar, buffer
      ensures at < |input| && |input| - at <= 64
      ensures Reading(k, m, data + input, |data| + at, lanes) && |data| + at >= 64
    {
      hide DeriveSecret, DefaultSecret, InitAcc, Stripes, LongSecret, Split, PerBlock, Overwrite;
      var secret := CurrentSecret(m);
      var nbStripes := (|input| - 1 - at0) / 64;
      InputPart(data, input, at0, 64 * nbStripes);
      SplitFeed(k, secret, data + input, |data| + at0, Cursor(lanes0, nbStripesSoFar), input, at0, nbStripes);
      lanes, nbStripesSoFar, at := ConsumeStripes(k, lanes0, nbStripesSoFar, input, at0, nbStripes, secret);
      InputPart(data, input, at - 64, 64);
      OverwriteEnd(buffer[..], input[at - 64..at - 64 + 64]);
      CopyInto(input, at - 64, 64, buffer, 192);
    }

    /** XXH3_digest_long, on a copy of the lanes. */
    method DigestLong(k: Kernel, ghost m: Mode, ghost data: seq<byte>) returns (lanes: Lanes)
      requires Absorbed(k, m, data) && |data| > 240
      ensures lanes == HashLong(k, LongSecret(m), InitAcc(), data)
    {
      hide DeriveSecret, DefaultSecret, InitAcc, LongSecret, Split, Window, PerBlock, Step, Stripes;
      var secret := CurrentSecret(m);
      var lastStripe: Stripe;
      ghost var read := |data| - bufferedSize;
      WindowFacts(data, buffer[..], bufferedSize);
      lanes := acc;
      if bufferedSize >= 64 {
        var nbStripes := (bufferedSize - 1) / 64;
        BufferedStripes(data, buffer[..], bufferedSize);
        SplitFeed(k, secret, data, read, Cursor(acc, nbStripesSoFar), buffer[..], 0, nbStripes);
        var soFar, end;
        lanes, soFar, end := ConsumeStripes(k, lanes, nbStripesSoFar, buffer[..], 0, nbStripes, secret);
        lastStripe := StripeAt(buffer[..], bufferedSize - 64);
        SplitAll(k, secret, data, read + 64 * nbStripes, Cursor(lanes, soFar));
        assert lastStripe == StripeAt(data, |data| - 64);
      } else {
        var catchupSize := 64 - bufferedSize;
        CatchUp(data, buffer[..], bufferedSize);
        SplitAll(k, secret, data, read, Cursor(acc, nbStripesSoFar));
        lastStripe := buffer[256 - catchupSize..] + buffer[..bufferedSize];
      }
      lanes := k.accumulate512(lanes, lastStripe, StripeAt(secret, secretLimit - 7));
    }

    /** XXH3_64bits_digest and XXH3_128bits_digest: the state is not changed. */
    method Digest<H>(k: Kernel, f: Finish<H>, ghost m: Mode, ghost data: seq<byte>) returns (h: H)
      requires Absorbed(k, m, data)
      ensures h == Hash(k, f, m, data)
    {
      hide DeriveSecret, DefaultSecret, InitAcc, Split, HashLong, PerBlock;
      var secret := CurrentSecret(m);
      if totalLen > MIDSIZE_MAX {
        var lanes := DigestLong(k, m, data);
        return f.finalizeLong(lanes, secret, totalLen);
      }
      assert data == buffer[..totalLen];
      if useSeed {
        h := OneShot(k, f, WithSeed(seed), buffer[..totalLen]);
      } else {
        h := OneShot(k, f, WithSecret(secret), buffer[..totalLen]);
      }
    }
  }

  /** Main result: feed any pieces to a state that was just reset, with a digest before the
      first and after every piece. Each digest is the one-shot hash of what was fed so far. */
  method HashPieces<H>(st: State, k: Kernel, f: Finish<H>, m: Mode, pieces: seq<seq<byte>>) returns (digests: seq<H>)
    requires st.Absorbed(k, m, [])
    requires |Concat(pieces)| < 0x1_0000_0000_0000_0000
    modifies st, st.buffer
    ensures |digests| == |pieces| + 1
    ensures forall i :: 0 <= i <= |pieces| ==> |Concat(pieces[..i])| <= |Concat(pieces)|
    ensures forall i :: 0 <= i <= |pieces| ==> digests[i] == Hash(k, f, m, Concat(pieces[..i]))
  {
    hide Hash, Concat;
    forall i | 0 <= i <= |pieces|
      ensures |Concat(pieces[..i])| <= |Concat(pieces)|
    {
      ConcatPrefix(pieces, i);
    }
    ConcatEmpty(pieces[..0]);
    var h := st.Digest(k, f, m, []);
    digests := [h];
    for n := 0 to |pieces|
      invariant st.Absorbed(k, m, Concat(pieces[..n]))
      invariant |digests| == n + 1
      invariant forall i :: 0 <= i <= n ==> digests[i] == Hash(k, f, m, Concat(pieces[..i]))
    {
      ConcatNext(pieces, n);
      st.Update(k, pieces[n], m, Concat(pieces[..n]));
      h := st.Digest(k, f, m, Concat(pieces[..n + 1]));
      digests := digests + [h];
    }
  }

  /** The first n bytes of data, whole stripes, have gone through the lanes. */
  ghost predicate Split(k: Kernel, secret: Secret, data: seq<byte>, n: int, c: Cursor) {
    && 0 <= n <= |data| && n % 64 == 0
    && c == Stripes(k, secret, Cursor(InitAcc(), 0), data, 0, n / 64)
  }

  /** The buffer starts with the unread tail of data. Once stripes were read, the tail is never
      empty, and behind it the end of the buffer still holds the bytes just before it. */
  ghost predicate Window(data: seq<byte>, buffer: seq<byte>, size: nat) {
    && |buffer| == 256 && size <= 256 && size <= |data|
    && buffer[..size] == data[|data| - size..]
    && (|data| > size ==>
          && |data| > 256 && size > 0 && |data| - size >= 64
          && forall j :: 192 <= j < 256 && size <= j ==> buffer[j] == data[|data| - size - 256 + j])
  }

  lemma SplitMore(k: Kernel, secret: Secret, data: seq<byte>, input: seq<byte>, n: int, c: Cursor)
    requires Split(k, secret, data, n, c)
    ensures Split(k, secret, data + input, n, c) && c.pos < PerBlock(secret)
  {
    assert data[0..0 + 64 * (n / 64)] == (data + input)[0..0 + 64 * (n / 64)];
    StripesMoved(k, secret, Cursor(InitAcc(), 0), data, 0, data + input, 0, n / 64);
  }

  /** Feeding the next nb stripes, wherever their bytes lie, moves the split forward. */
  lemma SplitFeed(k: Kernel, secret: Secret, data: seq<byte>, n: int, c: Cursor, input: seq<byte>, at: nat, nb: nat)
    requires Split(k, secret, data, n, c) && n + 64 * nb <= |data| && at + 64 * nb <= |input|
    requires input[at..at + 64 * nb] == data[n..n + 64 * nb]
    ensures c.pos < PerBlock(secret)
    ensures Split(k, secret, data, n + 64 * nb, Stripes(k, secret, c, input, at, nb))
  {
    hide Step, StripeAt, InitAcc, PerBlock;
    var start := Cursor(InitAcc(), 0);
    StripesSplit(k, secret, start, data, 0, n / 64, nb);
    StripesMoved(k, secret, c, input, at, data, n, nb);
    assert (n + 64 * nb) / 64 == n / 64 + nb;
  }

  lemma WindowFacts(data: seq<byte>, buffer: seq<byte>, size: nat)
    requires Window(data, buffer, size)
    ensures size <= 256 == |buffer| && size <= |data| && buffer[..size] == data[|data| - size..]
    ensures |data| > size ==> size > 0 && |data| > 256
  {
  }

  lemma WindowAppend(data: seq<byte>, buffer: seq<byte>, size: nat, input: seq<byte>)
    requires Window(data, buffer, size) && size + |input| <= 256
    ensures Window(data + input, Overwrite(buffer, size, input[0..0 + |input|]), size + |input|)
  {
    var after := Overwrite(buffer, size, input[0..0 + |input|]);
    assert after[..size + |input|] == data[|data| - size..] + input;
    assert (data + input)[|data| - size..] == data[|data| - size..] + input;
  }

  /** The buffer, filled up from the input, holds the next 256 bytes of the whole. */
  lemma BufferFull(data: seq<byte>, buffer: seq<byte>, size: nat, input: seq<byte>)
    requires Window(data, buffer, size) && size + |input| > 256
    ensures var full := Overwrite(buffer, size, input[0..0 + (256 - size)]);
            var read := |data| - size;
            && full[0..0 + 64 * 4] == full == (data + input)[read..read + 64 * 4]
            && full[192..] == (data + input)[read + 256 - 64..read + 256]
  {
    var full := Overwrite(buffer, size, input[0..0 + (256 - size)]);
    var read := |data| - size;
    assert (data + input)[read..read + 256] == data[read..] + input[..256 - size] == full;
    assert full[192..] == (data + input)[read..read + 256][192..];
  }

  lemma InputPart(data: seq<byte>, input: seq<byte>, at: nat, n: nat)
    requires at + n <= |input|
    ensures input[at..at + n] == (data + input)[|data| + at..|data| + at + n]
  {
  }

  lemma WindowRestart(all: seq<byte>, read: nat, buffer: seq<byte>, input: seq<byte>, at: nat)
    requires |buffer| == 256 && 64 <= read && at < |input| && read + |input| - at == |all| > 256
    requires |input| - at <= 256 && input[at..at + (|input| - at)] == all[read..read + (|input| - at)]
    requires buffer[192..] == all[read - 64..read]
    ensures Window(all, Overwrite(buffer, 0, input[at..at + (|input| - at)]), |input| - at)
  {
    var rest := |input| - at;
    var after := Overwrite(buffer, 0, input[at..at + rest]);
    assert after[..rest] == input[at..];
    forall j | 192 <= j < 256 && rest <= j
      ensures after[j] == all[read - 256 + j]
    {
      assert after[j] == buffer[192..][j - 192] == all[read - 64..read][j - 192];
    }
  }

  /** Once the split reaches the last 1 to 64 bytes, its lanes are those before the last stripe. */
  lemma SplitAll(k: Kernel, secret: Secret, data: seq<byte>, n: int, c: Cursor)
    requires Split(k, secret, data, n, c) && 0 < |data| - n <= 64 < |data|
    ensures c == Stripes(k, secret, Cursor(InitAcc(), 0), data, 0, (|data| - 1) / 64)
  {
    assert n / 64 == (|data| - 1) / 64;
  }

  lemma BufferedStripes(data: seq<byte>, buffer: seq<byte>, size: nat)
    requires Window(data, buffer, size) && size >= 64
    ensures var nb := (size - 1) / 64;
            var read := |data| - size;
            && buffer[0..0 + 64 * nb] == data[read..read + 64 * nb]
            && StripeAt(buffer, size - 64) == StripeAt(data, |data| - 64)
  {
    var nb := (size - 1) / 64;
    var read := |data| - size;
    assert buffer[0..0 + 64 * nb] == buffer[..size][..64 * nb];
    assert buffer[size - 64..size] == buffer[..size][size - 64..];
  }

  lemma CatchUp(data: seq<byte>, buffer: seq<byte>, size: nat)
    requires Window(data, buffer, size) && size < 64 && |data| > 240
    ensures buffer[256 - (64 - size)..] + buffer[..size] == StripeAt(data, |data| - 64)
  {
    var tail := buffer[256 - (64 - size)..];
    forall j | 0 <= j < 64 - size
      ensures tail[j] == data[|data| - 64 + j]
    {
      assert tail[j] == buffer[192 + size + j];
    }
    assert data[|data| - 64..] == data[|data| - 64..|data| - size] + data[|data| - size..];
  }
}
