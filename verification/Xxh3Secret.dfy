/** The default secret and the secrets derived from a seed. */
module Xxh3Secret {
  import opened Words
  import opened Xxh3Stripes

  /** Row r of XXH3_kSecret, 16 bytes a row. */
  function SecretRow(r: nat): (s: seq<byte>)
    requires r < 12
    ensures |s| == 16
  {
    match r
    case 0 => [0xb8, 0xfe, 0x6c, 0x39, 0x23, 0xa4, 0x4b, 0xbe, 0x7c, 0x01, 0x81, 0x2c, 0xf7, 0x21, 0xad, 0x1c]
    case 1 => [0xde, 0xd4, 0x6d, 0xe9, 0x83, 0x90, 0x97, 0xdb, 0x72, 0x40, 0xa4, 0xa4, 0xb7, 0xb3, 0x67, 0x1f]
    case 2 => [0xcb, 0x79, 0xe6, 0x4e, 0xcc, 0xc0, 0xe5, 0x78, 0x82, 0x5a, 0xd0, 0x7d, 0xcc, 0xff, 0x72, 0x21]
    case 3 => [0xb8, 0x08, 0x46, 0x74, 0xf7, 0x43, 0x24, 0x8e, 0xe0, 0x35, 0x90, 0xe6, 0x81, 0x3a, 0x26, 0x4c]
    case 4 => [0x3c, 0x28, 0x52, 0xbb, 0x91, 0xc3, 0x00, 0xcb, 0x88, 0xd0, 0x65, 0x8b, 0x1b, 0x53, 0x2e, 0xa3]
    case 5 => [0x71, 0x64, 0x48, 0x97, 0xa2, 0x0d, 0xf9, 0x4e, 0x38, 0x19, 0xef, 0x46, 0xa9, 0xde, 0xac, 0xd8]
    case 6 => [0xa8, 0xfa, 0x76, 0x3f, 0xe3, 0x9c, 0x34, 0x3f, 0xf9, 0xdc, 0xbb, 0xc7, 0xc7, 0x0b, 0x4f, 0x1d]
    case 7 => [0x8a, 0x51, 0xe0, 0x4b, 0xcd, 0xb4, 0x59, 0x31, 0xc8, 0x9f, 0x7e, 0xc9, 0xd9, 0x78, 0x73, 0x64]
    case 8 => [0xea, 0xc5, 0xac, 0x83, 0x34, 0xd3, 0xeb, 0xc3, 0xc5, 0x81, 0xa0, 0xff, 0xfa, 0x13, 0x63, 0xeb]
    case 9 => [0x17, 0x0d, 0xdd, 0x51, 0xb7, 0xf0, 0xda, 0x49, 0xd3, 0x16, 0x55, 0x26, 0x29, 0xd4, 0x68, 0x9e]
    case 10 => [0x2b, 0x16, 0xbe, 0x58, 0x7d, 0x47, 0xa1, 0xfc, 0x8f, 0xf8, 0xb8, 0xd1, 0x7a, 0xd0, 0x31, 0xce]
    case _ => [0x45, 0xcb, 0x3a, 0x8f, 0x95, 0x16, 0x04, 0x28, 0xaf, 0xd7, 0xfb, 0xca, 0xbb, 0x4b, 0x40, 0x7e]
  }

  /** XXH3_kSecret. */
  function DefaultSecret(): (s: Secret)
    ensures |s| == 192
  {
    seq(192, i requires 0 <= i < 192 => SecretRow(i / 16)[i % 16])
  }

  /** XXH3_INIT_ACC: the lanes before any input. */
  function InitAcc(): Lanes {
    [ 0xC2B2AE3D, 0x9E3779B185EBCA87, 0xC2B2AE3D27D4EB4F, 0x165667B19E3779F9,
      0x85EBCA77C2B2AE63, 0x85EBCA77, 0x27D4EB2F165667C5, 0x9E3779B1 ]
  }

  /** The 64-bit word i of a derived secret: the default word plus the seed when i is even,
      minus the seed when i is odd. */
  function DerivedWord(seed: u64, i: nat): u64
    requires i < 24
  {
    var w := ReadLE64(DefaultSecret(), 8 * i);
    if i % 2 == 0 then Add64(w, seed) else Sub64(w, seed)
  }

  /** Reference: the secret of a seed, byte by byte. */
  function DeriveSecret(seed: u64): (s: Secret)
    ensures |s| == 192
    ensures forall i :: 0 <= i < 192 ==> s[i] == ByteOf(DerivedWord(seed, i / 8), i % 8)
  {
    seq(192, i requires 0 <= i < 192 => ByteOf(DerivedWord(seed, i / 8), i % 8))
  }

  /** Bytes at..at + 8 are the little-endian form of v. */
  ghost predicate WordAt(s: seq<byte>, at: nat, v: u64) {
    at + 8 <= |s| && forall i :: 0 <= i < 8 ==> s[at + i] == ByteOf(v, i)
  }

  /** XXH_writeLE64 into an array. */
  method WriteLE64(a: array<byte>, at: nat, v: u64)
    requires at + 8 <= a.Length
    modifies a
    ensures WordAt(a[..], at, v)
    ensures a[..at] == old(a[..at]) && a[at + 8..] == old(a[at + 8..])
  {
    for n := 0 to 8
      invariant forall i :: 0 <= i < n ==> a[at + i] == ByteOf(v, i)
      invariant a[..at] == old(a[..at]) && a[at + 8..] == old(a[at + 8..])
    {
      a[at + n] := ByteOf(v, n);
    }
  }

  /** XXH3_initCustomSecret_scalar: two words a round, in place. */
  method InitCustomSecret(customSecret: array<byte>, seed: u64)
    requires customSecret.Length == 192
    modifies customSecret
    ensures customSecret[..] == DeriveSecret(seed)
  {
    hide ByteOf, DefaultSecret, ReadLE64, DeriveSecret;
    for i := 0 to 12
      invariant forall w :: 0 <= w < 2 * i ==> WordAt(customSecret[..], 8 * w, DerivedWord(seed, w))
    {
      ghost var before := customSecret[..];
      var lo := Add64(ReadLE64(DefaultSecret(), 16 * i), seed);
      var hi := Sub64(ReadLE64(DefaultSecret(), 16 * i + 8), seed);
      WriteLE64(customSecret, 16 * i, lo);
      ghost var middle := customSecret[..];
      WriteLE64(customSecret, 16 * i + 8, hi);
      assert middle[..16 * i + 8] == customSecret[..][..16 * i + 8];
      forall w | 0 <= w < 2 * i + 2
        ensures WordAt(customSecret[..], 8 * w, DerivedWord(seed, w))
      {
        if w < 2 * i {
          WordKept(before, middle, 8 * w, 16 * i, DerivedWord(seed, w));
        }
        if w < 2 * i + 1 {
          WordKept(middle, customSecret[..], 8 * w, 16 * i + 8, DerivedWord(seed, w));
        }
      }
    }
    WordsAreSecret(customSecret[..], seed);
  }

  lemma WordKept(a: seq<byte>, b: seq<byte>, at: nat, end: nat, v: u64)
    requires WordAt(a, at, v) && at + 8 <= end <= |a| && end <= |b| && a[..end] == b[..end]
    ensures WordAt(b, at, v)
  {
    forall i | 0 <= i < 8
      ensures b[at + i] == ByteOf(v, i)
    {
      assert b[..end][at + i] == a[..end][at + i];
    }
  }

  lemma WordsAreSecret(s: seq<byte>, seed: u64)
    requires |s| == 192
    requires forall w :: 0 <= w < 24 ==> WordAt(s, 8 * w, DerivedWord(seed, w))
    ensures s == DeriveSecret(seed)
  {
    hide ByteOf, DerivedWord;
    forall j | 0 <= j < 192
      ensures s[j] == DeriveSecret(seed)[j]
    {
      assert WordAt(s, 8 * (j / 8), DerivedWord(seed, j / 8));
      assert s[8 * (j / 8) + j % 8] == ByteOf(DerivedWord(seed, j / 8), j % 8);
    }
  }

  // ----- the secrets by their 64-bit words

  lemma DefaultWords0()
    ensures ReadLE64(SecretRow(0), 0) == 0xBE4BA423396CFEB8 && ReadLE64(SecretRow(0), 8) == 0x1CAD21F72C81017C
    ensures ReadLE64(SecretRow(1), 0) == 0xDB979083E96DD4DE && ReadLE64(SecretRow(1), 8) == 0x1F67B3B7A4A44072
    ensures ReadLE64(SecretRow(2), 0) == 0x78E5C0CC4EE679CB && ReadLE64(SecretRow(2), 8) == 0x2172FFCC7DD05A82
  {
  }

  lemma DefaultWords1()
    ensures ReadLE64(SecretRow(3), 0) == 0x8E2443F7744608B8 && ReadLE64(SecretRow(3), 8) == 0x4C263A81E69035E0
    ensures ReadLE64(SecretRow(4), 0) == 0xCB00C391BB52283C && ReadLE64(SecretRow(4), 8) == 0xA32E531B8B65D088
    ensures ReadLE64(SecretRow(5), 0) == 0x4EF90DA297486471 && ReadLE64(SecretRow(5), 8) == 0xD8ACDEA946EF1938
  {
  }

  lemma DefaultWords2()
    ensures ReadLE64(SecretRow(6), 0) == 0x3F349CE33F76FAA8 && ReadLE64(SecretRow(6), 8) == 0x1D4F0BC7C7BBDCF9
    ensures ReadLE64(SecretRow(7), 0) == 0x3159B4CD4BE0518A && ReadLE64(SecretRow(7), 8) == 0x647378D9C97E9FC8
    ensures ReadLE64(SecretRow(8), 0) == 0xC3EBD33483ACC5EA && ReadLE64(SecretRow(8), 8) == 0xEB6313FAFFA081C5
  {
  }

  lemma DefaultWords3()
    ensures ReadLE64(SecretRow(9), 0) == 0x49DAF0B751DD0D17 && ReadLE64(SecretRow(9), 8) == 0x9E68D429265516D3
    ensures ReadLE64(SecretRow(10), 0) == 0xFCA1477D58BE162B && ReadLE64(SecretRow(10), 8) == 0xCE31D07AD1B8F88F
    ensures ReadLE64(SecretRow(11), 0) == 0x280416958F3ACB45 && ReadLE64(SecretRow(11), 8) == 0x7E404BBBCAFBD7AF
  {
  }

  lemma RowOfSecret(r: nat)
    requires r < 12
    ensures DefaultSecret()[16 * r..16 * r + 16] == SecretRow(r)
    ensures ReadLE64(DefaultSecret(), 16 * r) == ReadLE64(SecretRow(r), 0)
    ensures ReadLE64(DefaultSecret(), 16 * r + 8) == ReadLE64(SecretRow(r), 8)
  {
    hide SecretRow;
    forall j | 0 <= j < 16
      ensures DefaultSecret()[16 * r + j] == SecretRow(r)[j]
    {
      assert (16 * r + j) / 16 == r && (16 * r + j) % 16 == j;
    }
  }

  /** Four bytes off the end of a number, as ReadLE32 puts them together. */
  lemma FourBytes(s: seq<byte>, at: nat, v: nat, i: nat)
    requires at + 4 <= |s| && s[at] == ByteOf(v, i) && s[at + 1] == ByteOf(v, i + 1)
    requires s[at + 2] == ByteOf(v, i + 2) && s[at + 3] == ByteOf(v, i + 3)
    ensures Shr(v, 8 * i) == 0x1_0000_0000 * Shr(v, 8 * i + 32) + ReadLE32(s, at)
  {
    NextByte(v, i);
    NextByte(v, i + 1);
    NextByte(v, i + 2);
    NextByte(v, i + 3);
    hide Shr, ByteOf;
  }

  /** The bytes of a word make the word. */
  lemma BytesOfWord(s: seq<byte>, at: nat, v: u64)
    requires WordAt(s, at, v)
    ensures ReadLE64(s, at) == v
  {
    hide Shr, ByteOf, ReadLE32;
    NextByte(v, 0);
    assert s[at + 0] == ByteOf(v, 0) && s[at + 1] == ByteOf(v, 1);
    FourBytes(s, at, v, 0);
    FourBytes(s, at + 4, v, 4);
  }

  lemma NextByte(v: nat, i: nat)
    ensures Shr(v, 0) == v && Shr(v, 8 * i) == 256 * Shr(v, 8 * i + 8) + ByteOf(v, i)
  {
    ShrTwice(v, 8 * i, 8);
    ShrIsDiv(Shr(v, 8 * i), 8);
    Pow2Values();
    hide Shr, Pow2;
  }

  lemma {:induction false} ShrTwice(a: nat, r: nat, s: nat)
    ensures Shr(a, r + s) == Shr(Shr(a, r), s)
  {
    if r > 0 {
      ShrTwice(a / 2, r - 1, s);
    }
  }

  /** The derived secret, word by word: the default one plus and minus the seed in turn, modulo 2^64. */
  lemma DerivedWords(seed: u64, i: nat)
    requires i < 24
    ensures ReadLE64(DeriveSecret(seed), 8 * i) as int ==
      (ReadLE64(DefaultSecret(), 8 * i) as int + if i % 2 == 0 then seed as int else -(seed as int))
      % 0x1_0000_0000_0000_0000
  {
    var s := DeriveSecret(seed);
    hide ReadLE64, ByteOf, DeriveSecret, DefaultSecret;
    forall k | 0 <= k < 8
      ensures s[8 * i + k] == ByteOf(DerivedWord(seed, i), k)
    {
      assert (8 * i + k) / 8 == i && (8 * i + k) % 8 == k;
    }
    BytesOfWord(s, 8 * i, DerivedWord(seed, i));
  }

  /** Under seed 0 the derived secret is the default one, so the entry points may skip the derivation. */
  lemma SeedZero()
    ensures DeriveSecret(0) == DefaultSecret()
  {
    hide ByteOf, DeriveSecret, DefaultSecret, ReadLE64;
    forall j | 0 <= j < 192
      ensures DeriveSecret(0)[j] == DefaultSecret()[j]
    {
      var i, k := j / 8, j % 8;
      assert DerivedWord(0, i) == ReadLE64(DefaultSecret(), 8 * i);
      ByteOfWord(DefaultSecret(), 8 * i, k);
    }
  }

  /** The number that bytes k to 8 make. */
  ghost function Above(s: seq<byte>, at: nat, k: nat): nat
    requires at + 8 <= |s| && k <= 8
    decreases 8 - k
  {
    if k == 8 then 0 else s[at + k] as int + 256 * Above(s, at, k + 1)
  }

  lemma WholeWord(s: seq<byte>, at: nat)
    requires at + 8 <= |s|
    ensures ReadLE64(s, at) == Above(s, at, 0)
  {
    assert Above(s, at, 4) == s[at + 4] as int
           + 256 * (s[at + 5] as int + 256 * (s[at + 6] as int + 256 * Above(s, at, 7)));
    assert Above(s, at, 0) ==
      s[at] as int
          + 256 * (s[at + 1] as int + 256 * (s[at + 2] as int + 256 * (s[at + 3] as int + 256 * Above(s, at, 4))));
  }

  lemma {:induction false} ShrOfWord(s: seq<byte>, at: nat, k: nat)
    requires at + 8 <= |s| && k <= 8
    ensures Shr(ReadLE64(s, at), 8 * k) == Above(s, at, k)
  {
    var v := ReadLE64(s, at);
    hide ReadLE64, Shr, ByteOf;
    if k == 0 {
      WholeWord(s, at);
      NextByte(v, 0);
    } else {
      ShrOfWord(s, at, k - 1);
      NextByte(v, k - 1);
      assert 8 * (k - 1) + 8 == 8 * k;
    }
  }

  lemma LowByte(b: byte, rest: nat)
    ensures (b as int + 256 * rest) % 256 == b
  {
  }

  /** The other way round: a word falls into the bytes it was read from. */
  lemma ByteOfWord(s: seq<byte>, at: nat, k: nat)
    requires at + 8 <= |s| && k < 8
    ensures ByteOf(ReadLE64(s, at), k) == s[at + k]
  {
    ShrOfWord(s, at, k);
    hide Shr, ReadLE64;
    LowByte(s[at + k], Above(s, at, k + 1));
  }
}
