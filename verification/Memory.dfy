/** Byte copies into fixed-size buffers, and inputs that arrive in pieces. */
module Memory {
  import opened Words

  /** s with the bytes from at replaced by part. */
  ghost function Overwrite(s: seq<byte>, at: nat, part: seq<byte>): (r: seq<byte>)
    requires at + |part| <= |s|
    ensures |r| == |s|
  {
    s[..at] + part + s[at + |part|..]
  }

  lemma OverwriteEnd(s: seq<byte>, part: seq<byte>)
    requires |part| <= |s|
    ensures Overwrite(s, |s| - |part|, part)[|s| - |part|..] == part
  {
  }

  /** XXH_memcpy of n bytes of src from srcAt. */
  method CopyInto(src: seq<byte>, srcAt: nat, n: nat, dst: array<byte>, dstAt: nat)
    requires srcAt + n <= |src| && dstAt + n <= dst.Length
    modifies dst
    ensures dst[..] == Overwrite(old(dst[..]), dstAt, src[srcAt..srcAt + n])
  {
    for i := 0 to n
      invariant forall j :: dstAt <= j < dstAt + i ==> dst[j] == src[srcAt + j - dstAt]
      invariant forall j :: 0 <= j < dst.Length && !(dstAt <= j < dstAt + i) ==> dst[j] == old(dst[j])
    {
      dst[dstAt + i] := src[srcAt + i];
    }
  }

  lemma OverwriteAppend(s: seq<byte>, at: nat, part: seq<byte>)
    requires at + |part| <= |s|
    ensures Overwrite(s, at, part)[..at + |part|] == s[..at] + part
  {
  }

  /** Everything the pieces contain, in order. */
  ghost function Concat(pieces: seq<seq<byte>>): seq<byte> {
    if pieces == [] then [] else Concat(pieces[..|pieces| - 1]) + pieces[|pieces| - 1]
  }

  lemma ConcatEmpty(pieces: seq<seq<byte>>)
    requires |pieces| == 0
    ensures Concat(pieces) == []
  {
  }

  lemma ConcatNext(pieces: seq<seq<byte>>, n: nat)
    requires n < |pieces|
    ensures Concat(pieces[..n + 1]) == Concat(pieces[..n]) + pieces[n]
  {
    assert pieces[..n + 1][..n] == pieces[..n];
  }

  lemma {:induction false} ConcatPrefix(pieces: seq<seq<byte>>, i: nat)
    requires i <= |pieces|
    ensures |Concat(pieces[..i])| <= |Concat(pieces)|
    decreases |pieces| - i
  {
    if i == |pieces| {
      assert pieces[..i] == pieces;
    } else {
      ConcatNext(pieces, i);
      ConcatPrefix(pieces, i + 1);
    }
  }
}
