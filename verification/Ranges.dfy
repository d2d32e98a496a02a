/** Ranges spaced by powers of a multiplier, over a signed integer type from -max - 1 to max. */
module Ranges {

  ghost function Pow(mult: int, k: nat): int {
    if k == 0 then 1 else mult * Pow(mult, k - 1)
  }

  ghost predicate IsPower(x: int, mult: int) {
    exists k: nat :: x == Pow(mult, k)
  }

  ghost predicate IsNegatedPower(x: int, mult: int) {
    IsPower(-x, mult)
  }

  ghost predicate Increasing(s: seq<int>) {
    forall i, j :: 0 <= i < j < |s| ==> s[i] < s[j]
  }

  /** A value of the type. */
  predicate InType(x: int, max: int) {
    -max - 1 <= x <= max
  }

  lemma {:induction false} PowPositive(mult: int, k: nat)
    requires mult >= 2
    ensures Pow(mult, k) >= 1
  {
    if k > 0 {
      PowPositive(mult, k - 1);
      Scale(mult, 1, Pow(mult, k - 1));
    }
  }

  lemma Scale(m: int, a: int, b: int)
    requires m >= 0 && a <= b
    ensures m * a <= m * b
  {
    assert m * b == m * a + m * (b - a);
  }

  lemma PowStep(mult: int, k: nat)
    requires mult >= 2
    ensures Pow(mult, k + 1) == Pow(mult, k) * mult >= 2 * Pow(mult, k) > Pow(mult, k)
  {
    PowPositive(mult, k);
    assert Pow(mult, k + 1) == mult * Pow(mult, k) == 2 * Pow(mult, k) + (mult - 2) * Pow(mult, k);
    Scale(Pow(mult, k), 0, mult - 2);
  }

  lemma {:induction false} PowMono(mult: int, j: nat, k: nat)
    requires mult >= 2 && j <= k
    ensures Pow(mult, j) <= Pow(mult, k)
  {
    if j < k {
      PowMono(mult, j, k - 1);
      PowStep(mult, k - 1);
    }
  }

  /** No power lies strictly between two neighbours. */
  lemma NoPowerBetween(mult: int, k: nat, x: int)
    requires mult >= 2 && IsPower(x, mult)
    ensures x <= Pow(mult, k) || x >= Pow(mult, k + 1)
  {
    var j: nat :| x == Pow(mult, j);
    if j <= k {
      PowMono(mult, j, k);
    } else {
      PowMono(mult, k + 1, j);
    }
  }

  /** The guard in front of the multiplication: beyond it, and only beyond it, the product would
      leave the type. */
  lemma GuardIsExact(i: int, mult: int, max: int)
    requires i >= 1 && mult >= 2 && max >= 1
    ensures i > max / mult <==> i * mult > max
  {
    assert max == mult * (max / mult) + max % mult;
    if i > max / mult {
      Scale(mult, max / mult + 1, i);
      assert mult * (max / mult + 1) == mult * (max / mult) + mult;
    } else {
      Scale(mult, i, max / mult);
    }
  }

  lemma PowersArePositive(mult: int)
    requires mult >= 2
    ensures forall x :: IsPower(x, mult) ==> x >= 1
    ensures forall x :: IsNegatedPower(x, mult) ==> x <= -1
  {
    forall x | IsPower(x, mult)
      ensures x >= 1
    {
      var j: nat :| x == Pow(mult, j);
      PowPositive(mult, j);
    }
  }

  /** What one turn adds to the segment. */
  lemma NextPower(mult: int, k: nat, lo: int, hi: int, before: seq<int>, seg: seq<int>)
    requires mult >= 2 && Pow(mult, k) <= hi
    requires forall x :: x in before <==> lo <= x <= hi && x < Pow(mult, k) && IsPower(x, mult)
    requires seg == if Pow(mult, k) >= lo then before + [Pow(mult, k)] else before
    requires Increasing(before)
    ensures forall x :: x in seg <==> lo <= x <= hi && x < Pow(mult, k + 1) && IsPower(x, mult)
    ensures Increasing(seg)
  {
    hide Pow, IsPower;
    PowStep(mult, k);
    IsPowerAt(mult, k);
    if Pow(mult, k) >= lo {
      Join(before, [Pow(mult, k)]);
    }
    forall x
      ensures x in seg <==> lo <= x <= hi && x < Pow(mult, k + 1) && IsPower(x, mult)
    {
      if IsPower(x, mult) {
        NoPowerBetween(mult, k, x);
      }
    }
  }

  lemma IsPowerAt(mult: int, k: nat)
    ensures IsPower(Pow(mult, k), mult)
  {
  }

  /** AddPowers: appends the powers of mult in the closed interval. */
  method AddPowers(dst: seq<int>, lo: int, hi: int, mult: int, max: int) returns (r: seq<int>)
    requires 0 <= lo <= hi <= max && mult >= 2 && max >= 1
    ensures dst <= r && Increasing(r[|dst|..])
    ensures forall x :: x in r[|dst|..] <==> lo <= x <= hi && IsPower(x, mult)
  {
    hide Pow, IsPower, Increasing;
    r := dst;
    ghost var seg := [];
    var i: int := 1;
    ghost var k: nat := 0;
    PowersArePositive(mult);
    PowZero(mult);
    var more := true;
    while more && i <= hi
      invariant i == Pow(mult, k) >= 1 && InType(i, max)
      invariant r == dst + seg && Increasing(seg)
      invariant more ==> forall x :: x in seg <==> lo <= x <= hi && x < i && IsPower(x, mult)
      invariant !more ==> forall x :: x in seg <==> lo <= x <= hi && IsPower(x, mult)
      decreases more, hi - i
    {
      PowStep(mult, k);
      GuardIsExact(i, mult, max);
      ghost var before := seg;
      if i >= lo {
        r, seg := r + [i], seg + [i];
      }
      NextPower(mult, k, lo, hi, before, seg);
      if i > max / mult {
        more := false;
      } else {
        i, k := i * mult, k + 1;
      }
    }
  }

  lemma PowZero(mult: int)
    ensures Pow(mult, 0) == 1 && Increasing([])
  {
  }

  ghost function NegatedReverse(s: seq<int>): (r: seq<int>)
    ensures |r| == |s|
  {
    seq(|s|, i requires 0 <= i < |s| => -s[|s| - 1 - i])
  }

  lemma NegatedReverseFacts(s: seq<int>)
    requires Increasing(s)
    ensures Increasing(NegatedReverse(s))
    ensures forall x :: x in NegatedReverse(s) <==> -x in s
    ensures forall x, mult :: IsNegatedPower(x, mult) <==> IsPower(-x, mult)
  {
    forall x
      ensures x in NegatedReverse(s) <==> -x in s
    {
      if -x in s {
        var i :| 0 <= i < |s| && s[i] == -x;
        assert NegatedReverse(s)[|s| - 1 - i] == x;
      }
    }
  }

  lemma NegatedSegment(dst: seq<int>, appended: seq<int>, r: seq<int>, positive: seq<int>)
    requires appended == dst + positive && |r| == |appended| && r[..|dst|] == dst
    requires forall q :: |dst| <= q < |r| ==> r[q] == -appended[|dst| + |r| - 1 - q]
    ensures r == dst + NegatedReverse(positive)
  {
  }

  /** *= -1 for every element from start on; none of them leaves the type. */
  method NegateFrom(v: seq<int>, start: nat, max: int) returns (r: seq<int>)
    requires start <= |v| && forall q :: start <= q < |v| ==> 0 <= v[q] <= max
    ensures |r| == |v| && r[..start] == v[..start] && forall q :: start <= q < |v| ==> r[q] == -v[q]
  {
    r := v;
    for j := start to |r|
      invariant |r| == |v| && r[..start] == v[..start]
      invariant forall q :: start <= q < j ==> r[q] == -v[q]
      invariant forall q :: j <= q < |r| ==> r[q] == v[q]
    {
      assert InType(r[j] * -1, max);
      r := r[j := r[j] * -1];
    }
  }

  /** std::reverse from start on. */
  method ReverseFrom(v: seq<int>, start: nat) returns (r: seq<int>)
    requires start <= |v|
    ensures |r| == |v| && r[..start] == v[..start]
    ensures forall q :: start <= q < |v| ==> r[q] == v[start + |v| - 1 - q]
  {
    r := v;
    var a, z := start, |r|;
    while a < z
      invariant start <= a <= z + 1 && start - 1 <= z <= |r| == |v| && a - start == |r| - z && r[..start] == v[..start]
      invariant forall q :: start <= q < a || z <= q < |r| ==> r[q] == v[start + |r| - 1 - q]
      invariant forall q :: a <= q < z ==> r[q] == v[q]
      decreases z - a
    {
      r := r[a := r[z - 1]][z - 1 := r[a]];
      a, z := a + 1, z - 1;
    }
  }

  /** AddNegatedPowers: appends positive powers, then negates and reverses what it appended. */
  method AddNegatedPowers(dst: seq<int>, lo: int, hi: int, mult: int, max: int) returns (r: seq<int>)
    requires -max <= lo <= hi <= 0 && mult >= 2 && max >= 1
    ensures dst <= r && Increasing(r[|dst|..])
    ensures forall x :: x in r[|dst|..] <==> lo <= x <= hi && IsNegatedPower(x, mult)
  {
    hide IsPower, IsNegatedPower, Increasing, NegatedReverse;
    r := AddPowers(dst, -hi, -lo, mult, max);
    var start := |dst|;
    ghost var appended, positive := r, r[start..];
    forall q | start <= q < |r|
      ensures 0 <= r[q] <= max
    {
      assert r[q] == positive[q - start] && r[q] in positive;
    }
    r := NegateFrom(r, start, max);
    r := ReverseFrom(r, start);
    NegatedReverseFacts(positive);
    NegatedSegment(dst, appended, r, positive);
    assert r[start..] == NegatedReverse(positive);
  }

  /** What AddRange promises: both ends, and between them zero and the powers of both signs. */
  ghost predicate InRange(x: int, lo: int, hi: int, mult: int) {
    x == lo || x == hi || (lo < x < hi && (x == 0 || IsPower(x, mult) || IsNegatedPower(x, mult)))
  }

  /** AddRange, for every pair of values of the type, its extremes included: no step leaves the type,
      as each callee's precondition and the assertions show. */
  method AddRange(dst: seq<int>, lo: int, hi: int, mult: int, max: int) returns (r: seq<int>)
    requires InType(lo, max) && InType(hi, max) && lo <= hi && mult >= 2 && max >= 1
    ensures dst < r && Increasing(r[|dst|..])
    ensures r[|dst|] == lo && r[|r| - 1] == hi
    ensures forall x :: x in r[|dst|..] <==> InRange(x, lo, hi, mult)
  {
    hide IsPower, IsNegatedPower, Increasing, Stage, InRange;
    r := dst + [lo];
    ghost var seg := [lo];
    StartStage(lo, hi, mult);
    if lo == hi {
      SegmentIs(dst, seg, r);
      return;
    }
    assert InType(lo + 1, max);
    if lo + 1 == hi {
      r := r + [hi];
      SegmentIs(dst, seg + [hi], r);
      return;
    }
    var loInner, hiInner := lo + 1, hi - 1;
    assert InType(loInner, max) && InType(hiInner, max);
    ghost var was := r;
    if loInner < 0 {
      r := AddNegatedPowers(r, loInner, if hiInner < -1 then hiInner else -1, mult, max);
    }
    NegativeStage(seg, r[|was|..], lo, hi, mult);
    Appended(dst, seg, was, r);
    seg, was := seg + r[|was|..], r;
    if lo < 0 && hi >= 0 {
      r := r + [0];
    }
    ZeroStage(seg, r[|was|..], lo, hi, mult);
    Appended(dst, seg, was, r);
    seg, was := seg + r[|was|..], r;
    if hiInner > 0 {
      r := AddPowers(r, if loInner > 1 then loInner else 1, hiInner, mult, max);
    }
    PositiveStage(seg, r[|was|..], lo, hi, mult);
    Appended(dst, seg, was, r);
    seg, was := seg + r[|was|..], r;
    if hi != r[|r| - 1] {
      r := r + [hi];
    }
    EndStage(seg, r[|was|..], lo, hi, mult);
    Appended(dst, seg, was, r);
    SegmentIs(dst, seg + r[|was|..], r);
  }

  lemma Appended(dst: seq<int>, seg: seq<int>, was: seq<int>, r: seq<int>)
    requires was == dst + seg && was <= r
    ensures r == dst + (seg + r[|was|..])
  {
  }

  lemma SegmentIs(dst: seq<int>, seg: seq<int>, r: seq<int>)
    requires r == dst + seg
    ensures dst <= r && r[|dst|..] == seg
  {
  }

  /** The segment when the first n of its three inner parts are in: negative, zero, positive. */
  ghost predicate Stage(n: int, s: seq<int>, lo: int, hi: int, mult: int) {
    && Increasing(s) && Start(s, lo)
    && forall x :: x in s <==> Placed(n, x, lo, hi, mult)
  }

  ghost predicate Placed(n: int, x: int, lo: int, hi: int, mult: int) {
    || x == lo
    || (lo < x < hi && ((n >= 1 && IsNegatedPower(x, mult)) || (n >= 3 && IsPower(x, mult))))
    || (n >= 2 && lo < 0 <= hi && x == 0)
  }

  lemma StartStage(lo: int, hi: int, mult: int)
    requires lo <= hi && mult >= 2
    ensures Stage(0, [lo], lo, hi, mult) && Increasing([lo])
    ensures lo == hi ==> forall x :: x in [lo] <==> InRange(x, lo, hi, mult)
    ensures lo + 1 == hi ==> Increasing([lo] + [hi]) && forall x :: x in [lo] + [hi] <==> InRange(x, lo, hi, mult)
  {
  }

  lemma NegativeStage(s: seq<int>, part: seq<int>, lo: int, hi: int, mult: int)
    requires lo + 1 < hi && mult >= 2 && Stage(0, s, lo, hi, mult) && (part == [] || Increasing(part))
    requires lo + 1 >= 0 ==> part == []
    requires lo + 1 < 0 ==>
               forall x :: x in part <==>
                             lo + 1 <= x <= (if hi - 1 < -1 then hi - 1 else -1) && IsNegatedPower(x, mult)
    ensures Stage(1, s + part, lo, hi, mult)
  {
    hide IsPower, IsNegatedPower;
    PowersArePositive(mult);
    Join(s, part);
  }

  lemma ZeroStage(s: seq<int>, part: seq<int>, lo: int, hi: int, mult: int)
    requires lo + 1 < hi && mult >= 2 && Stage(1, s, lo, hi, mult) && part == if lo < 0 && hi >= 0 then [0] else []
    ensures Stage(2, s + part, lo, hi, mult)
  {
    hide IsPower, IsNegatedPower;
    PowersArePositive(mult);
    if lo < 0 && hi >= 0 {
      Join(s, [0]);
    } else {
      assert s + [] == s;
    }
  }

  lemma PositiveStage(s: seq<int>, part: seq<int>, lo: int, hi: int, mult: int)
    requires lo + 1 < hi && mult >= 2 && Stage(2, s, lo, hi, mult) && (part == [] || Increasing(part))
    requires hi - 1 <= 0 ==> part == []
    requires hi - 1 > 0 ==>
               forall x :: x in part <==> (if lo + 1 > 1 then lo + 1 else 1) <= x <= hi - 1 && IsPower(x, mult)
    ensures Stage(3, s + part, lo, hi, mult)
  {
    hide IsPower, IsNegatedPower;
    PowersArePositive(mult);
    Join(s, part);
  }

  lemma EndStage(s: seq<int>, part: seq<int>, lo: int, hi: int, mult: int)
    requires lo + 1 < hi && mult >= 2 && Stage(3, s, lo, hi, mult) && s != []
    requires part == if hi != s[|s| - 1] then [hi] else []
    ensures var end := s + part;
            && end != [] && Increasing(end) && Start(end, lo) && end[|end| - 1] == hi
            && forall x :: x in end <==> InRange(x, lo, hi, mult)
  {
    hide IsPower, IsNegatedPower;
    if hi != s[|s| - 1] {
      AllBelow(s, hi);
      Join(s, [hi]);
    } else {
      assert s + [] == s && s[|s| - 1] in s;
      if lo < 0 && hi >= 0 {
        assert 0 in s;
      }
    }
  }

  ghost predicate Start(s: seq<int>, lo: int) {
    s != [] && s[0] == lo
  }

  /** In an increasing segment that stays up to hi and does not end in it, hi does not occur. */
  lemma AllBelow(s: seq<int>, hi: int)
    requires Increasing(s) && s != [] && s[|s| - 1] != hi && forall x :: x in s ==> x <= hi
    ensures forall x :: x in s ==> x < hi
  {
    assert s[|s| - 1] in s;
  }

  lemma Join(a: seq<int>, b: seq<int>)
    requires Increasing(a) && (|b| <= 1 || Increasing(b)) && forall x, y :: x in a && y in b ==> x < y
    ensures Increasing(a + b) && forall x :: x in a + b <==> x in a || x in b
  {
    forall i, j | 0 <= i < j < |a + b|
      ensures (a + b)[i] < (a + b)[j]
    {
      if i < |a| <= j {
        assert a[i] in a && b[j - |a|] in b;
      }
    }
  }
}
