/** Argument enumeration of the benchmark library: the Cartesian product by odometer, and ranges
    spaced by powers. */
module Arguments {

  // ----- the odometer

  /** Reference: the digits of i in the mixed radix given by sizes, least significant first. */
  function Digits(sizes: seq<nat>, i: nat): (d: seq<nat>)
    requires forall p :: 0 <= p < |sizes| ==> sizes[p] > 0
    ensures |d| == |sizes| && forall p :: 0 <= p < |d| ==> d[p] < sizes[p]
    decreases |sizes|
  {
    if sizes == [] then [] else [i % sizes[0]] + Digits(sizes[1..], i / sizes[0])
  }

  function Product(sizes: seq<nat>): nat {
    if sizes == [] then 1 else sizes[0] * Product(sizes[1..])
  }

  /** The number whose digits are d. */
  function Value(sizes: seq<nat>, d: seq<nat>): nat
    requires |d| == |sizes|
  {
    if sizes == [] then 0 else d[0] + sizes[0] * Value(sizes[1..], d[1..])
  }

  ghost predicate Within(sizes: seq<nat>, d: seq<nat>) {
    |d| == |sizes| && forall p :: 0 <= p < |d| ==> d[p] < sizes[p]
  }

  /** Quotient and remainder are determined by their defining equation. */
  lemma DivUnique(a: nat, n: nat, q: nat, r: nat)
    requires n > 0 && a == n * q + r && r < n
    ensures a / n == q && a % n == r
  {
    assert a == n * (a / n) + a % n;
    Grow(n, a / n - q);
    assert n * (a / n - q) == r - a % n;
  }

  lemma Grow(n: int, d: int)
    requires n > 0
    ensures d >= 1 ==> n * d >= n
    ensures d <= -1 ==> n * d <= -n
  {
    if d >= 1 {
      assert n * d == n + n * (d - 1);
    } else if d <= -1 {
      assert n * d == -n - n * (-d - 1);
    }
  }

  lemma {:induction false} AllPositive(sizes: seq<nat>)
    ensures Product(sizes) > 0 <==> forall p :: 0 <= p < |sizes| ==> sizes[p] > 0
  {
    if sizes == [] {
    } else {
      AllPositive(sizes[1..]);
      assert sizes == [sizes[0]] + sizes[1..];
      assert sizes[0] * Product(sizes[1..]) > 0 <==> sizes[0] > 0 && Product(sizes[1..]) > 0;
    }
  }

  /** Every index vector within the sizes is reached, and at one number below the product only. */
  lemma {:induction false} Reached(sizes: seq<nat>, d: seq<nat>)
    requires Within(sizes, d)
    ensures forall p :: 0 <= p < |sizes| ==> sizes[p] > 0
    ensures Value(sizes, d) < Product(sizes) && Digits(sizes, Value(sizes, d)) == d
  {
    if sizes == [] {
    } else {
      assert Within(sizes[1..], d[1..]);
      Reached(sizes[1..], d[1..]);
      var n, v := sizes[0], Value(sizes[1..], d[1..]);
      TopDigit(d[0], n, v, Product(sizes[1..]));
      assert d == [d[0]] + d[1..];
    }
  }

  lemma TopDigit(d: nat, n: nat, v: nat, m: nat)
    requires d < n && v < m
    ensures d + n * v < n * m && (d + n * v) / n == v && (d + n * v) % n == d
  {
    DivUnique(d + n * v, n, v, d);
    MulMono(n, v + 1, m);
    assert n * (v + 1) == n * v + n;
  }

  lemma MulMono(a: nat, b: nat, c: nat)
    requires b <= c
    ensures a * b <= a * c
  {
    assert a * c == a * b + a * (c - b);
  }

  lemma QuotientBelow(i: nat, n: nat, m: nat)
    requires n > 0 && i < n * m
    ensures i / n < m && i == i % n + n * (i / n)
  {
    assert i == n * (i / n) + i % n;
    if m <= i / n {
      MulMono(n, m, i / n);
    }
  }

  lemma {:induction false} Distinct(sizes: seq<nat>, i: nat)
    requires forall p :: 0 <= p < |sizes| ==> sizes[p] > 0
    requires i < Product(sizes)
    ensures Value(sizes, Digits(sizes, i)) == i
  {
    if sizes == [] {
    } else {
      var n := sizes[0];
      QuotientBelow(i, n, Product(sizes[1..]));
      Distinct(sizes[1..], i / n);
      assert Digits(sizes, i)[1..] == Digits(sizes[1..], i / n);
    }
  }

  /** Position p shows i divided by the product of the earlier sizes, modulo its own size. */
  lemma {:induction false} DigitAt(sizes: seq<nat>, i: nat, p: nat)
    requires (forall q :: 0 <= q < |sizes| ==> sizes[q] > 0) && p < |sizes|
    ensures Product(sizes[..p]) > 0 && Digits(sizes, i)[p] == i / Product(sizes[..p]) % sizes[p]
    decreases p
  {
    AllPositive(sizes[..p]);
    if p == 0 {
      assert i / 1 == i;
    } else {
      DigitAt(sizes[1..], i / sizes[0], p - 1);
      assert sizes[..p][1..] == sizes[1..][..p - 1];
      DivDiv(i, sizes[0], Product(sizes[1..][..p - 1]));
    }
  }

  lemma DivDiv(i: nat, a: nat, b: nat)
    requires a > 0 && b > 0
    ensures a * b > 0 && i / a / b == i / (a * b)
  {
    Euclid(i, a);
    Euclid(i / a, b);
    DivDivBy(i, a, b, i / a, i % a, i / a / b, i / a % b);
  }

  lemma Euclid(i: nat, n: nat)
    requires n > 0
    ensures i == n * (i / n) + i % n && 0 <= i % n < n && i / n >= 0
  {
  }

  lemma DivDivBy(i: nat, a: nat, b: nat, q: nat, r: nat, s: nat, t: nat)
    requires i == a * q + r && r < a && q == b * s + t && t < b
    ensures a * b > 0 && i / (a * b) == s
  {
    TwoDigits(a, b, r, s, t);
    DivUnique(i, a * b, s, a * t + r);
  }

  lemma TwoDigits(a: nat, b: nat, r: nat, s: nat, t: nat)
    requires r < a && t < b
    ensures a * (b * s + t) + r == a * b * s + (a * t + r)
    ensures a * t + r < a * b
  {
    Expand(a, b, s, t);
    MulMono(a, t + 1, b);
  }

  lemma Expand(a: nat, b: nat, s: nat, t: nat)
    ensures a * (b * s + t) == a * b * s + a * t && a * (t + 1) == a * t + a
  {
  }

  /** One step of the odometer: the first digit moves on, and carries if it comes back to zero. */
  lemma NextDigit(n: nat, i: nat)
    requires n > 0
    ensures (i + 1) % n == (i % n + 1) % n
    ensures (i + 1) / n == if (i % n + 1) % n == 0 then i / n + 1 else i / n
  {
    assert i == n * (i / n) + i % n;
    if i % n + 1 < n {
      DivUnique(i + 1, n, i / n, i % n + 1);
      DivUnique(i % n + 1, n, 0, i % n + 1);
    } else {
      assert n * (i / n + 1) == n * (i / n) + n;
      DivUnique(i + 1, n, i / n + 1, 0);
      DivUnique(n, n, 1, 0);
    }
  }

  /** The counter at its end has come round to all zeros. */
  lemma {:induction false} ComesRound(sizes: seq<nat>)
    requires forall p :: 0 <= p < |sizes| ==> sizes[p] > 0
    ensures Digits(sizes, Product(sizes)) == seq(|sizes|, i => 0) == Digits(sizes, 0)
  {
    if sizes == [] {
    } else {
      var n := sizes[0];
      DivUnique(n * Product(sizes[1..]), n, Product(sizes[1..]), 0);
      DivUnique(0, n, 0, 0);
      ComesRound(sizes[1..]);
      assert seq(|sizes|, i => 0) == [0] + seq(|sizes| - 1, i => 0);
    }
  }

  function Sizes(arglists: seq<seq<int>>): (s: seq<nat>)
    ensures |s| == |arglists| && forall p :: 0 <= p < |s| ==> s[p] == |arglists[p]|
  {
    seq(|arglists|, p requires 0 <= p < |arglists| => |arglists[p]|)
  }

  /** One argument from each list. */
  function Pick(arglists: seq<seq<int>>, d: seq<nat>): seq<int>
    requires |d| == |arglists| && forall p :: 0 <= p < |d| ==> d[p] < |arglists[p]|
  {
    seq(|d|, p requires 0 <= p < |d| => arglists[p][d[p]])
  }

  /** The product in odometer order; nothing when some list is empty. */
  ghost function ProductArgs(arglists: seq<seq<int>>, n: nat): (r: seq<seq<int>>)
    requires n <= Product(Sizes(arglists))
    ensures |r| == n
  {
    AllPositive(Sizes(arglists));
    if n == 0 then []
    else ProductArgs(arglists, n - 1) + [Pick(arglists, Digits(Sizes(arglists), n - 1))]
  }

  lemma {:induction false} ProductArgsAt(arglists: seq<seq<int>>, n: nat, i: nat)
    requires i < n <= Product(Sizes(arglists))
    ensures forall p :: 0 <= p < |arglists| ==> Sizes(arglists)[p] > 0
    ensures ProductArgs(arglists, n)[i] == Pick(arglists, Digits(Sizes(arglists), i))
  {
    AllPositive(Sizes(arglists));
    if i < n - 1 {
      ProductArgsAt(arglists, n - 1, i);
    }
  }

  /** Every choice of one index per list occurs in the product at exactly one place. */
  lemma EveryTupleOnce(arglists: seq<seq<int>>, d: seq<nat>) returns (i: nat)
    requires Within(Sizes(arglists), d)
    ensures forall p :: 0 <= p < |arglists| ==> Sizes(arglists)[p] > 0
    ensures i < Product(Sizes(arglists)) && Digits(Sizes(arglists), i) == d
    ensures ProductArgs(arglists, Product(Sizes(arglists)))[i] == Pick(arglists, d)
    ensures forall j :: 0 <= j < Product(Sizes(arglists)) && Digits(Sizes(arglists), j) == d ==> j == i
  {
    Reached(Sizes(arglists), d);
    i := Value(Sizes(arglists), d);
    ProductArgsAt(arglists, Product(Sizes(arglists)), i);
    forall j | 0 <= j < Product(Sizes(arglists)) && Digits(Sizes(arglists), j) == d
      ensures j == i
    {
      Distinct(Sizes(arglists), j);
    }
  }

  /** The tuples that ArgsProduct appends. */
  ghost function Tuples(arglists: seq<seq<int>>): seq<seq<int>> {
    ProductArgs(arglists, Product(Sizes(arglists)))
  }

  /** The tuple at place i, argument by argument: list p moves on once for every round of the lists
      before it. */
  lemma TupleAt(arglists: seq<seq<int>>, i: nat, p: nat)
    requires i < |Tuples(arglists)| && p < |arglists|
    ensures |Tuples(arglists)| == Product(Sizes(arglists)) && |Tuples(arglists)[i]| == |arglists|
    ensures |arglists[p]| > 0 && Product(Sizes(arglists)[..p]) > 0
    ensures Tuples(arglists)[i][p] == arglists[p][i / Product(Sizes(arglists)[..p]) % |arglists[p]|]
  {
    var sizes := Sizes(arglists);
    hide Digits, Product;
    ProductArgsAt(arglists, Product(sizes), i);
    DigitAt(sizes, i, p);
  }

  /** Every way to take one argument from each list is appended. */
  lemma TupleOccurs(arglists: seq<seq<int>>, t: seq<int>) returns (i: nat)
    requires |t| == |arglists| && forall p :: 0 <= p < |t| ==> t[p] in arglists[p]
    ensures i < |Tuples(arglists)| && Tuples(arglists)[i] == t
  {
    var d: seq<nat> := [];
    for p := 0 to |t|
      invariant |d| == p && forall q :: 0 <= q < p ==> d[q] < |arglists[q]| && arglists[q][d[q]] == t[q]
    {
      var k: nat :| k < |arglists[p]| && arglists[p][k] == t[p];
      d := d + [k];
    }
    i := EveryTupleOnce(arglists, d);
    assert Pick(arglists, d) == t;
  }

  /** No list holds an argument twice. */
  ghost predicate NoRepeats(arglists: seq<seq<int>>) {
    forall p, a, b :: 0 <= p < |arglists| && 0 <= a < b < |arglists[p]| ==> arglists[p][a] != arglists[p][b]
  }

  ghost predicate NoTupleTwice(arglists: seq<seq<int>>) {
    forall i, j :: 0 <= i < j < |Tuples(arglists)| ==> Tuples(arglists)[i] != Tuples(arglists)[j]
  }

  lemma SameTuple(arglists: seq<seq<int>>, i: nat, j: nat)
    requires NoRepeats(arglists) && i < |Tuples(arglists)| && j < |Tuples(arglists)|
    requires Tuples(arglists)[i] == Tuples(arglists)[j]
    ensures i == j
  {
    var sizes := Sizes(arglists);
    hide Digits, Product;
    ProductArgsAt(arglists, Product(sizes), i);
    ProductArgsAt(arglists, Product(sizes), j);
    var d, e := Digits(sizes, i), Digits(sizes, j);
    forall p | 0 <= p < |d|
      ensures d[p] == e[p]
    {
      assert arglists[p][d[p]] == Pick(arglists, d)[p] == Pick(arglists, e)[p] == arglists[p][e[p]];
    }
    assert d == e;
    Distinct(sizes, i);
    Distinct(sizes, j);
  }

  /** One argument in two places of its list makes two tuples of one choice. */
  lemma TwiceFor(arglists: seq<seq<int>>, p: nat, a: nat, b: nat) returns (i: nat, j: nat)
    requires Product(Sizes(arglists)) > 0 && p < |arglists| && a < b < |arglists[p]|
    requires arglists[p][a] == arglists[p][b]
    ensures i < j < |Tuples(arglists)| && Tuples(arglists)[i] == Tuples(arglists)[j]
  {
    var sizes := Sizes(arglists);
    AllPositive(sizes);
    hide Digits, Product;
    var zero: seq<nat> := seq(|sizes|, q => 0);
    var d, e := zero[p := a], zero[p := b];
    i := EveryTupleOnce(arglists, d);
    j := EveryTupleOnce(arglists, e);
    assert d[p] != e[p] && Pick(arglists, d) == Pick(arglists, e);
    if j < i {
      i, j := j, i;
    }
  }

  /** Unless a list is empty, no tuple is appended twice exactly when no list holds an argument twice. */
  lemma OnceIff(arglists: seq<seq<int>>)
    requires forall p :: 0 <= p < |arglists| ==> arglists[p] != []
    ensures NoTupleTwice(arglists) <==> NoRepeats(arglists)
  {
    AllPositive(Sizes(arglists));
    hide Tuples, Product;
    if NoRepeats(arglists) {
      forall i, j | 0 <= i < j < |Tuples(arglists)|
        ensures Tuples(arglists)[i] != Tuples(arglists)[j]
      {
        if Tuples(arglists)[i] == Tuples(arglists)[j] {
          SameTuple(arglists, i, j);
        }
      }
    } else {
      var p, a, b :| 0 <= p < |arglists| && 0 <= a < b < |arglists[p]| && arglists[p][a] == arglists[p][b];
      var i, j := TwiceFor(arglists, p, a, b);
    }
  }

  lemma ProductOfTwos()
    ensures Product([2]) == 2 && Product([2, 2]) == 4
  {
    assert [2][1..] == [] && [2, 2][1..] == [2];
  }

  lemma TwoByTwoAt(i: nat)
    requires i < 4
    ensures |Tuples([[1, 2], [3, 4]])| == 4
    ensures Tuples([[1, 2], [3, 4]])[i] == [[1, 2][i % 2], [3, 4][i / 2 % 2]]
  {
    var lists := [[1, 2], [3, 4]];
    ProductOfTwos();
    assert Sizes(lists) == [2, 2] && [2, 2][..1] == [2] && [2, 2][..0] == [];
    assert |Tuples(lists)| == Product(Sizes(lists)) && Product([]) == 1;
    hide Tuples, Product, Sizes;
    TupleAt(lists, i, 0);
    TupleAt(lists, i, 1);
    assert i / 1 == i;
  }

  lemma TwoByTwo()
    ensures Tuples([[1, 2], [3, 4]]) == [[1, 3], [2, 3], [1, 4], [2, 4]]
  {
    hide Tuples;
    TwoByTwoAt(0);
    TwoByTwoAt(1);
    TwoByTwoAt(2);
    TwoByTwoAt(3);
  }

  class Benchmark {
    var args: seq<seq<int>>

    /** ArgsProduct: appends every combination, the first list moving fastest. The counter is an
        array of indices; a digit that returns to zero carries into the next. */
    method ArgsProduct(arglists: seq<seq<int>>) returns (ghost counter: seq<nat>)
      requires arglists != []
      modifies this
      ensures args == old(args) + Tuples(arglists)
      ensures counter == seq(|arglists|, i => 0)
    {
      hide Digits, Pick, Product;
      var sizes := Sizes(arglists);
      AllPositive(sizes);
      var indices := new nat[|arglists|](i => 0);
      var total := Total(sizes);
      if total > 0 {
        ComesRound(sizes);
      }
      assert indices[..] == seq(|arglists|, i => 0);
      ghost var was := args;
      for i := 0 to total
        invariant total > 0 ==> indices[..] == Digits(sizes, i)
        invariant total == 0 ==> indices[..] == seq(|arglists|, i => 0)
        invariant args == was + ProductArgs(arglists, i)
      {
        var tuple := PickInPlace(arglists, indices);
        args := args + [tuple];
        Advance(sizes, indices, i);
      }
      counter := indices[..];
    }
  }

  method Total(sizes: seq<nat>) returns (total: nat)
    ensures total == Product(sizes)
  {
    total := 1;
    assert sizes[0..] == sizes;
    for p := 0 to |sizes|
      invariant total * Product(sizes[p..]) == Product(sizes)
    {
      assert sizes[p..][1..] == sizes[p + 1..];
      assert total * (sizes[p] * Product(sizes[p + 1..])) == (total * sizes[p]) * Product(sizes[p + 1..]);
      total := total * sizes[p];
    }
  }

  method PickInPlace(arglists: seq<seq<int>>, indices: array<nat>) returns (tuple: seq<int>)
    requires indices.Length == |arglists| && forall p :: 0 <= p < |arglists| ==> indices[p] < |arglists[p]|
    ensures tuple == Pick(arglists, indices[..])
  {
    tuple := [];
    for arg := 0 to |arglists|
      invariant tuple == Pick(arglists, indices[..])[..arg]
    {
      tuple := tuple + [arglists[arg][indices[arg]]];
    }
  }

  lemma DigitsStep(sizes: seq<nat>, i: nat)
    requires sizes != [] && forall p :: 0 <= p < |sizes| ==> sizes[p] > 0
    ensures Digits(sizes, i)[0] == i % sizes[0] && Digits(sizes, i)[1..] == Digits(sizes[1..], i / sizes[0])
  {
  }

  lemma CarryStep(sizes: seq<nat>, i: nat)
    requires sizes != [] && forall p :: 0 <= p < |sizes| ==> sizes[p] > 0
    ensures Digits(sizes, i + 1)[0] == (Digits(sizes, i)[0] + 1) % sizes[0]
    ensures Digits(sizes, i)[1..] == Digits(sizes[1..], i / sizes[0])
    ensures Digits(sizes, i + 1)[1..] ==
      Digits(sizes[1..], if Digits(sizes, i + 1)[0] == 0 then i / sizes[0] + 1 else i / sizes[0])
  {
    hide Digits;
    NextDigit(sizes[0], i);
    DigitsStep(sizes, i);
    DigitsStep(sizes, i + 1);
  }

  /** The carry loop. */
  method Advance(sizes: seq<nat>, indices: array<nat>, i: nat)
    requires sizes != [] && indices.Length == |sizes| && forall p :: 0 <= p < |sizes| ==> sizes[p] > 0
    requires indices[..] == Digits(sizes, i)
    modifies indices
    ensures indices[..] == Digits(sizes, i + 1)
  {
    hide Digits;
    var arg, more := 0, true;
    ghost var rest := i;  // what the digits from arg on stand for
    ghost var target := Digits(sizes, i + 1);
    assert indices[0..] == indices[..] && sizes[0..] == sizes;
    while more
      invariant 0 <= arg <= |sizes| && (more ==> arg < |sizes|)
      invariant indices[..arg] == target[..arg]
      invariant more ==> indices[arg..] == Digits(sizes[arg..], rest) && target[arg..] == Digits(sizes[arg..], rest + 1)
      invariant !more ==> indices[arg..] == target[arg..]
      decreases |sizes| - arg, more
    {
      ghost var tail := sizes[arg..];
      CarryStep(tail, rest);
      assert tail[1..] == sizes[arg + 1..];
      assert indices[arg..][1..] == indices[arg + 1..];
      assert target[arg..][0] == target[arg] && target[arg..][1..] == target[arg + 1..];
      indices[arg] := (indices[arg] + 1) % sizes[arg];
      rest := rest / sizes[arg];
      more := indices[arg] == 0 && arg + 1 < |sizes|;
      arg := arg + 1;
    }
  }
}
