/** The expansion of a docopt usage pattern into one Either of leaf-only cases, by a worklist. */
module Transform {

  /** A leaf is known by its printed form, which is what pattern equality compares. */
  type Name = string

  datatype Pattern =
    | Leaf(name: Name)
    | Required(children: seq<Pattern>)
    | Optional(children: seq<Pattern>)
    | OptionsShortcut(children: seq<Pattern>)
    | Either(children: seq<Pattern>)
    | OneOrMore(children: seq<Pattern>)

  type Case = multiset<Name>

  // ----- reference: the disjunctive expansion, by recursion on the pattern

  /** Every case of a joined with every case of b. */
  ghost function Join(a: seq<Case>, b: seq<Case>): seq<Case> {
    if a == [] then [] else AddTo(a[0], b) + Join(a[1..], b)
  }

  ghost function AddTo(m: Case, b: seq<Case>): (r: seq<Case>)
    ensures |r| == |b| && forall i :: 0 <= i < |b| ==> r[i] == m + b[i]
  {
    seq(|b|, i requires 0 <= i < |b| => m + b[i])
  }

  /** The cases of one pattern: optional parts count as required, repeated ones as given twice. */
  ghost function Cases(p: Pattern): seq<Case>
    decreases p, 0
  {
    match p
    case Leaf(name) => [multiset{name}]
    case Either(cs) => AnyOf(cs)
    case OneOrMore(cs) => Join(AllOf(cs), AllOf(cs))
    case _ => AllOf(p.children)
  }

  ghost function AllOf(ps: seq<Pattern>): seq<Case>
    decreases ps, 1
  {
    if ps == [] then [multiset{}] else Join(Cases(ps[0]), AllOf(ps[1..]))
  }

  ghost function AnyOf(ps: seq<Pattern>): seq<Case>
    decreases ps, 1
  {
    if ps == [] then [] else Cases(ps[0]) + AnyOf(ps[1..])
  }

  // ----- the algebra of Join

  lemma AddToTwice(m: Case, n: Case, b: seq<Case>)
    ensures AddTo(m, AddTo(n, b)) == AddTo(m + n, b) == AddTo(n, AddTo(m, b))
  {
    forall i | 0 <= i < |b|
      ensures m + (n + b[i]) == (m + n) + b[i] == n + (m + b[i])
    {
    }
  }

  lemma AddToNothing(b: seq<Case>)
    ensures AddTo(multiset{}, b) == b
  {
    forall i | 0 <= i < |b|
      ensures multiset{} + b[i] == b[i]
    {
    }
  }

  lemma JoinOne(m: Case, b: seq<Case>)
    ensures Join([m], b) == AddTo(m, b)
  {
    assert [m][1..] == [];
  }

  lemma AddToJoin(m: Case, a: seq<Case>, b: seq<Case>)
    ensures AddTo(m, Join(a, b)) == Join(AddTo(m, a), b)
    decreases |a|
  {
    if a != [] {
      AddToJoin(m, a[1..], b);
      assert AddTo(m, a)[1..] == AddTo(m, a[1..]);
      AddToTwice(m, a[0], b);
      assert AddTo(m, AddTo(a[0], b) + Join(a[1..], b)) == AddTo(m, AddTo(a[0], b)) + AddTo(m, Join(a[1..], b));
    }
  }

  /** A fixed part may join on either side. */
  lemma {:induction false} JoinAddTo(m: Case, a: seq<Case>, b: seq<Case>)
    ensures Join(a, AddTo(m, b)) == AddTo(m, Join(a, b))
    decreases |a|
  {
    if a == [] {
      assert AddTo(m, []) == [];
    } else {
      JoinAddTo(m, a[1..], b);
      AddToTwice(m, a[0], b);
      assert AddTo(m, AddTo(a[0], b) + Join(a[1..], b)) == AddTo(m, AddTo(a[0], b)) + AddTo(m, Join(a[1..], b));
    }
  }

  lemma {:induction false} JoinSplit(a: seq<Case>, c: seq<Case>, b: seq<Case>)
    ensures Join(a + c, b) == Join(a, b) + Join(c, b)
    decreases |a|
  {
    if a == [] {
      assert a + c == c;
    } else {
      JoinSplit(a[1..], c, b);
      assert (a + c)[1..] == a[1..] + c;
    }
  }

  lemma {:induction false} JoinAssoc(a: seq<Case>, b: seq<Case>, c: seq<Case>)
    ensures Join(Join(a, b), c) == Join(a, Join(b, c))
    decreases |a|
  {
    if a != [] {
      JoinAssoc(a[1..], b, c);
      JoinSplit(AddTo(a[0], b), Join(a[1..], b), c);
      AddToJoin(a[0], b, c);
    }
  }

  lemma JoinUnit(b: seq<Case>)
    ensures Join([multiset{}], b) == b
  {
    AddToNothing(b);
    JoinOne(multiset{}, b);
  }

  lemma {:induction false} AllOfAppend(xs: seq<Pattern>, ys: seq<Pattern>)
    ensures AllOf(xs + ys) == Join(AllOf(xs), AllOf(ys))
    decreases |xs|
  {
    if xs == [] {
      assert xs + ys == ys;
      JoinUnit(AllOf(ys));
    } else {
      AllOfAppend(xs[1..], ys);
      assert (xs + ys)[1..] == xs[1..] + ys;
      JoinAssoc(Cases(xs[0]), AllOf(xs[1..]), AllOf(ys));
    }
  }

  lemma AllOfCons(p: Pattern, ps: seq<Pattern>)
    ensures AllOf([p] + ps) == Join(Cases(p), AllOf(ps))
  {
    assert ([p] + ps)[1..] == ps;
  }

  // ----- groups of the worklist

  predicate IsBranch(p: Pattern) {
    !p.Leaf?
  }

  predicate Leaves(ps: seq<Pattern>) {
    forall i :: 0 <= i < |ps| ==> ps[i].Leaf?
  }

  ghost function Names(ps: seq<Pattern>): Case
    requires Leaves(ps)
  {
    if ps == [] then multiset{} else multiset{ps[0].name} + Names(ps[1..])
  }

  /** Leaves in front are a fixed part of every case. */
  lemma {:induction false} LeavesInFront(pre: seq<Pattern>, ps: seq<Pattern>)
    requires Leaves(pre)
    ensures AllOf(pre + ps) == AddTo(Names(pre), AllOf(ps))
    decreases |pre|
  {
    hide Join, AddTo, AllOf;
    if pre == [] {
      assert pre + ps == ps;
      AddToNothing(AllOf(ps));
    } else {
      LeavesInFront(pre[1..], ps);
      assert pre + ps == [pre[0]] + (pre[1..] + ps);
      AllOfCons(pre[0], pre[1..] + ps);
      JoinOne(multiset{pre[0].name}, AllOf(pre[1..] + ps));
      AddToTwice(multiset{pre[0].name}, Names(pre[1..]), AllOf(ps));
    }
  }

  lemma LeafGroup(ps: seq<Pattern>)
    requires Leaves(ps)
    ensures AllOf(ps) == [Names(ps)]
  {
    assert ps + [] == ps;
    LeavesInFront(ps, []);
    assert AddTo(Names(ps), AllOf([])) == [Names(ps) + multiset{}];
  }

  /** Taking the first branch out of a group and putting what it stands for in front of the others
      does not change the cases, nor their order. */
  lemma MoveToFront(pre: seq<Pattern>, b: Pattern, post: seq<Pattern>, put: seq<Pattern>)
    requires Leaves(pre) && Cases(b) == AllOf(put)
    ensures AllOf(put + (pre + post)) == AllOf(pre + [b] + post)
  {
    AllOfAppend(put, pre + post);
    LeavesInFront(pre, post);
    JoinAddTo(Names(pre), AllOf(put), AllOf(post));
    assert pre + [b] + post == pre + ([b] + post);
    LeavesInFront(pre, [b] + post);
    AllOfCons(b, post);
  }

  /** The groups that one group is replaced by. */
  ghost function Successors(cs: seq<Pattern>, rest: seq<Pattern>): seq<seq<Pattern>> {
    if cs == [] then [] else [[cs[0]] + rest] + Successors(cs[1..], rest)
  }

  /** All cases of all groups. */
  ghost function Total(gs: seq<seq<Pattern>>): multiset<Case> {
    if gs == [] then multiset{} else CasesOf(gs[0]) + Total(gs[1..])
  }

  ghost function CasesOf(g: seq<Pattern>): multiset<Case> {
    multiset(AllOf(g))
  }

  lemma {:induction false} TotalAppend(a: seq<seq<Pattern>>, b: seq<seq<Pattern>>)
    ensures Total(a + b) == Total(a) + Total(b)
  {
    hide CasesOf;
    if a == [] {
      assert a + b == b;
      AddNothing(Total(b));
    } else {
      TotalAppend(a[1..], b);
      assert (a + b)[1..] == a[1..] + b;
      SumAssoc(CasesOf(a[0]), Total(a[1..]), Total(b));
    }
  }

  lemma AddNothing<T>(x: multiset<T>)
    ensures multiset{} + x == x
  {
  }

  lemma SumAssoc<T>(x: multiset<T>, y: multiset<T>, z: multiset<T>)
    ensures x + (y + z) == (x + y) + z
  {
  }

  lemma {:induction false} SplitEither(cs: seq<Pattern>, pre: seq<Pattern>, post: seq<Pattern>)
    requires Leaves(pre)
    ensures Total(Successors(cs, pre + post)) == multiset(AddTo(Names(pre), Join(AnyOf(cs), AllOf(post))))
    decreases |cs|
  {
    hide AllOf, Cases;
    if cs == [] {
      assert AddTo(Names(pre), []) == [];
    } else {
      SplitEither(cs[1..], pre, post);
      hide Join, AddTo;
      JoinSplit(Cases(cs[0]), AnyOf(cs[1..]), AllOf(post));
      AddToSplit(Names(pre), Join(Cases(cs[0]), AllOf(post)), Join(AnyOf(cs[1..]), AllOf(post)));
      MoveOne(pre, cs[0], post);
    }
  }

  lemma EitherInPlace(cs: seq<Pattern>, pre: seq<Pattern>, post: seq<Pattern>)
    requires Leaves(pre)
    ensures Total(Successors(cs, pre + post)) == multiset(AllOf(pre + [Either(cs)] + post))
  {
    hide Join, AddTo, AllOf, Total;
    SplitEither(cs, pre, post);
    assert pre + [Either(cs)] + post == pre + ([Either(cs)] + post);
    LeavesInFront(pre, [Either(cs)] + post);
    AllOfCons(Either(cs), post);
  }

  lemma AddToSplit(m: Case, a: seq<Case>, b: seq<Case>)
    ensures AddTo(m, a + b) == AddTo(m, a) + AddTo(m, b)
  {
  }

  lemma MoveOne(pre: seq<Pattern>, c: Pattern, post: seq<Pattern>)
    requires Leaves(pre)
    ensures AllOf([c] + (pre + post)) == AddTo(Names(pre), Join(Cases(c), AllOf(post)))
  {
    AllOfCons(c, pre + post);
    LeavesInFront(pre, post);
    JoinAddTo(Names(pre), Cases(c), AllOf(post));
  }

  // ----- termination: a weight for every group, more than that of all its successors

  ghost function Weight(p: Pattern): (w: nat)
    ensures w >= 1
    decreases p, 0
  {
    match p
    case Leaf(_) => 1
    case Either(cs) => 1 + WeightSum(cs)
    case OneOrMore(cs) => 1 + WeightProduct(cs) * WeightProduct(cs)
    case _ => 1 + WeightProduct(p.children)
  }

  ghost function WeightSum(ps: seq<Pattern>): nat
    decreases ps, 1
  {
    if ps == [] then 0 else Weight(ps[0]) + WeightSum(ps[1..])
  }

  ghost function WeightProduct(ps: seq<Pattern>): (w: nat)
    ensures w >= 1
    decreases ps, 1
  {
    if ps == [] then 1 else Weight(ps[0]) * WeightProduct(ps[1..])
  }

  ghost function Remaining(gs: seq<seq<Pattern>>): nat {
    if gs == [] then 0 else WeightProduct(gs[0]) + Remaining(gs[1..])
  }

  lemma Regroup(x: nat, y: nat, z: nat)
    ensures x * (y * z) == (x * y) * z == y * (x * z)
  {
  }

  lemma {:induction false} WeightAppend(xs: seq<Pattern>, ys: seq<Pattern>)
    ensures WeightProduct(xs + ys) == WeightProduct(xs) * WeightProduct(ys)
  {
    hide Weight;
    if xs == [] {
      assert xs + ys == ys;
    } else {
      WeightAppend(xs[1..], ys);
      assert (xs + ys)[1..] == xs[1..] + ys;
      Regroup(Weight(xs[0]), WeightProduct(xs[1..]), WeightProduct(ys));
    }
  }

  lemma {:induction false} RemainingAppend(a: seq<seq<Pattern>>, b: seq<seq<Pattern>>)
    ensures Remaining(a + b) == Remaining(a) + Remaining(b)
  {
    if a == [] {
      assert a + b == b;
    } else {
      RemainingAppend(a[1..], b);
      assert (a + b)[1..] == a[1..] + b;
    }
  }

  lemma {:induction false} SuccessorsWeight(cs: seq<Pattern>, rest: seq<Pattern>)
    ensures Remaining(Successors(cs, rest)) == WeightSum(cs) * WeightProduct(rest)
  {
    if cs == [] {
    } else {
      SuccessorsWeight(cs[1..], rest);
      assert ([cs[0]] + rest)[1..] == rest;
      assert (Weight(cs[0]) + WeightSum(cs[1..])) * WeightProduct(rest)
          == Weight(cs[0]) * WeightProduct(rest) + WeightSum(cs[1..]) * WeightProduct(rest);
    }
  }

  lemma MiddleWeight(pre: seq<Pattern>, b: Pattern, post: seq<Pattern>)
    ensures WeightProduct(pre + [b] + post) == Weight(b) * WeightProduct(pre + post)
  {
    WeightAppend(pre + [b], post);
    WeightAppend(pre, [b]);
    WeightAppend(pre, post);
    WeightOne(b);
    hide WeightProduct, Weight;
    Regroup(WeightProduct(pre), Weight(b), WeightProduct(post));
  }

  lemma WeightOne(b: Pattern)
    ensures WeightProduct([b]) == Weight(b)
  {
    hide Weight;
    assert [b][1..] == [];
  }

  // ----- the worklist

  /** children.remove(child): drops the first element that equals child. */
  method RemoveFirst(children: seq<Pattern>, child: Pattern) returns (r: seq<Pattern>, ghost at: nat)
    requires child in children
    ensures at < |children| && children[at] == child && forall k :: 0 <= k < at ==> children[k] != child
    ensures r == children[..at] + children[at + 1..]
  {
    var i := 0;
    while children[i] != child
      invariant 0 <= i < |children| && forall k :: 0 <= k < i ==> children[k] != child
      invariant child in children[i..]
      decreases |children| - i
    {
      assert children[i..] == [children[i]] + children[i + 1..];
      i := i + 1;
    }
    at := i;
    r := children[..i] + children[i + 1..];
  }

  /** The first child that is a branch, if there is one. */
  method FirstBranch(children: seq<Pattern>) returns (found: bool, i: nat)
    ensures found ==> i < |children| && IsBranch(children[i]) && Leaves(children[..i])
    ensures !found ==> Leaves(children)
  {
    i := 0;
    while i < |children|
      invariant i <= |children| && Leaves(children[..i])
    {
      if IsBranch(children[i]) {
        return true, i;
      }
      i := i + 1;
    }
    found := false;
    assert children[..i] == children;
  }

  /** What one group is replaced by: the loop body behind the test for leaves. */
  method Expand(children: seq<Pattern>, i: nat) returns (next: seq<seq<Pattern>>)
    requires i < |children| && IsBranch(children[i]) && Leaves(children[..i])
    ensures Total(next) == multiset(AllOf(children))
    ensures Remaining(next) < WeightProduct(children)
  {
    hide AllOf, AnyOf, Total, Remaining, WeightProduct, WeightSum, Join, AddTo;
    var child := children[i];
    ghost var at;
    var rest;
    rest, at := RemoveFirst(children, child);
    ghost var pre, post := children[..i], children[i + 1..];
    assert forall k :: 0 <= k < i ==> children[k] == children[..i][k] && !IsBranch(children[k]);
    assert at == i;
    assert children == pre + [child] + post && rest == pre + post;
    MiddleWeight(pre, child, post);
    if child.Either? {
      next := EachChild(child.children, rest);
      EitherInPlace(child.children, pre, post);
      SuccessorsWeight(child.children, rest);
      Heavier(WeightSum(child.children), WeightProduct(rest));
    } else if child.OneOrMore? {
      next := [child.children + child.children + rest];
      AllOfAppend(child.children, child.children);
      MoveToFront(pre, child, post, child.children + child.children);
      One(child.children + child.children + rest);
      WeightAppend(child.children + child.children, rest);
      WeightAppend(child.children, child.children);
      Heavier(WeightProduct(child.children + child.children), WeightProduct(rest));
    } else {
      next := [child.children + rest];
      MoveToFront(pre, child, post, child.children);
      One(child.children + rest);
      WeightAppend(child.children, rest);
      Heavier(WeightProduct(child.children), WeightProduct(rest));
    }
  }

  lemma One(g: seq<Pattern>)
    ensures Total([g]) == multiset(AllOf(g)) && Remaining([g]) == WeightProduct(g)
  {
    assert [g][1..] == [];
  }

  lemma Heavier(w: nat, rest: nat)
    requires rest >= 1
    ensures w * rest < (1 + w) * rest
  {
    assert (1 + w) * rest == rest + w * rest;
  }

  method EachChild(cs: seq<Pattern>, rest: seq<Pattern>) returns (next: seq<seq<Pattern>>)
    ensures next == Successors(cs, rest)
  {
    next := [];
    assert cs[0..] == cs;
    for k := 0 to |cs|
      invariant next + Successors(cs[k..], rest) == Successors(cs, rest)
    {
      assert cs[k..][1..] == cs[k + 1..];
      next := next + [[cs[k]] + rest];
    }
    assert next + [] == next;
  }

  /** transform: the result is an Either of Requireds that hold only leaves, and their leaves, case
      by case, are the cases of the pattern, each as often as the recursive expansion gives it. */
  method Transform(pattern: Pattern) returns (r: Pattern)
    ensures r.Either?
    ensures forall i :: 0 <= i < |r.children| ==> r.children[i].Required? && Leaves(r.children[i].children)
    ensures multiset(LeafCases(r.children)) == multiset(Cases(pattern))
  {
    hide AllOf, Join, AddTo, Names, Total, Remaining, WeightProduct, Cases;
    var result: seq<seq<Pattern>>, groups := [], [[pattern]];
    Whole(pattern);
    while groups != []
      invariant forall i :: 0 <= i < |result| ==> Leaves(result[i])
      invariant Total(result) + Total(groups) == multiset(Cases(pattern))
      decreases Remaining(groups)
    {
      var children := groups[0];
      assert groups == [children] + groups[1..];
      TotalAppend([children], groups[1..]);
      RemainingAppend([children], groups[1..]);
      One(children);
      groups := groups[1..];
      var found, i := FirstBranch(children);
      if found {
        var next := Expand(children, i);
        TotalAppend(groups, next);
        RemainingAppend(groups, next);
        groups := groups + next;
      } else {
        TotalAppend(result, [children]);
        result := result + [children];
      }
    }
    NothingLeft();
    r := Either(seq(|result|, i requires 0 <= i < |result| => Required(result[i])));
    ResultCases(result, r.children);
  }

  lemma Whole(p: Pattern)
    ensures Total([[p]]) == multiset(Cases(p)) && Total([]) == multiset{}
  {
    One([p]);
    assert [p][1..] == [];
    JoinRightUnit(Cases(p));
  }

  lemma NothingLeft()
    ensures Total([]) == multiset{}
  {
  }

  lemma {:induction false} JoinRightUnit(a: seq<Case>)
    ensures Join(a, [multiset{}]) == a
  {
    if a != [] {
      JoinRightUnit(a[1..]);
      assert a[0] + multiset{} == a[0];
      assert AddTo(a[0], [multiset{}]) == [a[0]];
    }
  }

  /** The leaves of every Required, as multisets. */
  ghost function LeafCases(rs: seq<Pattern>): seq<Case>
    requires forall i :: 0 <= i < |rs| ==> rs[i].Required? && Leaves(rs[i].children)
  {
    if rs == [] then [] else [Names(rs[0].children)] + LeafCases(rs[1..])
  }

  lemma {:induction false} ResultCases(result: seq<seq<Pattern>>, rs: seq<Pattern>)
    requires |rs| == |result| && forall i :: 0 <= i < |rs| ==> Leaves(result[i]) && rs[i] == Required(result[i])
    ensures multiset(LeafCases(rs)) == Total(result)
    decreases |rs|
  {
    if rs == [] {
    } else {
      LeafGroup(result[0]);
      ResultCases(result[1..], rs[1..]);
    }
  }

  // ----- small patterns

  lemma OneLeaf(x: Name)
    ensures Cases(Leaf(x)) == AllOf([Leaf(x)]) == AnyOf([Leaf(x)]) == [multiset{x}]
  {
    assert [Leaf(x)][1..] == [];
    JoinRightUnit([multiset{x}]);
  }

  lemma JoinLeaves(x: Name, y: Name)
    ensures Join([multiset{x}], [multiset{y}]) == [multiset{x, y}]
  {
    JoinOne(multiset{x}, [multiset{y}]);
    var both: Case := multiset{x} + multiset{y};
    assert both == multiset{x, y};
    assert AddTo(multiset{x}, [multiset{y}])[0] == both;
  }

  lemma TwoLeaves(x: Name, y: Name)
    ensures Cases(Either([Leaf(x), Leaf(y)])) == [multiset{x}, multiset{y}]
  {
    OneLeaf(x);
    OneLeaf(y);
    hide Join;
    assert [Leaf(x), Leaf(y)][1..] == [Leaf(y)];
  }

  /** A repeated leaf counts twice, an optional one counts, and one of two alternatives is a case each. */
  lemma Samples(x: Name, y: Name)
    ensures Cases(OneOrMore([Leaf(x)])) == [multiset{x, x}]
    ensures Cases(Optional([Leaf(x)])) == Cases(OptionsShortcut([Leaf(x)])) == [multiset{x}]
    ensures Cases(Either([Leaf(x), Leaf(y)])) == [multiset{x}, multiset{y}]
    ensures Cases(Required([Leaf(x), Leaf(y)])) == [multiset{x, y}]
  {
    OneLeaf(x);
    OneLeaf(y);
    TwoLeaves(x, y);
    JoinLeaves(x, x);
    JoinLeaves(x, y);
    hide Join;
    assert [Leaf(x), Leaf(y)][1..] == [Leaf(y)];
  }

  /** The example of the source: ((-a | -b) (-c | -d)). */
  lemma FourCases(a: Name, b: Name, c: Name, d: Name)
    ensures Cases(Required([Either([Leaf(a), Leaf(b)]), Either([Leaf(c), Leaf(d)])])) ==
      [multiset{a, c}, multiset{a, d}, multiset{b, c}, multiset{b, d}]
  {
    var first, second := Either([Leaf(a), Leaf(b)]), Either([Leaf(c), Leaf(d)]);
    TwoLeaves(a, b);
    TwoLeaves(c, d);
    var p: seq<Case>, q: seq<Case> := [multiset{a}, multiset{b}], [multiset{c}, multiset{d}];
    JoinRightUnit(q);
    assert [first, second][1..] == [second] && [second][1..] == [];
    assert AllOf([second]) == Join(Cases(second), AllOf([second][1..]));
    assert AllOf([first, second]) == Join(Cases(first), AllOf([first, second][1..]));
    hide Join;
    assert AllOf([first, second]) == Join(p, q);
    TwoByTwo(a, b, c, d);
  }

  lemma TwoByTwo(a: Name, b: Name, c: Name, d: Name)
    ensures Join([multiset{a}, multiset{b}], [multiset{c}, multiset{d}]) ==
      [multiset{a, c}, multiset{a, d}, multiset{b, c}, multiset{b, d}]
  {
    var q: seq<Case> := [multiset{c}, multiset{d}];
    JoinSplit([multiset{a}], [multiset{b}], q);
    assert [multiset{a}] + [multiset{b}] == [multiset{a}, multiset{b}];
    JoinOne(multiset{a}, q);
    JoinOne(multiset{b}, q);
    AddToTwo(a, c, d);
    AddToTwo(b, c, d);
  }

  lemma AddToTwo(a: Name, c: Name, d: Name)
    ensures AddTo(multiset{a}, [multiset{c}, multiset{d}]) == [multiset{a, c}, multiset{a, d}]
  {
    var x: Case, y: Case := multiset{a} + multiset{c}, multiset{a} + multiset{d};
    assert x == multiset{a, c} && y == multiset{a, d};
    var r := AddTo(multiset{a}, [multiset{c}, multiset{d}]);
    assert r[0] == x && r[1] == y;
  }
}
