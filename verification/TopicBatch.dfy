/** How many removes a partition bears at a time. A remove reads the front of its partition twice,
    and the source does not ask first whether there is one. Between the two reads other removes may
    empty the partition. The module proves exactly which batches of removes are safe. */
module TopicBatch {
  import opened Words
  import opened Topic

  /** A remove of p that may still pop. */
  predicate MayPop(c: Call, p: nat) {
    && c.op.Remove? && c.op.p == p
    && !(c.pc.Applied? || c.pc.Refused? || c.pc.Leaving? || c.pc.Done?)
  }

  ghost function Takers(s: State, p: nat): set<nat> {
    set t | t in s.calls && MayPop(s.calls[t], p)
  }

  /** No call stands before the front of an empty partition p. */
  ghost predicate Defined(s: State, p: nat) {
    forall t :: t in s.calls && s.calls[t].op.p == p ==> !Undefined(s, t)
  }

  lemma TakersSuffice(s: State, p: nat)
    requires p < |s.queues| && |Takers(s, p)| <= |s.queues[p]|
    ensures Defined(s, p)
  {
    forall t | t in s.calls && s.calls[t].op.p == p
      ensures !Undefined(s, t)
    {
      assert MayPop(s.calls[t], p) ==> t in Takers(s, p);
    }
  }

  // ----- one label changes the removes in flight by at most one

  predicate StartsRemove(l: Label, p: nat) {
    l.Start? && l.op.Remove? && l.op.p == p
  }

  function One(b: bool): nat {
    if b then 1 else 0
  }

  lemma TakersOfOne(s: State, r: State, t: nat, p: nat)
    requires r.calls.Keys == s.calls.Keys + {t} && forall u :: u in s.calls && u != t ==> r.calls[u] == s.calls[u]
    ensures MayPop(r.calls[t], p) ==> Takers(r, p) <= Takers(s, p) + {t}
    ensures !MayPop(r.calls[t], p) ==> Takers(r, p) <= Takers(s, p) - {t}
  {
    hide MayPop;
  }

  lemma TakersStart(s: State, t: nat, op: Op, p: nat)
    requires Can(s, Start(t, op)) && p < |s.queues|
    ensures |Takers(Do(s, Start(t, op)), p)| <= |Takers(s, p)| + One(op.Remove? && op.p == p)
  {
    var r := Do(s, Start(t, op));
    TakersOfOne(s, r, t, p);
    hide Takers;
    SubsetSize(Takers(r, p), if MayPop(r.calls[t], p) then Takers(s, p) + {t} else Takers(s, p) - {t});
  }

  lemma MayPopStep(s: State, t: nat, p: nat)
    requires Inv(s) && Enabled(s, t) && p < |s.queues|
    ensures MayPop(Step(s, t).calls[t], p) ==> MayPop(s.calls[t], p) && !s.calls[t].pc.Logged?
    ensures MayPop(s.calls[t], p) ==> t in Takers(s, p)
    ensures MayPop(s.calls[t], p) && s.calls[t].pc.Logged? ==> s.queues[p] != []
    ensures s.calls[t].op.p == p && s.calls[t].pc.Logged? ==> MayPop(s.calls[t], p) || !s.calls[t].op.Remove?
  {
    hide Exclusive, Replays;
    if MayPop(s.calls[t], p) && s.calls[t].pc.Logged? {
      assert Matched(s.calls[t]);
    }
  }

  lemma TakersGo(s: State, t: nat, p: nat)
    requires Inv(s) && Enabled(s, t) && p < |s.queues|
    ensures |Takers(Step(s, t), p)| - |Step(s, t).queues[p]| <= |Takers(s, p)| - |s.queues[p]|
  {
    var c, r := s.calls[t], Step(s, t);
    StepQueue(s, t, p);
    StepCalls(s, t);
    MayPopStep(s, t, p);
    hide Inv, Step, Enabled, NextPc, MayPop;
    TakersOfOne(s, r, t, p);
    hide Takers;
    if MayPop(r.calls[t], p) {
      assert Takers(s, p) + {t} == Takers(s, p);
    }
    SubsetSize(Takers(r, p), if MayPop(r.calls[t], p) then Takers(s, p) else Takers(s, p) - {t});
  }

  /** The surplus of messages over removes in flight shrinks by the removes that start, if at all. */
  lemma TakersStep(s: State, l: Label, p: nat)
    requires Inv(s) && Can(s, l) && p < |s.queues|
    ensures |Do(s, l).queues| == |s.queues|
    ensures |Takers(Do(s, l), p)| - |Do(s, l).queues[p]| <= |Takers(s, p)| - |s.queues[p]| + One(StartsRemove(l, p))
  {
    hide Takers;
    match l
    case Start(t, op) => TakersStart(s, t, op, p);
    case Go(t) => TakersGo(s, t, p);
  }

  lemma {:induction false} SubsetSize<T>(a: set<T>, b: set<T>)
    requires a <= b
    ensures |a| <= |b|
  {
    if a == {} {
    } else {
      var x :| x in a;
      SubsetSize(a - {x}, b - {x});
    }
  }

  // ----- as many removes as messages are safe

  function RemovesStarted(ls: seq<Label>, p: nat): nat {
    if ls == [] then 0 else RemovesStarted(ls[..|ls| - 1], p) + One(StartsRemove(ls[|ls| - 1], p))
  }

  /** No call of partition p is in flight. */
  ghost predicate Idle(s: State, p: nat) {
    forall t :: t in s.calls && s.calls[t].op.p == p ==> s.calls[t].pc.Done?
  }

  lemma {:induction false} BatchSurplus(n: nat, ls: seq<Label>, ext: seq<Label>, p: nat)
    requires Legal(n, ls) && Legal(n, ls + ext) && p < n && Idle(Exec(n, ls), p)
    ensures |Exec(n, ls).queues| == |Exec(n, ls + ext).queues| == n
    ensures var s := Exec(n, ls + ext);
            |Takers(s, p)| - |s.queues[p]| <= RemovesStarted(ext, p) - |Exec(n, ls).queues[p]|
    decreases |ext|
  {
    Invariant(n, ls);
    if ext == [] {
      assert ls + ext == ls && Takers(Exec(n, ls), p) == {};
    } else {
      var before := ls + ext[..|ext| - 1];
      assert (ls + ext)[..|ls + ext| - 1] == before && (ls + ext)[|ls + ext| - 1] == ext[|ext| - 1];
      BatchSurplus(n, ls, ext[..|ext| - 1], p);
      Invariant(n, before);
      TakersStep(Exec(n, before), ext[|ext| - 1], p);
    }
  }

  /** However the calls interleave, k more removes of p never meet an empty front; pushes, reads and
      the calls of other partitions may come and go. */
  ghost predicate Bears(n: nat, ls: seq<Label>, p: nat, k: nat) {
    forall ext | Legal(n, ls + ext) && RemovesStarted(ext, p) <= k :: Defined(Exec(n, ls + ext), p)
  }

  lemma EnoughMessages(n: nat, ls: seq<Label>, p: nat, k: nat)
    requires Legal(n, ls) && p < n == |Exec(n, ls).queues| && Idle(Exec(n, ls), p) && k <= |Exec(n, ls).queues[p]|
    ensures Bears(n, ls, p, k)
  {
    forall ext | Legal(n, ls + ext) && RemovesStarted(ext, p) <= k
      ensures Defined(Exec(n, ls + ext), p)
    {
      BatchSurplus(n, ls, ext, p);
      TakersSuffice(Exec(n, ls + ext), p);
    }
  }

  // ----- one remove more is not

  lemma GoOn(n: nat, ls: seq<Label>, l: Label) returns (more: seq<Label>)
    requires Legal(n, ls) && Can(Exec(n, ls), l)
    ensures more == ls + [l] && Legal(n, more) && Exec(n, more) == Do(Exec(n, ls), l)
    ensures forall p :: RemovesStarted(more, p) == RemovesStarted(ls, p) + One(StartsRemove(l, p))
  {
    more := ls + [l];
    assert more[..|more| - 1] == ls;
  }

  /** Nobody holds a lock of p, and nobody the log. */
  ghost predicate Calm(s: State, p: nat) {
    forall t :: t in s.calls ==> CalmCall(s.calls[t], p)
  }

  predicate CalmCall(c: Call, p: nat) {
    !HoldsLog(c) && (c.op.p == p ==> !HoldsRead(c) && !HoldsWrite(c))
  }

  /** Nobody but t does. */
  ghost predicate CalmBut(s: State, p: nat, t: nat) {
    forall u :: u in s.calls && u != t ==> CalmCall(s.calls[u], p)
  }

  /** Then nothing keeps t from its next step, and that stays so. */
  lemma CalmStep(s: State, t: nat)
    requires t in s.calls && !s.calls[t].pc.Done? && s.calls[t].op.p < |s.queues| && !Undefined(s, t)
    requires CalmBut(s, s.calls[t].op.p, t)
    requires s.calls[t].pc.WantRead? || s.calls[t].pc.WantWrite? || s.calls[t].pc.WantLog? ==> !HoldsLog(s.calls[t])
    ensures Enabled(s, t) && CalmBut(Step(s, t), s.calls[t].op.p, t)
  {
    if s.calls[t].pc.WantRead? || s.calls[t].pc.WantWrite? || s.calls[t].pc.WantLog? {
      forall u | u in s.calls
        ensures !HoldsLog(s.calls[u])
        ensures s.calls[u].op.p == s.calls[t].op.p && !s.calls[t].pc.WantLog? ==>
                  !HoldsRead(s.calls[u]) && !HoldsWrite(s.calls[u])
      {
      }
    }
  }

  /** The calls of p that are in flight in r, but for t, were so in s and have not moved. */
  ghost predicate OnlyMoved(s: State, r: State, t: nat) {
    && r.calls.Keys == s.calls.Keys + {t}
    && forall u :: u in s.calls && u != t ==> r.calls[u] == s.calls[u]
  }

  /** Call t, alone since state s, has taken its write lock or is about to, and has got to r. */
  ghost predicate Underway(s: State, r: State, t: nat) {
    && t in s.calls && OnlyMoved(s, r, t) && r.calls[t].op == s.calls[t].op && !r.calls[t].op.Read?
    && r.calls[t].op.p < |s.queues| == |r.queues|
    && (r.calls[t].op.Remove? ==> s.queues[r.calls[t].op.p] != [] && s.queues[r.calls[t].op.p][0] == r.calls[t].op.m)
    && (r.calls[t].pc.Done? || (HoldsWrite(r.calls[t]) && !r.calls[t].pc.Refused?) || r.calls[t].pc.WantWrite?)
    && r.queues == if r.calls[t].pc.Applied? || r.calls[t].pc.Done?
                   then s.queues[s.calls[t].op.p := Apply(s.calls[t].op, s.queues[s.calls[t].op.p])] else s.queues
  }

  lemma UnderwayStep(s: State, r: State, t: nat)
    requires Underway(s, r, t) && Enabled(r, t)
    ensures Underway(s, Step(r, t), t) && Rank(Step(r, t).calls[t].pc) < Rank(r.calls[t].pc)
  {
    hide Apply;
    StepCalls(r, t);
  }

  lemma UnderwayFacts(s: State, r: State, t: nat)
    requires Underway(s, r, t)
    ensures t in r.calls && r.calls[t].op.p == s.calls[t].op.p < |r.queues| && !Undefined(r, t)
    ensures r.calls[t].pc.WantRead? || r.calls[t].pc.WantWrite? || r.calls[t].pc.WantLog? ==> !HoldsLog(r.calls[t])
  {
  }

  /** From the write lock on, a call that nobody stands in the way of runs to its end. */
  lemma SoloWrite(n: nat, ls: seq<Label>, t: nat) returns (more: seq<Label>)
    requires Legal(n, ls) && t in Exec(n, ls).calls
    requires Exec(n, ls).calls[t].pc.WantWrite? && Underway(Exec(n, ls), Exec(n, ls), t)
    requires CalmBut(Exec(n, ls), Exec(n, ls).calls[t].op.p, t)
    ensures ls <= more && Legal(n, more) && (forall p :: RemovesStarted(more, p) == RemovesStarted(ls, p))
    ensures Underway(Exec(n, ls), Exec(n, more), t) && Exec(n, more).calls[t].pc.Done?
  {
    hide Step, Enabled, Apply, CalmBut, Rank, Underway, Undefined;
    ghost var s := Exec(n, ls);
    more := ls;
    UnderwayFacts(s, s, t);
    while !Exec(n, more).calls[t].pc.Done?
      invariant ls <= more && Legal(n, more) && forall p :: RemovesStarted(more, p) == RemovesStarted(ls, p)
      invariant Underway(s, Exec(n, more), t) && t in Exec(n, more).calls && CalmBut(Exec(n, more), s.calls[t].op.p, t)
      decreases Rank(Exec(n, more).calls[t].pc)
    {
      var r := Exec(n, more);
      UnderwayFacts(s, r, t);
      CalmStep(r, t);
      UnderwayStep(s, r, t);
      more := GoOn(n, more, Go(t));
      UnderwayFacts(s, Exec(n, more), t);
    }
  }

  /** A remove of the front message that nobody stands in the way of passes its first test. */
  lemma SoloTest(n: nat, ls: seq<Label>, p: nat, t: nat) returns (more: seq<Label>)
    requires Legal(n, ls) && p < |Exec(n, ls).queues| && t !in Exec(n, ls).calls
    requires Calm(Exec(n, ls), p) && Exec(n, ls).queues[p] != []
    ensures ls <= more && Legal(n, more) && Exec(n, more).queues == Exec(n, ls).queues
    ensures RemovesStarted(more, p) == RemovesStarted(ls, p) + 1
    ensures Exec(n, more).calls == Exec(n, ls).calls[t := Call(Remove(p, Exec(n, ls).queues[p][0]), WantWrite)]
  {
    var op := Remove(p, Exec(n, ls).queues[p][0]);
    more := GoOn(n, ls, Start(t, op));
    CalmStart(Exec(n, ls), Exec(n, more), p, t);
    ghost var q := Exec(n, ls).queues[p];
    FirstTest(op, q);
    hide Calm, CalmBut, Step, Enabled, NextPc, Exec, Legal, RemovesStarted, Do;
    more := SoloGo(n, more, t, Call(op, WantRead), q);
    more := SoloGo(n, more, t, Call(op, Reading), q);
    more := SoloGo(n, more, t, Call(op, Passed), q);
    assert Exec(n, more).calls == Exec(n, ls).calls[t := Call(op, WantWrite)];
  }

  lemma FirstTest(op: Op, q: seq<Msg>)
    requires op.Remove? && q != [] && q[0] == op.m
    ensures NextPc(Call(op, WantRead), q) == Reading && NextPc(Call(op, Reading), q) == Passed
    ensures NextPc(Call(op, Passed), q) == WantWrite
  {
  }

  /** One step of a call c that nobody stands in the way of, other than its queue operation. */
  lemma SoloGo(n: nat, ls: seq<Label>, t: nat, c: Call, q: seq<Msg>) returns (more: seq<Label>)
    requires Legal(n, ls) && t in Exec(n, ls).calls && Exec(n, ls).calls[t] == c && CalmBut(Exec(n, ls), c.op.p, t)
    requires c.op.p < |Exec(n, ls).queues| && Exec(n, ls).queues[c.op.p] == q
    requires !c.pc.Done? && !c.pc.Logged? && (c.op.Remove? && (c.pc.Reading? || c.pc.Writing?) ==> q != [])
    ensures ls <= more && Legal(n, more) && forall p :: RemovesStarted(more, p) == RemovesStarted(ls, p)
    ensures CalmBut(Exec(n, more), c.op.p, t) && Exec(n, more).queues == Exec(n, ls).queues
    ensures Exec(n, more).calls == Exec(n, ls).calls[t := c.(pc := NextPc(c, q))]
  {
    CalmStep(Exec(n, ls), t);
    hide CalmBut, Enabled;
    more := GoOn(n, ls, Go(t));
  }

  lemma CalmStart(s: State, r: State, p: nat, t: nat)
    requires Calm(s, p) && t !in s.calls && OnlyMoved(s, r, t)
    ensures CalmBut(r, p, t)
  {
  }

  /** It then pops, and leaves the partition as calm as it was. */
  lemma SoloRemove(n: nat, ls: seq<Label>, p: nat, t: nat) returns (more: seq<Label>)
    requires Legal(n, ls) && p < |Exec(n, ls).queues| && t !in Exec(n, ls).calls
    requires Calm(Exec(n, ls), p) && Exec(n, ls).queues[p] != []
    ensures ls <= more && Legal(n, more) && RemovesStarted(more, p) == RemovesStarted(ls, p) + 1
    ensures OnlyMoved(Exec(n, ls), Exec(n, more), t) && Calm(Exec(n, more), p)
    ensures Exec(n, more).queues == Exec(n, ls).queues[p := Exec(n, ls).queues[p][1..]]
  {
    hide Step, Enabled, Calm;
    var tested := SoloTest(n, ls, p, t);
    CalmStart(Exec(n, ls), Exec(n, tested), p, t);
    more := SoloWrite(n, tested, t);
    CalmDone(Exec(n, ls), Exec(n, more), p, t);
  }

  lemma CalmDone(s: State, r: State, p: nat, t: nat)
    requires Calm(s, p) && OnlyMoved(s, r, t) && r.calls[t].pc.Done?
    ensures Calm(r, p)
  {
  }

  /** The one call that may hold the log belongs to another partition; it lets go by itself. */
  lemma FreeLog(n: nat, ls: seq<Label>, p: nat) returns (more: seq<Label>)
    requires Legal(n, ls) && p < |Exec(n, ls).queues| && Idle(Exec(n, ls), p)
    ensures ls <= more && Legal(n, more) && RemovesStarted(more, p) == RemovesStarted(ls, p)
    ensures Exec(n, more).queues == Exec(n, ls).queues && Calm(Exec(n, more), p)
  {
    Invariant(n, ls);
    var s := Exec(n, ls);
    more := ls;
    if t :| t in s.calls && HoldsLog(s.calls[t]) {
      OthersFree(s, t, p);
      if s.calls[t].pc.HaveLog? {
        more := LogHolderGo(n, more, t);
      }
      more := LogHolderGo(n, more, t);
      LogFree(s, Exec(n, more), p, t);
    }
  }

  lemma LogHolderGo(n: nat, ls: seq<Label>, t: nat) returns (more: seq<Label>)
    requires Legal(n, ls) && t in Exec(n, ls).calls && HoldsLog(Exec(n, ls).calls[t])
    requires Exec(n, ls).calls[t].op.p < |Exec(n, ls).queues|
    ensures ls <= more && Legal(n, more) && (forall p :: RemovesStarted(more, p) == RemovesStarted(ls, p))
    ensures Exec(n, more).queues == Exec(n, ls).queues && OnlyMoved(Exec(n, ls), Exec(n, more), t)
    ensures Exec(n, more).calls[t].op == Exec(n, ls).calls[t].op
    ensures Exec(n, more).calls[t].pc == if Exec(n, ls).calls[t].pc.HaveLog? then Stored else Logged
  {
    more := GoOn(n, ls, Go(t));
  }

  lemma LogFree(s: State, r: State, p: nat, t: nat)
    requires CalmBut(s, p, t) && OnlyMoved(s, r, t) && CalmCall(r.calls[t], p)
    ensures Calm(r, p)
  {
  }

  lemma OthersFree(s: State, t: nat, p: nat)
    requires Exclusive(s) && Idle(s, p) && t in s.calls && HoldsLog(s.calls[t])
    ensures CalmBut(s, p, t)
  {
    forall u | u in s.calls && u != t
      ensures CalmCall(s.calls[u], p)
    {
      assert Apart(s.calls[t], s.calls[u]);
    }
  }

  /** Removes of the front message, one after another, until there is none. */
  lemma Drain(n: nat, ls: seq<Label>, p: nat, from: nat) returns (more: seq<Label>)
    requires Legal(n, ls) && p < |Exec(n, ls).queues| && Calm(Exec(n, ls), p)
    requires forall t :: t in Exec(n, ls).calls ==> t < from
    ensures ls <= more && Legal(n, more) && p < |Exec(n, more).queues|
    ensures RemovesStarted(more, p) == RemovesStarted(ls, p) + |Exec(n, ls).queues[p]|
    ensures Exec(n, more).queues[p] == [] && Calm(Exec(n, more), p)
    ensures forall t :: t in Exec(n, ls).calls ==>
                          t in Exec(n, more).calls && Exec(n, more).calls[t] == Exec(n, ls).calls[t]
    decreases |Exec(n, ls).queues[p]|
  {
    hide Calm;
    more := ls;
    if Exec(n, ls).queues[p] != [] {
      var first := SoloRemove(n, ls, p, from);
      more := Drain(n, first, p, from + 1);
    }
  }

  lemma {:induction false} Bound(a: set<nat>) returns (m: nat)
    ensures forall t :: t in a ==> t < m
  {
    if a == {} {
      m := 0;
    } else {
      var t :| t in a;
      m := Bound(a - {t});
      m := if t < m then m else t + 1;
      assert a == (a - {t}) + {t};
    }
  }

  /** With one remove more than messages: it starts first, the others empty the partition, and then it
      reads the front. */
  lemma OneTooMany(n: nat, ls: seq<Label>, p: nat) returns (more: seq<Label>)
    requires Legal(n, ls) && p < |Exec(n, ls).queues| && Idle(Exec(n, ls), p)
    ensures ls <= more && Legal(n, more) && !Defined(Exec(n, more), p)
    ensures RemovesStarted(more, p) == RemovesStarted(ls, p) + |Exec(n, ls).queues[p]| + 1
  {
    more := FreeLog(n, ls, p);
    var last := Bound(Exec(n, more).calls.Keys);
    var calm := Exec(n, more);
    more := GoOn(n, more, Start(last, Remove(p, [])));
    assert Calm(Exec(n, more), p);
    var started := more;
    more := Drain(n, more, p, last + 1);
    var s := Exec(n, more);
    assert last in Exec(n, started).calls && s.calls[last] == Call(Remove(p, []), WantRead);
    assert CalmBut(s, p, last);
    CalmStep(s, last);
    more := GoOn(n, more, Go(last));
    assert Undefined(Exec(n, more), last);
  }

  lemma {:induction false} StartedAppend(ls: seq<Label>, ext: seq<Label>, p: nat)
    ensures RemovesStarted(ls + ext, p) == RemovesStarted(ls, p) + RemovesStarted(ext, p)
    decreases |ext|
  {
    if ext == [] {
      assert ls + ext == ls;
    } else {
      var m := |ext| - 1;
      assert (ls + ext)[..|ls + ext| - 1] == ls + ext[..m] && (ls + ext)[|ls + ext| - 1] == ext[m];
      StartedAppend(ls, ext[..m], p);
    }
  }

  /** Main result: a partition with no call in flight bears a batch of k removes in every interleaving
      if and only if it holds at least k messages. */
  lemma BearsIff(n: nat, ls: seq<Label>, p: nat, k: nat)
    requires Legal(n, ls) && p < n && Idle(Exec(n, ls), p)
    ensures |Exec(n, ls).queues| == n
    ensures Bears(n, ls, p, k) <==> k <= |Exec(n, ls).queues[p]|
  {
    Invariant(n, ls);
    if k <= |Exec(n, ls).queues[p]| {
      EnoughMessages(n, ls, p, k);
    } else {
      var more := OneTooMany(n, ls, p);
      var ext := more[|ls|..];
      assert more == ls + ext;
      StartedAppend(ls, ext, p);
      assert !Defined(Exec(n, ls + ext), p);
    }
  }

  // ----- a discipline for callers who cannot wait until the partition is idle

  /** Legal, and a remove is started only while its partition holds more messages than there are
      removes in flight that may still pop one. */
  ghost predicate Covered(n: nat, ls: seq<Label>)
    ensures Covered(n, ls) ==> Legal(n, ls)
  {
    && Legal(n, ls)
    && (ls != [] ==>
          && Covered(n, ls[..|ls| - 1])
          && (var s, l := Exec(n, ls[..|ls| - 1]), ls[|ls| - 1];
              l.Start? && l.op.Remove? ==> |Takers(s, l.op.p)| < |s.queues[l.op.p]|))
  }

  /** Under that discipline no front read ever meets an empty partition. */
  lemma {:induction false} CoveredIsDefined(n: nat, ls: seq<Label>, p: nat)
    requires Covered(n, ls) && p < n
    ensures |Exec(n, ls).queues| == n && |Takers(Exec(n, ls), p)| <= |Exec(n, ls).queues[p]|
    ensures Defined(Exec(n, ls), p)
  {
    Invariant(n, ls);
    if ls == [] {
      assert Takers(Exec(n, ls), p) == {};
    } else {
      var before := ls[..|ls| - 1];
      Invariant(n, before);
      CoveredIsDefined(n, before, p);
      TakersStep(Exec(n, before), ls[|ls| - 1], p);
    }
    TakersSuffice(Exec(n, ls), p);
  }

  /** Testing the front is not enough: two removes of the last message both pass the first test,
      and once the first of them popped, the second reads the front of an empty partition. */
  lemma RaceToEmpty(m: Msg) returns (ls: seq<Label>)
    ensures Legal(1, ls) && Undefined(Exec(1, ls), 2) && Exec(1, ls).calls[2].pc.Writing?
  {
    ls := OnePushed(m);
    hide Step, Enabled, NextPc, Exec, Legal, Calm, Do;
    ls := SoloTest(1, ls, 0, 1);
    assert Calm(Exec(1, ls), 0) by { CalmWaiting(Exec(1, ls), 0); }
    ls := SoloTest(1, ls, 0, 2);
    CalmWaiting(Exec(1, ls), 0);
    StillCalm(Exec(1, ls), 0, 1);
    ls := SoloWrite(1, ls, 1);
    CalmWaiting(Exec(1, ls), 0);
    StillCalm(Exec(1, ls), 0, 2);
    WantsThenWrites(Call(Remove(0, m), WantWrite), []);
    ls := SoloGo(1, ls, 2, Call(Remove(0, m), WantWrite), []);
  }

  lemma OnePushed(m: Msg) returns (ls: seq<Label>)
    ensures Legal(1, ls) && Exec(1, ls).calls == map[0 := Call(Push(0, m), Done(Pushed))] && Exec(1, ls).queues == [[m]]
    ensures Calm(Exec(1, ls), 0)
  {
    ls := GoOn(1, [], Start(0, Push(0, m)));
    assert Exec(1, ls).queues == [[]];
    ls := SoloWrite(1, ls, 0);
    assert [] + [m] == [m] && Exec(1, ls).queues == [[]][0 := [] + [m]];
    Invariant(1, ls);
    assert Exec(1, ls).calls.Keys == {0};
  }

  lemma CalmWaiting(s: State, p: nat)
    requires forall t :: t in s.calls ==> s.calls[t].pc.Done? || s.calls[t].pc.WantWrite?
    ensures Calm(s, p)
  {
  }

  lemma StillCalm(s: State, p: nat, t: nat)
    requires Calm(s, p)
    ensures CalmBut(s, p, t)
  {
  }

  lemma WantsThenWrites(c: Call, q: seq<Msg>)
    requires c.pc.WantWrite?
    ensures NextPc(c, q) == Writing
  {
  }
}
