/** The benchmark barrier: threads that meet phase after phase and may leave for good between two
    waits. Every section under the lock is one step; a condition-variable wait gives the lock up, and
    takes it again only after a notification or a spurious wake-up. */
module Barrier {

  datatype Pc =
    | Running              // outside the barrier
    | Entering             // called wait, before the lock
    | Asleep(phase: int)   // waiting on the condition, not notified; phase is the local copy
    | Awake(phase: int)    // notified, before it takes the lock again and tests its condition
    | Notifying            // was last: lock released, about to notify all and return true
    | Removing             // called removeThread, before the lock
    | Removed

  datatype State = State(threads: map<nat, Pc>, running: int, phase: int, entered: int)

  datatype Label =
    | Wait(t: nat)      // call wait
    | Remove(t: nat)    // call removeThread
    | Go(t: nat)        // the next step of a call
    | Spurious(t: nat)  // a wake-up without a notification

  predicate Inside(pc: Pc) {
    pc.Asleep? || pc.Awake?
  }

  /** The wake condition of a waiter. */
  predicate Wakes(s: State, pc: Pc)
    requires Inside(pc)
  {
    s.phase > pc.phase || s.entered == s.running
  }

  predicate Can(s: State, l: Label) {
    && l.t in s.threads
    && match l
       case Wait(t) => s.threads[t].Running?
       case Remove(t) => s.threads[t].Running?
       case Go(t) => s.threads[t].Entering? || s.threads[t].Awake? || s.threads[t].Notifying? || s.threads[t].Removing?
       case Spurious(t) => s.threads[t].Asleep?
  }

  function NotifyAll(threads: map<nat, Pc>): map<nat, Pc> {
    map t | t in threads :: if threads[t].Asleep? then Awake(threads[t].phase) else threads[t]
  }

  /** The last thread of a phase: it opens the next one. */
  function Last(s: State, t: nat): State {
    State(s.threads[t := Notifying], s.running, s.phase + 1, 0)
  }

  function Do(s: State, l: Label): State
    requires Can(s, l)
  {
    var t := l.t;
    match l
    case Wait(_) => s.(threads := s.threads[t := Entering])
    case Remove(_) => s.(threads := s.threads[t := Removing])
    case Spurious(_) => s.(threads := s.threads[t := Awake(s.threads[t].phase)])
    case Go(_) =>
      match s.threads[t]
      case Entering =>
        var e := s.(entered := s.entered + 1);
        if e.entered < e.running then e.(threads := e.threads[t := Asleep(e.phase)]) else Last(e, t)
      case Awake(phase) =>
        if !Wakes(s, s.threads[t]) then s.(threads := s.threads[t := Asleep(phase)])
        else if s.phase > phase then s.(threads := s.threads[t := Running])
        else Last(s, t)
      case Notifying => s.(threads := NotifyAll(s.threads)[t := Running])
      case Removing =>
        var r := s.(running := s.running - 1, threads := s.threads[t := Removed]);
        if r.entered != 0 then r.(threads := NotifyAll(r.threads)) else r
      case _ => s
  }

  /** Threads 0 to n - 1, all outside. */
  function Fresh(n: nat): map<nat, Pc> {
    if n == 0 then map[] else Fresh(n - 1)[n - 1 := Running]
  }

  function Init(n: nat): State {
    State(Fresh(n), n, 0, 0)
  }

  ghost predicate Legal(n: nat, ls: seq<Label>)
    decreases |ls|, 0
  {
    ls == [] || (Legal(n, ls[..|ls| - 1]) && Can(Exec(n, ls[..|ls| - 1]), ls[|ls| - 1]))
  }

  ghost function Exec(n: nat, ls: seq<Label>): State
    requires Legal(n, ls)
    decreases |ls|, 1
  {
    if ls == [] then Init(n) else Do(Exec(n, ls[..|ls| - 1]), ls[|ls| - 1])
  }

  /** The threads that are not removed, and those of them that wait in phase k. */
  function Alive(threads: map<nat, Pc>): set<nat> {
    set t | t in threads && !threads[t].Removed?
  }

  function WaitingIn(threads: map<nat, Pc>, k: int): set<nat> {
    set t | t in threads && Inside(threads[t]) && threads[t].phase == k
  }

  /** running counts the threads that are not removed, entered those waiting in the current phase;
      a waiter is in that phase or in the one before, never further behind. */
  ghost predicate Counts(s: State) {
    && s.running == |Alive(s.threads)| && s.entered == |WaitingIn(s.threads, s.phase)|
    && s.phase >= 0
    && forall t :: t in s.threads && Inside(s.threads[t]) ==>
                     s.threads[t].phase == s.phase || s.threads[t].phase == s.phase - 1
  }

  /** No sleeper is forgotten: one of the previous phase has a thread that is about to notify, and
      while a thread of the current phase sleeps, not all have entered. */
  ghost predicate NoLostWakeup(s: State) {
    && (forall t :: t in s.threads && s.threads[t].Asleep? && s.threads[t].phase < s.phase ==>
                      exists u :: u in s.threads && s.threads[u].Notifying?)
    && (forall t :: t in s.threads && s.threads[t].Asleep? && s.threads[t].phase == s.phase ==> s.entered < s.running)
  }

  ghost predicate Inv(s: State) {
    Counts(s) && NoLostWakeup(s)
  }

  lemma SubsetSize(a: set<nat>, b: set<nat>)
    requires a <= b
    ensures |a| <= |b| && (|a| == |b| ==> a == b)
  {
    assert b == a + (b - a);
    assert |b| == |a| + |b - a|;
  }

  /** Entering threads are alive and not waiting yet. */
  lemma Room(s: State, t: nat)
    requires Counts(s) && t in s.threads && !s.threads[t].Removed?
    requires !(Inside(s.threads[t]) && s.threads[t].phase == s.phase)
    ensures s.entered < s.running
  {
    SubsetSize(WaitingIn(s.threads, s.phase), Alive(s.threads) - {t});
  }

  /** The check in createBarrier never fails: whoever enters finds entered below running. */
  lemma CheckHolds(n: nat, ls: seq<Label>, t: nat)
    requires Legal(n, ls) && t in Exec(n, ls).threads && Exec(n, ls).threads[t].Entering?
    ensures Exec(n, ls).entered < Exec(n, ls).running
  {
    Invariant(n, ls);
    Room(Exec(n, ls), t);
  }

  predicate IsAlive(pc: Pc) {
    !pc.Removed?
  }

  predicate WaitsIn(pc: Pc, k: int) {
    Inside(pc) && pc.phase == k
  }

  function One(b: bool): int {
    if b then 1 else 0
  }

  /** The two counts follow a change of one thread. */
  lemma OneChanged(a: map<nat, Pc>, t: nat, pc: Pc, k: int)
    requires t in a
    ensures |Alive(a[t := pc])| == |Alive(a)| - One(IsAlive(a[t])) + One(IsAlive(pc))
    ensures |WaitingIn(a[t := pc], k)| == |WaitingIn(a, k)| - One(WaitsIn(a[t], k)) + One(WaitsIn(pc, k))
  {
    var b := a[t := pc];
    SizeWithout(Alive(a), Alive(b), t);
    SizeWithout(WaitingIn(a, k), WaitingIn(b, k), t);
  }

  lemma SizeWithout(x: set<nat>, y: set<nat>, t: nat)
    requires x - {t} == y - {t}
    ensures |y| == |x| - One(t in x) + One(t in y)
  {
    assert t in x ==> |x - {t}| == |x| - 1;
    assert t in y ==> |y - {t}| == |y| - 1;
    assert t !in x ==> x - {t} == x;
    assert t !in y ==> y - {t} == y;
  }

  lemma NotifyKeeps(a: map<nat, Pc>, k: int)
    ensures NotifyAll(a).Keys == a.Keys && Alive(NotifyAll(a)) == Alive(a)
            && WaitingIn(NotifyAll(a), k) == WaitingIn(a, k)
  {
  }

  /** A change of one thread that leaves its place in the counts, and takes no notifier away. */
  lemma QuietChange(s: State, t: nat, pc: Pc)
    requires Inv(s) && t in s.threads && !s.threads[t].Notifying?
    requires IsAlive(pc) && IsAlive(s.threads[t]) && WaitsIn(pc, s.phase) == WaitsIn(s.threads[t], s.phase)
    requires Inside(pc) ==> pc.phase == s.phase || pc.phase == s.phase - 1
    requires pc.Asleep? ==> pc.phase == s.phase && s.entered < s.running
    ensures Inv(s.(threads := s.threads[t := pc]))
  {
    var r := s.(threads := s.threads[t := pc]);
    OneChanged(s.threads, t, pc, s.phase);
    forall u | u in r.threads && r.threads[u].Asleep? && r.threads[u].phase < r.phase
      ensures exists v :: v in r.threads && r.threads[v].Notifying?
    {
      var v :| v in s.threads && s.threads[v].Notifying?;
      assert r.threads[v].Notifying?;
    }
  }

  lemma StepInv(s: State, l: Label)
    requires Inv(s) && Can(s, l)
    ensures Inv(Do(s, l))
  {
    hide Inv;
    var t := l.t;
    match l
    case Wait(_) => QuietChange(s, t, Entering);
    case Remove(_) => QuietChange(s, t, Removing);
    case Spurious(_) => StepSpurious(s, t);
    case Go(_) =>
      match s.threads[t]
      case Entering => StepEntering(s, t);
      case Awake(_) => StepAwake(s, t);
      case Notifying => StepNotifying(s, t);
      case Removing => StepRemoving(s, t);
  }

  lemma StepSpurious(s: State, t: nat)
    requires Inv(s) && t in s.threads && s.threads[t].Asleep?
    ensures Inv(Do(s, Spurious(t)))
  {
    QuietChange(s, t, Awake(s.threads[t].phase));
  }

  lemma LastInv(s: State, t: nat)
    requires s.running == |Alive(s.threads)| && s.phase >= 0 && t in s.threads && !s.threads[t].Removed?
    requires forall u :: u in s.threads && u != t && Inside(s.threads[u]) ==> s.threads[u].phase == s.phase
    ensures Inv(Last(s, t))
  {
    var r := Last(s, t);
    OneChanged(s.threads, t, Notifying, r.phase);
    assert WaitingIn(r.threads, r.phase) == {};
    assert r.threads[t].Notifying?;
  }

  /** When all alive threads but t have entered the phase, no waiter but t is left in the one before. */
  lemma NoneBehind(s: State, t: nat, u: nat)
    requires Counts(s) && t in s.threads && u in s.threads && u != t && Inside(s.threads[u])
    requires s.entered - One(WaitsIn(s.threads[t], s.phase)) >= s.running - One(IsAlive(s.threads[t]))
    ensures s.threads[u].phase == s.phase
  {
    var waiting, alive := WaitingIn(s.threads, s.phase) - {t}, Alive(s.threads) - {t};
    assert t in WaitingIn(s.threads, s.phase) <==> WaitsIn(s.threads[t], s.phase);
    assert t in Alive(s.threads) <==> IsAlive(s.threads[t]);
    SubsetSize(waiting, alive);
    assert u in alive;
  }

  lemma StepEntering(s: State, t: nat)
    requires Inv(s) && t in s.threads && s.threads[t].Entering?
    ensures Inv(Do(s, Go(t)))
  {
    if s.entered + 1 < s.running {
      var r := Do(s, Go(t));
      OneChanged(s.threads, t, Asleep(s.phase), s.phase);
      forall u | u in r.threads && r.threads[u].Asleep? && r.threads[u].phase < r.phase
        ensures exists v :: v in r.threads && r.threads[v].Notifying?
      {
        var v :| v in s.threads && s.threads[v].Notifying?;
        assert r.threads[v].Notifying?;
      }
    } else {
      forall u | u in s.threads && u != t && Inside(s.threads[u])
        ensures s.threads[u].phase == s.phase
      {
        NoneBehind(s, t, u);
      }
      LastInv(s.(entered := s.entered + 1), t);
    }
  }

  lemma StepAwake(s: State, t: nat)
    requires Inv(s) && t in s.threads && s.threads[t].Awake?
    ensures Inv(Do(s, Go(t)))
  {
    var cp := s.threads[t].phase;
    if !Wakes(s, s.threads[t]) {
      SubsetSize(WaitingIn(s.threads, s.phase), Alive(s.threads));
      QuietChange(s, t, Asleep(cp));
    } else if s.phase > cp {
      QuietChange(s, t, Running);
    } else {
      forall u | u in s.threads && u != t && Inside(s.threads[u])
        ensures s.threads[u].phase == s.phase
      {
        NoneBehind(s, t, u);
      }
      LastInv(s, t);
    }
  }

  lemma StepNotifying(s: State, t: nat)
    requires Inv(s) && t in s.threads && s.threads[t].Notifying?
    ensures Inv(Do(s, Go(t)))
  {
    NotifyKeeps(s.threads, s.phase);
    OneChanged(NotifyAll(s.threads), t, Running, s.phase);
  }

  lemma StepRemoving(s: State, t: nat)
    requires Inv(s) && t in s.threads && s.threads[t].Removing?
    ensures Inv(Do(s, Go(t)))
  {
    var r := Do(s, Go(t));
    OneChanged(s.threads, t, Removed, s.phase);
    NotifyKeeps(s.threads[t := Removed], s.phase);
    if s.entered == 0 {
      forall u | u in r.threads && r.threads[u].Asleep?
        ensures r.threads[u].phase < r.phase
      {
        assert r.threads[u].phase == s.phase ==> u in WaitingIn(s.threads, s.phase);
      }
      forall u | u in r.threads && r.threads[u].Asleep? && r.threads[u].phase < r.phase
        ensures exists v :: v in r.threads && r.threads[v].Notifying?
      {
        var v :| v in s.threads && s.threads[v].Notifying?;
        assert r.threads[v].Notifying?;
      }
    }
  }

  lemma {:induction false} Invariant(n: nat, ls: seq<Label>)
    requires Legal(n, ls)
    ensures Inv(Exec(n, ls))
  {
    hide Inv, Do, Can;
    if ls == [] {
      InitInv(n);
    } else {
      Invariant(n, ls[..|ls| - 1]);
      StepInv(Exec(n, ls[..|ls| - 1]), ls[|ls| - 1]);
    }
  }

  lemma {:induction false} FreshThreads(n: nat)
    ensures forall t: nat :: t in Fresh(n) <==> t < n
    ensures forall t :: t in Fresh(n) ==> Fresh(n)[t].Running?
    ensures |Alive(Fresh(n))| == n
  {
    if n == 0 {
      assert Alive(Fresh(0)) == {};
    } else {
      FreshThreads(n - 1);
      assert forall t :: t in Fresh(n) <==> t in Fresh(n - 1) || t == n - 1;
      assert Alive(Fresh(n)) == Alive(Fresh(n - 1)) + {n - 1};
    }
  }

  lemma InitInv(n: nat)
    ensures Inv(Init(n))
  {
    FreshThreads(n);
    assert WaitingIn(Init(n).threads, 0) == {};
  }

  /** A sleeper whose wake condition holds has a notification coming. */
  lemma WakeupPending(n: nat, ls: seq<Label>, t: nat)
    requires Legal(n, ls) && t in Exec(n, ls).threads && Exec(n, ls).threads[t].Asleep?
    requires Wakes(Exec(n, ls), Exec(n, ls).threads[t])
    ensures exists u :: u in Exec(n, ls).threads && Exec(n, ls).threads[u].Notifying?
  {
    Invariant(n, ls);
  }

  /** No run deadlocks: when every thread that is left is inside a call, one of them can step
      without a spurious wake-up. */
  lemma NoDeadlock(n: nat, ls: seq<Label>, t: nat)
    requires Legal(n, ls) && t in Exec(n, ls).threads && !Exec(n, ls).threads[t].Removed?
    requires forall u :: u in Exec(n, ls).threads ==> !Exec(n, ls).threads[u].Running?
    ensures exists u :: Can(Exec(n, ls), Go(u))
  {
    Invariant(n, ls);
    var s := Exec(n, ls);
    if !s.threads[t].Asleep? {
      assert Can(s, Go(t));
    } else if s.threads[t].phase == s.phase {
      var u := Missing(WaitingIn(s.threads, s.phase), Alive(s.threads));
      assert s.threads[u].Asleep? ==> s.threads[u].phase < s.phase;
      assert s.threads[u].Asleep? || Can(s, Go(u));
    }
    if u :| u in s.threads && s.threads[u].Notifying? {
      assert Can(s, Go(u));
    }
  }

  lemma Missing(a: set<nat>, b: set<nat>) returns (x: nat)
    requires |a| < |b|
    ensures x in b && x !in a
  {
    if b <= a {
      SubsetSize(b, a);
    }
    x :| x in b && x !in a;
  }

  // ----- phases over a whole run

  /** How often thread t entered the barrier, and how often it left it again. */
  ghost function EnteredBy(n: nat, ls: seq<Label>, t: nat): nat
    requires Legal(n, ls)
  {
    if ls == [] then 0
    else EnteredBy(n, ls[..|ls| - 1], t) + One(Enters(Exec(n, ls[..|ls| - 1]), ls[|ls| - 1], t))
  }

  ghost function LeftBy(n: nat, ls: seq<Label>, t: nat): nat
    requires Legal(n, ls)
  {
    if ls == [] then 0
    else LeftBy(n, ls[..|ls| - 1], t) + One(Leaves(Exec(n, ls[..|ls| - 1]), ls[|ls| - 1], t))
  }

  /** How many waits returned true. */
  ghost function TrueReturns(n: nat, ls: seq<Label>): nat
    requires Legal(n, ls)
  {
    if ls == [] then 0
    else TrueReturns(n, ls[..|ls| - 1]) + One(ReturnsTrue(Exec(n, ls[..|ls| - 1]), ls[|ls| - 1]))
  }

  predicate Enters(s: State, l: Label, t: nat)
    requires Can(s, l)
  {
    l == Go(t) && s.threads[t].Entering?
  }

  predicate ReturnsTrue(s: State, l: Label)
    requires Can(s, l)
  {
    l.Go? && s.threads[l.t].Notifying?
  }

  predicate Leaves(s: State, l: Label, t: nat)
    requires Can(s, l)
  {
    l == Go(t) && (ReturnsTrue(s, l) || (s.threads[t].Awake? && s.phase > s.threads[t].phase))
  }

  function Notifiers(threads: map<nat, Pc>): set<nat> {
    set t | t in threads && threads[t].Notifying?
  }

  /** Lock step. A thread that is not removed has entered every phase before the current one, and
      the current one just if it waits there; it has left them all but the one it is in. */
  ghost predicate InStep(s: State, t: nat, entered: int, left: int) {
    && t in s.threads
    && left <= s.phase
    && (IsAlive(s.threads[t]) ==>
          && entered == s.phase + One(WaitsIn(s.threads[t], s.phase))
          && left == entered - One(Inside(s.threads[t]) || s.threads[t].Notifying?))
  }

  lemma {:induction false} Lockstep(n: nat, ls: seq<Label>, t: nat)
    requires Legal(n, ls) && t < n
    ensures InStep(Exec(n, ls), t, EnteredBy(n, ls, t), LeftBy(n, ls, t))
  {
    hide Can, Do, Enters, Leaves, InStep, Inv;
    if ls == [] {
      LockstepInit(n, t);
    } else {
      var before := ls[..|ls| - 1];
      Lockstep(n, before, t);
      Invariant(n, before);
      LockstepStep(Exec(n, before), ls[|ls| - 1], t, EnteredBy(n, before, t), LeftBy(n, before, t));
    }
  }

  lemma LockstepInit(n: nat, t: nat)
    requires t < n
    ensures InStep(Init(n), t, 0, 0)
  {
    FreshThreads(n);
  }

  lemma LockstepStep(s: State, l: Label, t: nat, entered: int, left: int)
    requires Inv(s) && Can(s, l) && InStep(s, t, entered, left)
    ensures InStep(Do(s, l), t, entered + One(Enters(s, l, t)), left + One(Leaves(s, l, t)))
  {
    if l.Go? && l.t != t && Do(s, l).phase > s.phase {
      PhaseEnds(s, l.t, t);
    }
  }

  /** When a phase ends, every other thread that is left waits in it. */
  lemma PhaseEnds(s: State, t: nat, u: nat)
    requires Inv(s) && Can(s, Go(t)) && Do(s, Go(t)).phase > s.phase && u != t && u in s.threads
    ensures IsAlive(s.threads[u]) ==> WaitsIn(s.threads[u], s.phase)
  {
    var waiting, alive := WaitingIn(s.threads, s.phase) - {t}, Alive(s.threads) - {t};
    assert t in WaitingIn(s.threads, s.phase) <==> WaitsIn(s.threads[t], s.phase);
    SubsetSize(waiting, alive);
    assert u in alive <==> IsAlive(s.threads[u]);
  }

  /** No thread leaves a phase before every thread that is not removed has entered it: whoever left,
      even if it is removed by now, has left no more phases than any remaining thread has entered. */
  lemma NobodyLeavesEarly(n: nat, ls: seq<Label>, t: nat, u: nat)
    requires Legal(n, ls) && t < n && u < n
    ensures u in Exec(n, ls).threads
    ensures !Exec(n, ls).threads[u].Removed? ==> LeftBy(n, ls, t) <= EnteredBy(n, ls, u)
  {
    Lockstep(n, ls, t);
    Lockstep(n, ls, u);
  }

  /** Exactly one wait per phase returns true: the completed phases are the waits that returned true
      and those that are about to. */
  lemma {:induction false} OneTruePerPhase(n: nat, ls: seq<Label>)
    requires Legal(n, ls)
    ensures TrueReturns(n, ls) + |Notifiers(Exec(n, ls).threads)| == Exec(n, ls).phase
  {
    hide Can, Do, ReturnsTrue;
    if ls == [] {
      FreshThreads(n);
      assert Notifiers(Init(n).threads) == {};
    } else {
      OneTruePerPhase(n, ls[..|ls| - 1]);
      TrueStep(Exec(n, ls[..|ls| - 1]), ls[|ls| - 1]);
    }
  }

  lemma TrueStep(s: State, l: Label)
    requires Can(s, l)
    ensures One(ReturnsTrue(s, l)) + |Notifiers(Do(s, l).threads)| - |Notifiers(s.threads)| == Do(s, l).phase - s.phase
  {
    SizeWithout(Notifiers(s.threads), Notifiers(Do(s, l).threads), l.t);
  }
}
