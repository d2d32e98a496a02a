/** The reader/writer lock behind the partitions, as the source implements it: waiter queues, and
    an unlock that hands the lock to the waiting readers one by one, letting go of its internal
    mutex between two of them.

    That gap breaks the exclusion a reader/writer lock promises. The module shows a run in which a
    reader is admitted beside a writer, and proves when a caller may ask for the write lock: exactly
    while no unlock is between two of its grants. */
module SharedMutex {

  /** Holders and waiters are named by tokens; one section under the internal mutex is one step. */
  datatype Lock = Lock(
    writerActive: bool, readerCount: int, writersWaiting: int,
    sharedWaiters: seq<nat>, uniqueWaiters: seq<nat>,
    readers: set<nat>,   // tokens that hold a read guard
    writers: set<nat>,   // tokens that hold a write guard
    draining: nat        // unlock calls between two grants of their loop
  )

  datatype Label =
    | LockExclusive(t: nat) | LockShared(t: nat)
    | Unlock(t: nat) | UnlockShared(t: nat)
    | Resume  // an unlock takes the internal mutex again and looks at the queue of readers

  const Free := Lock(false, 0, 0, [], [], {}, {}, 0)

  /** A token is used by one call at a time. */
  predicate Unused(s: Lock, t: nat) {
    t !in s.readers && t !in s.writers && t !in s.sharedWaiters && t !in s.uniqueWaiters
  }

  predicate Can(s: Lock, l: Label) {
    match l
    case LockExclusive(t) => Unused(s, t)
    case LockShared(t) => Unused(s, t)
    case Unlock(t) => t in s.writers
    case UnlockShared(t) => t in s.readers
    case Resume => s.draining > 0
  }

  /** The oldest waiting writer gets the lock. */
  function GrantWriter(s: Lock): Lock
    requires s.uniqueWaiters != []
  {
    s.(uniqueWaiters := s.uniqueWaiters[1..], writersWaiting := s.writersWaiting - 1,
       writerActive := true, writers := s.writers + {s.uniqueWaiters[0]})
  }

  function GrantReader(s: Lock): Lock
    requires s.sharedWaiters != []
  {
    s.(sharedWaiters := s.sharedWaiters[1..], readerCount := s.readerCount + 1,
       readers := s.readers + {s.sharedWaiters[0]})
  }

  function Do(s: Lock, l: Label): Lock
    requires Can(s, l)
  {
    match l
    case LockExclusive(t) =>
      if !s.writerActive && s.readerCount == 0 then s.(writerActive := true, writers := s.writers + {t})
      else s.(writersWaiting := s.writersWaiting + 1, uniqueWaiters := s.uniqueWaiters + [t])
    case LockShared(t) =>
      if !s.writerActive && s.writersWaiting == 0 then
        s.(readerCount := s.readerCount + 1, readers := s.readers + {t})
      else s.(sharedWaiters := s.sharedWaiters + [t])
    case Unlock(t) =>
      var r := s.(writerActive := false, writers := s.writers - {t});
      if r.uniqueWaiters != [] then GrantWriter(r)
      else if r.sharedWaiters != [] then GrantReader(r).(draining := r.draining + 1)
      else r
    case UnlockShared(t) =>
      var r := s.(readerCount := s.readerCount - 1, readers := s.readers - {t});
      if r.readerCount == 0 && r.uniqueWaiters != [] then GrantWriter(r) else r
    case Resume =>
      if s.sharedWaiters != [] then GrantReader(s) else s.(draining := s.draining - 1)
  }

  ghost predicate Legal(ls: seq<Label>)
    decreases |ls|, 0
  {
    ls == [] || (Legal(ls[..|ls| - 1]) && Can(Exec(ls[..|ls| - 1]), ls[|ls| - 1]))
  }

  ghost function Exec(ls: seq<Label>): Lock
    requires Legal(ls)
    decreases |ls|, 1
  {
    if ls == [] then Free else Do(Exec(ls[..|ls| - 1]), ls[|ls| - 1])
  }

  /** What a reader/writer lock promises: one writer alone, or readers only. */
  predicate Exclusive(s: Lock) {
    |s.writers| <= 1 && (s.writers != {} ==> s.readers == {})
  }

  /** The loop goes on although a writer got the lock in the gap. */
  predicate BadResume(s: Lock, l: Label) {
    l.Resume? && s.sharedWaiters != [] && s.writerActive
  }

  ghost predicate Distinct(q: seq<nat>) {
    forall i, j :: 0 <= i < j < |q| ==> q[i] != q[j]
  }

  /** The fields count and flag the holders, the queues name distinct tokens that hold nothing, and
      nobody waits without a reason. */
  ghost predicate Inv(s: Lock) {
    && Exclusive(s)
    && s.writerActive == (s.writers != {}) && s.readerCount == |s.readers| && s.writersWaiting == |s.uniqueWaiters|
    && Distinct(s.sharedWaiters) && Distinct(s.uniqueWaiters)
    && (forall t :: t in s.sharedWaiters ==> t !in s.readers && t !in s.writers && t !in s.uniqueWaiters)
    && (forall t :: t in s.uniqueWaiters ==> t !in s.readers && t !in s.writers)
    && (s.uniqueWaiters != [] ==> s.writers != {} || s.readers != {})
    && (s.sharedWaiters != [] ==> s.writers != {} || s.uniqueWaiters != [] || s.draining > 0)
  }

  /** From a good state a step leads to an exclusive one exactly when it is not a bad resume. */
  lemma StepIff(s: Lock, l: Label)
    requires Inv(s) && Can(s, l)
    ensures Exclusive(Do(s, l)) <==> !BadResume(s, l)
    ensures !BadResume(s, l) ==> Inv(Do(s, l))
  {
    if BadResume(s, l) {
      assert s.sharedWaiters[0] in Do(s, l).readers && Do(s, l).writers == s.writers != {};
    } else {
      match l
      case LockExclusive(t) => InvLockExclusive(s, t);
      case LockShared(t) =>
      case Unlock(t) => InvUnlock(s, t);
      case UnlockShared(t) => InvUnlockShared(s, t);
      case Resume => if s.sharedWaiters != [] { InvGrantReader(s); }
    }
  }

  lemma InvLockExclusive(s: Lock, t: nat)
    requires Inv(s) && Unused(s, t)
    ensures Inv(Do(s, LockExclusive(t)))
  {
    if !s.writerActive && s.readerCount == 0 {
      assert s.writers + {t} == {t} && |{t}| == 1 && s.readers == {};
    }
  }

  lemma InvGrantReader(s: Lock)
    requires Inv(s) && s.sharedWaiters != [] && !s.writerActive
    ensures Inv(GrantReader(s).(draining := s.draining + 1)) && (s.draining > 0 ==> Inv(GrantReader(s)))
  {
    var r := GrantReader(s);
    assert s.sharedWaiters[0] !in s.readers;
    forall t | t in r.sharedWaiters
      ensures t in s.sharedWaiters && t != s.sharedWaiters[0]
    {
      var i :| 0 <= i < |r.sharedWaiters| && r.sharedWaiters[i] == t;
      assert s.sharedWaiters[i + 1] == t;
    }
  }

  lemma InvGrantWriter(s: Lock)
    requires s.uniqueWaiters != [] && s.writers == {} && s.readers == {} && !s.writerActive && s.readerCount == 0
    requires s.writersWaiting == |s.uniqueWaiters| && Distinct(s.sharedWaiters) && Distinct(s.uniqueWaiters)
    requires forall t :: t in s.sharedWaiters ==> t !in s.uniqueWaiters
    ensures Inv(GrantWriter(s))
  {
    var r := GrantWriter(s);
    assert r.writers == {s.uniqueWaiters[0]};
    forall t | t in r.uniqueWaiters
      ensures t in s.uniqueWaiters && t != s.uniqueWaiters[0]
    {
      var i :| 0 <= i < |r.uniqueWaiters| && r.uniqueWaiters[i] == t;
      assert s.uniqueWaiters[i + 1] == t;
    }
  }

  lemma InvUnlock(s: Lock, t: nat)
    requires Inv(s) && t in s.writers
    ensures Inv(Do(s, Unlock(t)))
  {
    Singleton(s.writers, t);
    var r := s.(writerActive := false, writers := s.writers - {t});
    assert r.writers == {};
    if r.uniqueWaiters != [] {
      InvGrantWriter(r);
    } else if r.sharedWaiters != [] {
      var q := GrantReader(r);
      forall u | u in q.sharedWaiters
        ensures u in s.sharedWaiters && u != s.sharedWaiters[0]
      {
        var i :| 0 <= i < |q.sharedWaiters| && q.sharedWaiters[i] == u;
        assert s.sharedWaiters[i + 1] == u;
      }
    }
  }

  lemma InvUnlockShared(s: Lock, t: nat)
    requires Inv(s) && t in s.readers
    ensures Inv(Do(s, UnlockShared(t)))
  {
    var r := s.(readerCount := s.readerCount - 1, readers := s.readers - {t});
    assert s.writers == {} && |r.readers| == |s.readers| - 1;
    if r.readerCount == 0 {
      assert r.readers == {};
      if r.uniqueWaiters != [] {
        InvGrantWriter(r);
      }
    } else {
      assert r.readers != {};
    }
  }

  lemma Singleton(a: set<nat>, t: nat)
    requires |a| <= 1 && t in a
    ensures a == {t}
  {
    assert |a - {t}| == |a| - 1;
    assert a == {t} + (a - {t});
  }

  /** Every state on the way is exclusive. */
  ghost predicate AlwaysExclusive(ls: seq<Label>)
    requires Legal(ls)
  {
    Exclusive(Exec(ls)) && (ls != [] ==> AlwaysExclusive(ls[..|ls| - 1]))
  }

  /** No step on the way is a bad resume. */
  ghost predicate NeverBad(ls: seq<Label>)
    requires Legal(ls)
  {
    ls == [] || (NeverBad(ls[..|ls| - 1]) && !BadResume(Exec(ls[..|ls| - 1]), ls[|ls| - 1]))
  }

  /** A run keeps the promise in all its states exactly when none of its steps is a bad resume; it
      then also forgets no waiter. */
  lemma {:induction false} SafeIff(ls: seq<Label>)
    requires Legal(ls)
    ensures AlwaysExclusive(ls) <==> NeverBad(ls)
    ensures NeverBad(ls) ==> Inv(Exec(ls))
  {
    hide Inv, Exclusive, BadResume, Do, Can;
    if ls == [] {
      FreeInv();
    } else {
      var before := ls[..|ls| - 1];
      SafeIff(before);
      if NeverBad(before) {
        StepIff(Exec(before), ls[|ls| - 1]);
      }
    }
  }

  lemma FreeInv()
    ensures Inv(Free) && Exclusive(Free)
  {
  }

  /** The run: a writer unlocks to two waiting readers; the first is admitted and leaves; a writer
      comes in the gap and finds the lock free; then the loop admits the second reader. */
  lemma ReaderBesideWriter() returns (ls: seq<Label>)
    ensures Legal(ls) && Exec(ls).readers == {2} && Exec(ls).writers == {3}
  {
    ls := [];
    ls := Next(ls, LockExclusive(0));
    ls := Next(ls, LockShared(1));
    ls := Next(ls, LockShared(2));
    ls := Next(ls, Unlock(0));
    ls := Next(ls, UnlockShared(1));
    ls := Next(ls, LockExclusive(3));
    ls := Next(ls, Resume);
  }

  // ----- what a caller can see to: when to ask for the write lock

  /** Nobody asks for the write lock while an unlock has not returned. */
  ghost predicate Disciplined(ls: seq<Label>)
    requires Legal(ls)
  {
    ls == [] ||
    (Disciplined(ls[..|ls| - 1]) && (ls[|ls| - 1].LockExclusive? ==> Exec(ls[..|ls| - 1]).draining == 0))
  }

  /** While an unlock hands the lock out, there is no writer, neither active nor queued. */
  ghost predicate NoWriterWhileDraining(s: Lock) {
    s.draining > 0 ==> !s.writerActive && s.uniqueWaiters == []
  }

  /** A disciplined run keeps readers and writers apart in all its states. */
  lemma {:induction false} DisciplineIsSafe(ls: seq<Label>)
    requires Legal(ls) && Disciplined(ls)
    ensures AlwaysExclusive(ls) && NeverBad(ls) && Inv(Exec(ls)) && NoWriterWhileDraining(Exec(ls))
  {
    if ls == [] {
      FreeInv();
    } else {
      DisciplineIsSafe(ls[..|ls| - 1]);
      DisciplinedStep(Exec(ls[..|ls| - 1]), ls[|ls| - 1]);
    }
    SafeIff(ls);
  }

  lemma DisciplinedStep(s: Lock, l: Label)
    requires Inv(s) && NoWriterWhileDraining(s) && Can(s, l) && (l.LockExclusive? ==> s.draining == 0)
    ensures !BadResume(s, l) && NoWriterWhileDraining(Do(s, l))
  {
  }

  /** The labels of those who ask for no write lock and hold none. */
  predicate ReadersOnly(ext: seq<Label>) {
    forall i :: 0 <= i < |ext| ==> ext[i].LockShared? || ext[i].UnlockShared? || ext[i].Resume?
  }

  /** A reader leaves a drained lock with a writer queued: fewer readers, and the writer stays. */
  lemma ReaderLeaves(s: Lock, t: nat)
    requires Inv(s) && s.draining > 0 && s.uniqueWaiters != [] && t in s.readers
    ensures var r := Do(s, UnlockShared(t));
            && Inv(r) && r.draining > 0 && (r.writerActive || r.uniqueWaiters != [])
            && |r.readers| < |s.readers|
  {
    InvUnlockShared(s, t);
    assert |s.readers - {t}| == |s.readers| - 1;
  }

  lemma ReaderQueues(s: Lock, t: nat)
    requires Inv(s) && s.draining > 0 && s.writerActive && Unused(s, t)
    ensures var r := Do(s, LockShared(t));
            Inv(r) && r.draining > 0 && r.writerActive && r.sharedWaiters != []
  {
    StepIff(s, LockShared(t));
  }

  /** A lock that drains with a writer active or queued is lost: readers alone can bring it about
      that one of them is admitted beside the writer. */
  lemma LostWhileDraining(ls: seq<Label>) returns (ext: seq<Label>)
    requires Legal(ls) && Inv(Exec(ls)) && Exec(ls).draining > 0
    requires Exec(ls).writerActive || Exec(ls).uniqueWaiters != []
    ensures ReadersOnly(ext) && Legal(ls + ext) && !Exclusive(Exec(ls + ext))
    decreases |Exec(ls).readers|
  {
    hide Inv, Exclusive, Legal, Exec, Do, Can;
    if Exec(ls).writerActive {
      ext := AdmitBeside(ls);
    } else {
      var t := SomeReader(Exec(ls));
      var more := OneLeaves(ls, t);
      var rest := LostWhileDraining(more);
      ext := [UnlockShared(t)] + rest;
      assert ls + ext == more + rest;
    }
  }

  lemma OneLeaves(ls: seq<Label>, t: nat) returns (more: seq<Label>)
    requires Legal(ls) && Inv(Exec(ls)) && Exec(ls).draining > 0 && Exec(ls).uniqueWaiters != []
             && t in Exec(ls).readers
    ensures more == ls + [UnlockShared(t)] && Legal(more) && Inv(Exec(more)) && Exec(more).draining > 0
    ensures Exec(more).writerActive || Exec(more).uniqueWaiters != []
    ensures |Exec(more).readers| < |Exec(ls).readers|
  {
    ReaderLeaves(Exec(ls), t);
    more := Next(ls, UnlockShared(t));
    hide Inv, Do, Exclusive;
  }

  lemma SomeReader(s: Lock) returns (t: nat)
    requires Inv(s) && s.uniqueWaiters != [] && !s.writerActive
    ensures t in s.readers
  {
    t :| t in s.readers;
  }

  /** With a writer active, the next grant of the draining loop breaks the promise; if nobody waits,
      one more reader comes first. */
  lemma AdmitBeside(ls: seq<Label>) returns (ext: seq<Label>)
    requires Legal(ls) && Inv(Exec(ls)) && Exec(ls).draining > 0 && Exec(ls).writerActive
    ensures ReadersOnly(ext) && Legal(ls + ext) && !Exclusive(Exec(ls + ext))
  {
    hide Inv, Do, Exclusive, Unused;
    var asked := ls;
    ext := [];
    if Exec(ls).sharedWaiters == [] {
      var t := Newcomer(Exec(ls));
      ReaderQueues(Exec(ls), t);
      ext := [LockShared(t)];
      asked := Next(ls, LockShared(t));
    }
    assert asked == ls + ext;
    StepIff(Exec(asked), Resume);
    var more := Next(asked, Resume);
    ext := ext + [Resume];
    assert more == ls + ext;
  }

  lemma {:induction false} Bound(a: set<nat>) returns (m: nat)
    ensures forall t :: t in a ==> t < m
  {
    if a == {} {
      m := 0;
    } else {
      var t :| t in a;
      m := Bound(a - {t});
      m := if t < m then m else t + 1;
      assert a == (a - {t}) + {t};
    }
  }

  lemma Newcomer(s: Lock) returns (t: nat)
    ensures Unused(s, t)
  {
    var shared, unique := set u | u in s.sharedWaiters, set u | u in s.uniqueWaiters;
    var all := s.readers + s.writers + shared + unique;
    t := Bound(all);
    assert t !in all;
    assert t in s.sharedWaiters ==> t in shared;
    assert t in s.uniqueWaiters ==> t in unique;
  }

  /** Readers and writers stay apart in every continuation in which nobody asks for the write lock. */
  ghost predicate StaysApart(ls: seq<Label>)
    requires Legal(ls)
  {
    forall ext | NobodyAsks(ext) && Legal(ls + ext) :: AlwaysExclusive(ls + ext)
  }

  lemma StaysApartIfDisciplined(ls: seq<Label>)
    requires Legal(ls) && Disciplined(ls)
    ensures StaysApart(ls)
  {
    forall ext | NobodyAsks(ext) && Legal(ls + ext)
      ensures AlwaysExclusive(ls + ext)
    {
      StaysDisciplined(ls, ext);
      DisciplineIsSafe(ls + ext);
    }
  }

  /** Main result: after a disciplined run, asking for the write lock leaves readers and writers apart
      in every continuation in which nobody else asks, if and only if no unlock is handing out. */
  lemma AskIff(ls: seq<Label>, t: nat)
    requires Legal(ls) && Disciplined(ls) && Unused(Exec(ls), t)
    ensures Legal(ls + [LockExclusive(t)])
    ensures StaysApart(ls + [LockExclusive(t)]) <==> Exec(ls).draining == 0
  {
    DisciplineIsSafe(ls);
    var asked := Next(ls, LockExclusive(t));
    assert asked == ls + [LockExclusive(t)];
    if Exec(ls).draining == 0 {
      assert asked[..|asked| - 1] == ls;
      StaysApartIfDisciplined(asked);
    } else {
      InvLockExclusive(Exec(ls), t);
      var ext := LostWhileDraining(asked);
      assert NobodyAsks(ext) && !AlwaysExclusive(asked + ext);
    }
  }

  predicate NobodyAsks(ext: seq<Label>) {
    forall i :: 0 <= i < |ext| ==> !ext[i].LockExclusive?
  }

  lemma {:induction false} StaysDisciplined(ls: seq<Label>, ext: seq<Label>)
    requires Legal(ls) && Disciplined(ls) && NobodyAsks(ext) && Legal(ls + ext)
    ensures Disciplined(ls + ext)
    decreases |ext|
  {
    if ext == [] {
      assert ls + ext == ls;
    } else {
      var n := |ext| - 1;
      assert (ls + ext)[..|ls + ext| - 1] == ls + ext[..n] && (ls + ext)[|ls + ext| - 1] == ext[n];
      StaysDisciplined(ls, ext[..n]);
    }
  }

  lemma Next(ls: seq<Label>, l: Label) returns (more: seq<Label>)
    requires Legal(ls) && Can(Exec(ls), l)
    ensures more == ls + [l] && Legal(more) && Exec(more) == Do(Exec(ls), l)
  {
    more := ls + [l];
    assert more[..|more| - 1] == ls;
  }
}
