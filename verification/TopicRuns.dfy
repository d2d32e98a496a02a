/** What holds of every interleaving of a topic's loads and stores: no node is touched after it was
    given back, delivery is first in, first out, the log is whole and replays to the linked nodes, no
    run deadlocks, and a partition bears exactly as many removes as it holds messages. */
module TopicRuns {
  import opened Words
  import opened Topic
  import opened TopicBatch
  import opened TopicMemory

  // ----- memory safety

  /** The node that a step reads, writes or gives back has not been given back before. */
  lemma NoUseAfterFree(n: nat, ls: seq<Label>, t: nat, x: nat)
    requires MLegal(n, ls) && t in MExec(n, ls).calls && Touches(MExec(n, ls).calls[t]) == Some(x)
    ensures x < |MExec(n, ls).heap| && MExec(n, ls).heap[x].live
  {
    Simulates(n, ls);
    var s := MExec(n, ls);
    TouchesLive(s, t, x);
  }

  lemma TouchesLive(s: MState, t: nat, x: nat)
    requires MInv(s) && t in s.calls && Touches(s.calls[t]) == Some(x)
    ensures x < |s.heap| && s.heap[x].live
  {
    Fits(s, t);
    var c := s.calls[t];
    var p := c.op.p;
    var chain := s.parts[p].chain;
    hide MInv, LocalLog;
    if c.pc.Made? {
      assert NodeOk(s.heap, p, chain, |chain| - 1);
    } else {
      assert NodeOk(s.heap, p, chain, 0);
    }
  }

  // ----- walking the links

  /** The messages of k nodes from h on, following the links. */
  ghost function Walk(heap: seq<Node>, h: Option<nat>, k: nat): seq<Msg>
    decreases k
  {
    if k == 0 || h.None? then [] else [MsgAt(heap, h.value)] + Walk(heap, NextAt(heap, h.value), k - 1)
  }

  lemma {:induction false} WalkFrom(heap: seq<Node>, p: nat, c: seq<nat>, i: nat)
    requires ChainOk(heap, p, c) && i <= |c|
    ensures Walk(heap, Link(c, i), |c| - i) == Contents(heap, c)[i..]
    decreases |c| - i
  {
    if i < |c| {
      assert NodeOk(heap, p, c, i);
      WalkFrom(heap, p, c, i + 1);
      assert Contents(heap, c)[i..] == [Contents(heap, c)[i]] + Contents(heap, c)[i + 1..];
    }
  }

  /** While nobody is in the middle of a push or a pop, the links from head on hold the queue, as many
      nodes as the size says. */
  lemma WalkIsQueue(n: nat, ls: seq<Label>, p: nat)
    requires MLegal(n, ls) && p < n && Still(MExec(n, ls), p)
    ensures |MExec(n, ls).parts| == n && MExec(n, ls).parts[p].size >= 0
    ensures var s := MExec(n, ls);
            Walk(s.heap, s.parts[p].head, s.parts[p].size) == Contents(s.heap, s.parts[p].chain) == Abs(s).queues[p]
  {
    Simulates(n, ls);
    var s := MExec(n, ls);
    assert Rest(s.heap, p, s.parts[p]);
    WalkFrom(s.heap, p, s.parts[p].chain, 0);
    assert Contents(s.heap, s.parts[p].chain)[0..] == Contents(s.heap, s.parts[p].chain);
  }

  // ----- first in, first out

  /** What the last store of a push of p puts in, and what a pop of p gives back. */
  ghost function PutIn(s: MState, l: Label, p: nat): seq<Msg>
    requires MCan(s, l)
  {
    if l.Go? && s.calls[l.t].op.p == p && s.calls[l.t].pc.Sized? then [MsgAt(s.heap, s.calls[l.t].pc.x)] else []
  }

  ghost function TakenOut(s: MState, l: Label, p: nat): seq<Msg>
    requires MCan(s, l)
  {
    if l.Go? && s.calls[l.t].op.p == p && s.calls[l.t].pc.Shrunk? then [MsgAt(s.heap, s.calls[l.t].pc.x)] else []
  }

  ghost function AllPutIn(n: nat, ls: seq<Label>, p: nat): seq<Msg>
    requires MLegal(n, ls)
  {
    if ls == [] then [] else AllPutIn(n, ls[..|ls| - 1], p) + PutIn(MExec(n, ls[..|ls| - 1]), ls[|ls| - 1], p)
  }

  ghost function AllTakenOut(n: nat, ls: seq<Label>, p: nat): seq<Msg>
    requires MLegal(n, ls)
  {
    if ls == [] then [] else AllTakenOut(n, ls[..|ls| - 1], p) + TakenOut(MExec(n, ls[..|ls| - 1]), ls[|ls| - 1], p)
  }

  lemma FlowOfCall(heap: seq<Node>, part: Part, c: MCall)
    requires LocalMem(heap, part, c) && (Mutates(c) || Rest(heap, c.op.p, part))
    ensures var q := Contents(heap, part.chain);
            (if c.pc.Shrunk? then [MsgAt(heap, c.pc.x)] else [])
            + (if Commits(c) && AbsPc(c.pc).Logged? && !c.pc.At? then Apply(c.op, q) else q)
            == q + if c.pc.Sized? then [MsgAt(heap, c.pc.x)] else []
  {
    if c.pc.Shrunk? {
      assert NodeOk(heap, c.op.p, part.chain, 0);
    } else if c.pc.GotHead? && c.pc.h.None? {
      assert part.chain == [];
    }
  }

  lemma FlowStep(s: MState, l: Label, p: nat)
    requires MInv(s) && MCan(s, l) && p < |s.parts| == |MDo(s, l).parts|
    ensures var q, r := Contents(s.heap, s.parts[p].chain), MDo(s, l);
            TakenOut(s, l, p) + Contents(r.heap, r.parts[p].chain) == q + PutIn(s, l, p)
  {
    if l.Go? {
      var c := s.calls[l.t];
      QueuesAfter(s, l.t, p);
      Fits(s, l.t);
      hide MInv, LocalMem, LocalLog, Rest, Mutates, Apply, Contents, MStep, MEnabled;
      if c.op.p == p && !c.pc.At? {
        FlowOfCall(s.heap, s.parts[p], c);
      }
    }
  }

  /** Nothing lost, nothing twice, nothing out of order, in every interleaving of the loads and stores:
      the messages of the nodes given back, followed by those linked from head on, are the messages
      pushed. */
  lemma {:induction false} Flow(n: nat, ls: seq<Label>, p: nat)
    requires MLegal(n, ls) && p < n
    ensures |MExec(n, ls).parts| == n
    ensures var s := MExec(n, ls);
            && AllTakenOut(n, ls, p) + Contents(s.heap, s.parts[p].chain) == AllPutIn(n, ls, p)
            && (Still(s, p) ==>
                  && s.parts[p].size >= 0
                  && AllTakenOut(n, ls, p) + Walk(s.heap, s.parts[p].head, s.parts[p].size) == AllPutIn(n, ls, p))
  {
    Simulates(n, ls);
    if ls != [] {
      var before, l := ls[..|ls| - 1], ls[|ls| - 1];
      var s, r := MExec(n, before), MExec(n, ls);
      Flow(n, before, p);
      Simulates(n, before);
      FlowStep(s, l, p);
      Chain(AllTakenOut(n, before, p), TakenOut(s, l, p), Contents(r.heap, r.parts[p].chain),
            Contents(s.heap, s.parts[p].chain), AllPutIn(n, before, p), PutIn(s, l, p));
    }
    if Still(MExec(n, ls), p) {
      WalkIsQueue(n, ls, p);
    }
  }

  lemma Chain(out: seq<Msg>, more: seq<Msg>, after: seq<Msg>, q: seq<Msg>, put: seq<Msg>, new': seq<Msg>)
    requires out + q == put && more + after == q + new'
    ensures out + more + after == put + new'
  {
    assert out + more + after == out + (more + after);
    assert out + (q + new') == out + q + new';
  }

  // ----- what the calls return

  /** The messages of the nodes that call t gave back. */
  ghost function GivenBackBy(n: nat, ls: seq<Label>, t: nat): seq<Msg>
    requires MLegal(n, ls)
  {
    if ls == [] then []
    else
      var before, l := ls[..|ls| - 1], ls[|ls| - 1];
      GivenBackBy(n, before, t) + GivesBack(MExec(n, before), l, t)
  }

  ghost function GivesBack(s: MState, l: Label, t: nat): seq<Msg>
    requires MCan(s, l)
  {
    if l == Go(t) && s.calls[t].pc.Shrunk? then [MsgAt(s.heap, s.calls[t].pc.x)] else []
  }

  /** What the events of an atomic step are when its call is in the middle of an operation. */
  lemma EventOfCommit(s: MState, u: nat, t: nat)
    requires MInv(s) && MEnabled(s, u) && Enabled(Abs(s), u)
    ensures Commits(s.calls[u]) ==>
              PoppedBy(EventOf(Abs(s), Go(u)), t) == GivesBack(s, Go(u), t)
    ensures !Commits(s.calls[u]) ==> GivesBack(s, Go(u), t) == []
  {
    var c := s.calls[u];
    var a := Abs(s);
    Fits(s, u);
    CallsRefine(s, u);
    PoppedOfCall(s.heap, s.parts[c.op.p], c, u, t);
    assert a.calls[u] == AbsCall(c) && a.queues[c.op.p] == Contents(s.heap, s.parts[c.op.p].chain);
    hide MInv, LocalMem, LocalLog, Rest, Mutates, Abs, MEnabled, Commits, Contents, EventAt, Enabled;
  }

  lemma PoppedOfCall(heap: seq<Node>, part: Part, c: MCall, u: nat, t: nat)
    requires LocalMem(heap, part, c) && PcFits(AbsCall(c))
    requires !c.pc.At? ==> Mutates(c) || Rest(heap, c.op.p, part)
    ensures var one := EventAt(AbsCall(c), Contents(heap, part.chain), u);
            Commits(c) ==>
              PoppedBy(one, t) == if u == t && c.pc.Shrunk? then [MsgAt(heap, c.pc.x)] else []
  {
    var one := EventAt(AbsCall(c), Contents(heap, part.chain), u);
    if c.pc.Shrunk? {
      assert NodeOk(heap, c.op.p, part.chain, 0);
    }
    if one != [] {
      assert one[..|one| - 1] == [] && PoppedBy([], t) == [];
    }
  }

  lemma {:induction false} GivenBackIsPopped(n: nat, ls: seq<Label>, t: nat)
    requires MLegal(n, ls)
    ensures Legal(n, AtomicRun(n, ls))
    ensures GivenBackBy(n, ls, t) == PoppedBy(Events(n, AtomicRun(n, ls)), t)
  {
    Simulates(n, ls);
    if ls != [] {
      var before, l := ls[..|ls| - 1], ls[|ls| - 1];
      var s, run := MExec(n, before), AtomicRun(n, before);
      GivenBackIsPopped(n, before, t);
      Simulates(n, before);
      if l.Start? {
        StartKeeps(s, l.t, l.op);
        EventsAppend(n, run, l, t);
      } else {
        Refines(s, l.t);
        if Commits(s.calls[l.t]) {
          EventOfCommit(s, l.t, t);
          EventsAppend(n, run, l, t);
        } else {
          GivesNothing(s, l.t, t);
          assert run + [] == run;
        }
      }
    }
  }

  lemma GivesNothing(s: MState, u: nat, t: nat)
    requires MEnabled(s, u) && !Commits(s.calls[u])
    ensures GivesBack(s, Go(u), t) == []
  {
  }

  lemma EventsAppend(n: nat, run: seq<Label>, l: Label, t: nat)
    requires Legal(n, run) && Can(Exec(n, run), l)
    ensures Legal(n, run + [l])
    ensures PoppedBy(Events(n, run + [l]), t) == PoppedBy(Events(n, run), t) + PoppedBy(EventOf(Exec(n, run), l), t)
    ensures l.Start? ==> EventOf(Exec(n, run), l) == []
  {
    Append(n, run, l);
    assert (run + [l])[..|run + [l]| - 1] == run;
    OneCall(Exec(n, run), l);
    hide PoppedBy, Enabled, EventAt, Do, Can;
    PoppedByMore(Events(n, run), EventOf(Exec(n, run), l), t);
  }

  lemma PoppedByMore(ev: seq<Event>, one: seq<Event>, t: nat)
    requires |one| <= 1
    ensures PoppedBy(ev + one, t) == PoppedBy(ev, t) + PoppedBy(one, t)
  {
    OneMore(ev, one, 0, t);
    hide PushedTo, PoppedFrom, StoredBy, SeenBy, Records;
    if one != [] {
      assert one[..|one| - 1] == [] && PoppedBy([], t) == [];
    }
  }

  /** A remove that returned true gave back one node, which held its own message; one that returned
      false gave back none, and one of its reads of the front had found another message. */
  lemma RemoveOutcome(n: nat, ls: seq<Label>, t: nat, popped: bool)
    requires MLegal(n, ls) && t in MExec(n, ls).calls && MExec(n, ls).calls[t].pc == At(Done(Removed(popped)))
    requires MExec(n, ls).calls[t].op.Remove?
    ensures GivenBackBy(n, ls, t) == if popped then [MExec(n, ls).calls[t].op.m] else []
    ensures Legal(n, AtomicRun(n, ls)) && |SeenBy(Events(n, AtomicRun(n, ls)), t)| == if popped then 0 else 1
  {
    hide GivenBackBy, Events, SeenBy, PoppedBy, StoredBy, MInv, AtomicRun, MExec, Exec, Legal, MLegal;
    Simulates(n, ls);
    GivenBackIsPopped(n, ls, t);
    AbsAt(MExec(n, ls), t);
    hide Abs, AbsCall;
    Outcome(n, AtomicRun(n, ls), t);
  }

  /** The messages of the nodes that call t linked. */
  ghost function LinkedBy(n: nat, ls: seq<Label>, t: nat): seq<Msg>
    requires MLegal(n, ls)
  {
    if ls == [] then []
    else
      var before, l := ls[..|ls| - 1], ls[|ls| - 1];
      LinkedBy(n, before, t) + LinksOne(MExec(n, before), l, t)
  }

  ghost function LinksOne(s: MState, l: Label, t: nat): seq<Msg>
    requires MCan(s, l)
  {
    if l == Go(t) && s.calls[t].pc.Sized? then [MsgAt(s.heap, s.calls[t].pc.x)] else []
  }

  /** What a call has linked, read off its program counter. */
  function LinkedOf(c: MCall): seq<Msg> {
    if c.op.Push? && (c.pc == At(Applied) || c.pc == At(Done(Pushed))) then [c.op.m] else []
  }

  function LinkedSoFar(calls: map<nat, MCall>, t: nat): seq<Msg> {
    if t in calls then LinkedOf(calls[t]) else []
  }

  lemma LinksStep(s: MState, l: Label, t: nat)
    requires MInv(s) && MCan(s, l)
    ensures LinkedSoFar(s.calls, t) + LinksOne(s, l, t) == LinkedSoFar(MDo(s, l).calls, t)
  {
    if l == Go(t) {
      OwnLinks(s, t);
    } else {
      hide MInv, MEnabled, LinkedOf, MNext, HeapNext, PartNext, FileNext, BufNext, PutNext;
      if l.Start? {
        LinksNothing(l.op);
      }
    }
  }

  lemma OwnLinks(s: MState, t: nat)
    requires MInv(s) && MEnabled(s, t)
    ensures LinkedSoFar(s.calls, t) + LinksOne(s, Go(t), t) == LinkedSoFar(MStep(s, t).calls, t)
  {
    Fits(s, t);
    NotDone(s, t);
    var c := s.calls[t];
    LinksOfCall(s.heap, s.parts[c.op.p], s.put, c);
    hide MInv, MEnabled, LocalMem, LocalLog, Rest, MNext, PcFits, LinkedOf, AbsCall, HeapNext, PartNext;
    hide BufNext, PutNext, FileNext, Mutates, HoldsRead, HoldsWrite;
  }

  lemma LinksNothing(op: Op)
    ensures LinkedOf(MCall(op, At(FirstPc(op)))) == []
  {
  }

  lemma LinksOfCall(heap: seq<Node>, part: Part, put: nat, c: MCall)
    requires LocalMem(heap, part, c) && PcFits(AbsCall(c)) && !(c.pc.TookHead? && c.pc.h.None?)
    requires !(c.pc.At? && c.pc.pc.Done?)
    ensures LinkedOf(c) + (if c.pc.Sized? then [MsgAt(heap, c.pc.x)] else [])
         == LinkedOf(c.(pc := MNext(c, heap, part, put)))
  {
  }

  /** A push that has returned linked one node, which holds its own message; a read or a remove links
      none. */
  lemma {:induction false} PushOutcome(n: nat, ls: seq<Label>, t: nat)
    requires MLegal(n, ls)
    ensures LinkedBy(n, ls, t) == LinkedSoFar(MExec(n, ls).calls, t)
    ensures t in MExec(n, ls).calls && MExec(n, ls).calls[t].pc == At(Done(Pushed)) ==>
              MExec(n, ls).calls[t].op.Push? && LinkedBy(n, ls, t) == [MExec(n, ls).calls[t].op.m]
    ensures t in MExec(n, ls).calls && !MExec(n, ls).calls[t].op.Push? ==> LinkedBy(n, ls, t) == []
  {
    Simulates(n, ls);
    if t in MExec(n, ls).calls {
      Fits(MExec(n, ls), t);
    }
    hide MInv, LocalMem, LocalLog, Rest, MDo, MCan, Legal, Exec, Abs, AtomicRun;
    if ls == [] {
      assert MExec(n, ls).calls == map[];
    } else {
      var before := ls[..|ls| - 1];
      PushOutcome(n, before, t);
      Simulates(n, before);
      LinksStep(MExec(n, before), ls[|ls| - 1], t);
      hide LinkedSoFar, LinksOne;
    }
  }

  /** In the state behind the first k steps the links from head of partition p hold q, as many nodes as
      the size says. */
  ghost predicate Shows(n: nat, ls: seq<Label>, k: nat, p: nat, q: seq<Msg>) {
    && k <= |ls| && MLegal(n, ls[..k])
    && ShowsNow(MExec(n, ls[..k]), p, q)
  }

  ghost predicate ShowsNow(s: MState, p: nat, q: seq<Msg>) {
    p < |s.parts| && s.parts[p].size >= 0 && Walk(s.heap, s.parts[p].head, s.parts[p].size) == q
  }

  ghost predicate ShowsFrom(n: nat, ls: seq<Label>, from: nat, to: nat, p: nat, q: seq<Msg>) {
    forall k :: from < k <= to ==> Shows(n, ls, k, p, q)
  }

  /** Call t is in the middle of a read: it has its lock and has not given it back. */
  predicate InRead(s: MState, t: nat) {
    t in s.calls && s.calls[t].op.Read? && HoldsRead(AbsCall(s.calls[t]))
  }

  lemma HeldShows(s: MState, t: nat)
    requires MInv(s) && InRead(s, t)
    ensures s.calls[t].op.p < |s.parts|
    ensures var p := s.calls[t].op.p; ShowsNow(s, p, Contents(s.heap, s.parts[p].chain))
    ensures Rest(s.heap, s.calls[t].op.p, s.parts[s.calls[t].op.p])
    ensures LocalMem(s.heap, s.parts[s.calls[t].op.p], s.calls[t])
  {
    var c := s.calls[t];
    Fits(s, t);
    MutatorsAreWriters(c);
    hide MInv, LocalLog;
    WalkFrom(s.heap, c.op.p, s.parts[c.op.p].chain, 0);
    assert Contents(s.heap, s.parts[c.op.p].chain)[0..] == Contents(s.heap, s.parts[c.op.p].chain);
  }

  lemma MutatorsAreWriters(c: MCall)
    ensures HoldsRead(AbsCall(c)) ==> !Mutates(c)
  {
  }

  /** Nobody changes the queue under a read lock. */
  lemma UnderReadLock(s: MState, l: Label, t: nat, q: seq<Msg>)
    requires MInv(s) && MCan(s, l) && MInv(MDo(s, l)) && InRead(s, t) && InRead(MDo(s, l), t)
    requires ShowsNow(s, s.calls[t].op.p, q)
    ensures MDo(s, l).calls[t].op == s.calls[t].op && ShowsNow(MDo(s, l), s.calls[t].op.p, q)
  {
    var r, p := MDo(s, l), s.calls[t].op.p;
    HeldShows(s, t);
    HeldShows(r, t);
    assert r.calls[t].op == s.calls[t].op;
    if l.Go? {
      QueuesAfter(s, l.t, p);
      if l.t != t {
        KeptApart(s, t, l.t);
      }
      hide LocalMem, Rest, Mutates, Walk, Contents, MStep, MEnabled;
    }
    hide MInv;
  }

  /** What a read is about to return is the front of the queue that shows. */
  lemma ReadsFront(s: MState, t: nat, q: seq<Msg>)
    requires MInv(s) && MEnabled(s, t) && InRead(s, t) && ShowsNow(s, s.calls[t].op.p, q)
    requires !s.calls[t].pc.At? || s.calls[t].pc.pc.Reading?
    ensures Front(MStep(s, t).calls[t], q)
  {
    HeldShows(s, t);
    var c, part := s.calls[t], s.parts[s.calls[t].op.p];
    FrontOfCall(s.heap, part, s.put, c, q);
    hide MInv, Walk, MNext, Front, LocalMem, Rest;
  }

  lemma FrontOfCall(heap: seq<Node>, part: Part, put: nat, c: MCall, q: seq<Msg>)
    requires LocalMem(heap, part, c) && Rest(heap, c.op.p, part) && q == Contents(heap, part.chain)
    requires c.op.Read? && (c.pc == At(Reading) || c.pc.SawSize? || (c.pc.TookHead? && c.pc.h.Some?))
    ensures Front(c.(pc := MNext(c, heap, part, put)), q)
  {
    hide ChainOk;
  }

  lemma ShowsLonger(n: nat, ls: seq<Label>, before: seq<Label>, from: nat, to: nat, p: nat, q: seq<Msg>)
    requires ls != [] && before == ls[..|ls| - 1] && to <= |before| && ShowsFrom(n, before, from, to, p, q)
    ensures ShowsFrom(n, ls, from, to, p, q)
  {
    hide ShowsNow;
    forall k | from < k <= to
      ensures Shows(n, ls, k, p, q)
    {
      assert Shows(n, before, k, p, q) && before[..k] == ls[..k];
    }
  }

  lemma ShowsLast(n: nat, ls: seq<Label>, from: nat, p: nat, q: seq<Msg>)
    requires MLegal(n, ls) && ls != [] && ShowsNow(MExec(n, ls), p, q) && ShowsFrom(n, ls, from, |ls| - 1, p, q)
    ensures ShowsFrom(n, ls, from, |ls|, p, q)
  {
    hide ShowsNow;
    assert ls[..|ls|] == ls;
  }

  /** Call t took its read lock in step from. */
  ghost predicate LockedAt(n: nat, ls: seq<Label>, from: nat, t: nat) {
    && from < |ls| && ls[from] == Go(t) && MLegal(n, ls[..from])
    && t in MExec(n, ls[..from]).calls && MExec(n, ls[..from]).calls[t].pc == At(WantRead)
  }

  lemma LockedLonger(n: nat, ls: seq<Label>, before: seq<Label>, from: nat, t: nat)
    requires ls != [] && before == ls[..|ls| - 1] && LockedAt(n, before, from, t)
    ensures LockedAt(n, ls, from, t)
  {
    assert before[..from] == ls[..from];
  }

  predicate Front(c: MCall, q: seq<Msg>) {
    c.pc.At? && c.pc.pc.Leaving? && c.pc.pc.ret.Got? ==>
      c.pc.pc.ret.message == if q == [] then None else Some(q[0])
  }

  /** A read that holds its lock has a step at which it took the lock; the queue that shows now has
      shown ever since, and what the read is about to return is the front of it. */
  lemma {:induction false} ReadSince(n: nat, ls: seq<Label>, t: nat, q: seq<Msg>) returns (from: nat)
    requires MLegal(n, ls) && InRead(MExec(n, ls), t) && ShowsNow(MExec(n, ls), MExec(n, ls).calls[t].op.p, q)
    ensures LockedAt(n, ls, from, t) && ShowsFrom(n, ls, from, |ls|, MExec(n, ls).calls[t].op.p, q)
    ensures Front(MExec(n, ls).calls[t], q)
    decreases |ls|
  {
    hide MInv, Walk, LocalMem, Contents, MStep, MEnabled, MDo, MCan, ShowsNow, InRead, LockedAt, ShowsFrom, Front,
         MInit;
    hide AtomicRun, Legal, Exec, Rest;
    NoReadAtFirst(n, t);
    var before, l := ls[..|ls| - 1], ls[|ls| - 1];
    var s, r := MExec(n, before), MExec(n, ls);
    Simulates(n, before);
    Simulates(n, ls);
    if l == Go(t) && t in s.calls && s.calls[t].pc == At(WantRead) {
      from := |before|;
      Locks(n, ls, t, q);
    } else {
      StillInRead(s, l, t);
      HeldShows(s, t);
      var p := s.calls[t].op.p;
      var was := Contents(s.heap, s.parts[p].chain);
      UnderReadLock(s, l, t, was);
      SameShown(r, p, was, q);
      from := ReadSince(n, before, t, q);
      ShowsLonger(n, ls, before, from, |before|, p, q);
      ShowsLast(n, ls, from, p, q);
      LockedLonger(n, ls, before, from, t);
      ReadReturns(s, l, t, q);
    }
  }

  lemma NoReadAtFirst(n: nat, t: nat)
    ensures !InRead(MInit(n), t)
  {
  }

  lemma SameShown(s: MState, p: nat, q: seq<Msg>, q': seq<Msg>)
    requires ShowsNow(s, p, q) && ShowsNow(s, p, q')
    ensures q == q'
  {
  }

  lemma Locks(n: nat, ls: seq<Label>, t: nat, q: seq<Msg>)
    requires MLegal(n, ls) && ls != [] && ls[|ls| - 1] == Go(t) && InRead(MExec(n, ls), t)
    requires t in MExec(n, ls[..|ls| - 1]).calls && MExec(n, ls[..|ls| - 1]).calls[t].pc == At(WantRead)
    requires ShowsNow(MExec(n, ls), MExec(n, ls).calls[t].op.p, q)
    ensures LockedAt(n, ls, |ls| - 1, t) && ShowsFrom(n, ls, |ls| - 1, |ls|, MExec(n, ls).calls[t].op.p, q)
    ensures Front(MExec(n, ls).calls[t], q)
  {
    hide ShowsNow;
    assert ls[..|ls|] == ls;
  }

  lemma StillInRead(s: MState, l: Label, t: nat)
    requires MInv(s) && MCan(s, l) && InRead(MDo(s, l), t)
    requires !(l == Go(t) && t in s.calls && s.calls[t].pc == At(WantRead))
    ensures t in s.calls && InRead(s, t) && s.calls[t].op == MDo(s, l).calls[t].op
  {
    if l == Go(t) {
      Fits(s, t);
      hide MInv, LocalLog, Rest;
    }
  }

  lemma ReadReturns(s: MState, l: Label, t: nat, q: seq<Msg>)
    requires MInv(s) && MCan(s, l) && InRead(s, t) && ShowsNow(s, s.calls[t].op.p, q) && Front(s.calls[t], q)
    ensures t in MDo(s, l).calls && Front(MDo(s, l).calls[t], q)
  {
    hide MInv, Walk, MEnabled, LocalMem, AbsCall, MNext, Front;
    if l == Go(t) {
      var c := s.calls[t];
      if c.pc.At? && !c.pc.pc.Reading? {
        FrontKept(s.heap, s.parts[c.op.p], s.put, c, q);
      } else {
        ReadsFront(s, t, q);
      }
    }
  }

  lemma FrontKept(heap: seq<Node>, part: Part, put: nat, c: MCall, q: seq<Msg>)
    requires c.pc.At? && !c.pc.pc.Reading? && HoldsRead(AbsCall(c))
    ensures Front(c.(pc := MNext(c, heap, part, put)), q)
  {
  }

  /** A read that has returned: from the step at which it took its lock to the step at which it gave
      the lock back, the links of its partition held one queue, and it returned the front of that, or
      nothing if that was empty. */
  lemma {:induction false} ReadOutcome(n: nat, ls: seq<Label>, t: nat, x: Option<Msg>)
    returns (from: nat, to: nat, q: seq<Msg>)
    requires MLegal(n, ls) && t in MExec(n, ls).calls && MExec(n, ls).calls[t].pc == At(Done(Got(x)))
    ensures from < to < |ls| && ls[to] == Go(t)
    ensures LockedAt(n, ls, from, t) && ShowsFrom(n, ls, from, to, MExec(n, ls).calls[t].op.p, q)
    ensures q == [] <==> x == None
    ensures q != [] ==> x == Some(q[0])
    decreases |ls|
  {
    hide MInv, Walk, LocalMem, Contents, MStep, MEnabled, MDo, MCan, ShowsNow, InRead, LockedAt, ShowsFrom, MInit;
    hide Abs, AtomicRun, Legal, Exec, Rest;
    NoCallAtFirst(n, t);
    var before, l := ls[..|ls| - 1], ls[|ls| - 1];
    var s := MExec(n, before);
    Simulates(n, before);
    Simulates(n, ls);
    var c := BeforeReturn(s, l, t, x);
    var p := c.op.p;
    if l == Go(t) {
      HeldShows(s, t);
      q := Contents(s.heap, s.parts[p].chain);
      from := ReadSince(n, before, t, q);
      to := |before|;
    } else {
      from, to, q := ReadOutcome(n, before, t, x);
    }
    LockedLonger(n, ls, before, from, t);
    LockedBefore(n, before, from, t);
    ShowsLonger(n, ls, before, from, to, p, q);
  }

  lemma LockedBefore(n: nat, ls: seq<Label>, from: nat, t: nat)
    requires LockedAt(n, ls, from, t)
    ensures from < |ls|
  {
  }

  lemma NoCallAtFirst(n: nat, t: nat)
    ensures t !in MInit(n).calls
  {
  }

  lemma BeforeReturn(s: MState, l: Label, t: nat, x: Option<Msg>) returns (c: MCall)
    requires MInv(s) && MCan(s, l) && t in MDo(s, l).calls && MDo(s, l).calls[t].pc == At(Done(Got(x)))
    ensures t in s.calls && c == s.calls[t] && MDo(s, l).calls[t].op == c.op
    ensures c.pc == if l == Go(t) then At(Leaving(Got(x))) else At(Done(Got(x)))
    ensures l == Go(t) ==> InRead(s, t)
  {
    c := s.calls[t];
    if l == Go(t) {
      Fits(s, t);
      ReturnOfCall(s.heap, s.parts[c.op.p], s.put, c, x);
    }
    hide MInv, LocalMem, LocalLog, Rest, MNext, PcFits, MEnabled;
  }

  lemma ReturnOfCall(heap: seq<Node>, part: Part, put: nat, c: MCall, x: Option<Msg>)
    requires LocalMem(heap, part, c) && PcFits(AbsCall(c)) && !(c.pc.TookHead? && c.pc.h.None?)
    requires !(c.pc.At? && c.pc.pc.Done?) && MNext(c, heap, part, put) == At(Done(Got(x)))
    ensures c.pc == At(Leaving(Got(x))) && c.op.Read? && HoldsRead(AbsCall(c))
  {
  }

  // ----- the log

  /** The file replays to the linked nodes, except for the one operation whose call has flushed its
      record and still holds the write lock; cutting the run loses nothing that was answered. */
  lemma FileReplays(n: nat, ls: seq<Label>, p: nat)
    requires MLegal(n, ls) && p < n
    ensures |Abs(MExec(n, ls)).queues| == n && Replays(Abs(MExec(n, ls)), p)
    ensures var s := MExec(n, ls);
            (forall t :: t in s.calls && s.calls[t].op.p == p ==> !HoldsWrite(AbsCall(s.calls[t]))) ==>
              && s.parts[p].size >= 0
              && Replay(s.file, p) == Walk(s.heap, s.parts[p].head, s.parts[p].size)
  {
    Simulates(n, ls);
    Invariant(n, AtomicRun(n, ls));
    var s := MExec(n, ls);
    var a := Abs(s);
    if forall t :: t in s.calls && s.calls[t].op.p == p ==> !HoldsWrite(AbsCall(s.calls[t])) {
      forall t | t in s.calls && s.calls[t].op.p == p
        ensures !Mutates(s.calls[t])
      {
        ReadersDoNotMutate(s.calls[t]);
      }
      WalkIsQueue(n, ls, p);
      forall t | t in a.calls
        ensures !InFlight(a.calls[t], p)
      {
        assert a.calls[t] == AbsCall(s.calls[t]);
      }
    }
  }

  /** Every record is in the file once and whole, in the order in which the calls flushed. */
  lemma FileIsWhole(n: nat, ls: seq<Label>)
    requires MLegal(n, ls) && n > 0
    ensures Legal(n, AtomicRun(n, ls)) && MExec(n, ls).file == Records(Events(n, AtomicRun(n, ls)))
    ensures forall t ::
              t in MExec(n, ls).calls && MExec(n, ls).calls[t].pc in {At(Done(Pushed)), At(Done(Removed(true)))} ==>
                          StoredBy(Events(n, AtomicRun(n, ls)), t) == [RecordOfCall(AbsCall(MExec(n, ls).calls[t]))]
  {
    Simulates(n, ls);
    Fifo(n, AtomicRun(n, ls), 0);
    forall t | t in MExec(n, ls).calls && MExec(n, ls).calls[t].pc in {At(Done(Pushed)), At(Done(Removed(true)))}
      ensures StoredBy(Events(n, AtomicRun(n, ls)), t) == [RecordOfCall(AbsCall(MExec(n, ls).calls[t]))]
    {
      Outcome(n, AtomicRun(n, ls), t);
      assert Abs(MExec(n, ls)).calls[t] == AbsCall(MExec(n, ls).calls[t]);
    }
  }

  /** A push that has returned, and a remove that has returned true, has its record in the file, at a
      place that no other call shares. */
  lemma AnsweredIsInFile(n: nat, ls: seq<Label>, t: nat)
    requires MLegal(n, ls) && n > 0 && t in MExec(n, ls).calls
    requires MExec(n, ls).calls[t].pc in {At(Done(Pushed)), At(Done(Removed(true)))}
    ensures Legal(n, AtomicRun(n, ls))
    ensures var file, owners := MExec(n, ls).file, Owners(Events(n, AtomicRun(n, ls)));
            && |owners| == |file|
            && exists k :: 0 <= k < |file| && owners[k] == t && file[k] == RecordOfCall(AbsCall(MExec(n, ls).calls[t]))
  {
    Simulates(n, ls);
    AbsAt(MExec(n, ls), t);
    hide MExec, MLegal, AtomicRun, MInv;
    Acknowledged(n, AtomicRun(n, ls), t);
  }

  /** The file is only ever added to. */
  lemma {:induction false} FileGrows(n: nat, ls: seq<Label>, k: nat)
    requires MLegal(n, ls) && k <= |ls|
    ensures MLegal(n, ls[..k]) && MExec(n, ls[..k]).file <= MExec(n, ls).file
  {
    if k == |ls| {
      assert ls[..k] == ls;
    } else {
      var before := ls[..|ls| - 1];
      FileGrows(n, before, k);
      assert before[..k] == ls[..k];
      Simulates(n, before);
      if ls[|ls| - 1].Go? {
        OwnLog(MExec(n, before), ls[|ls| - 1].t);
      }
    }
  }

  // ----- progress

  /** No run deadlocks: while a call is unfinished, some call can take a step, or stands before the
      front of an empty queue. */
  lemma NeverStuck(n: nat, ls: seq<Label>, t: nat)
    requires MLegal(n, ls) && t in MExec(n, ls).calls && !AbsPc(MExec(n, ls).calls[t].pc).Done?
    ensures exists u :: MEnabled(MExec(n, ls), u) || NullRead(MExec(n, ls), u)
  {
    Simulates(n, ls);
    var s := MExec(n, ls);
    AbsAt(s, t);
    Progress(n, AtomicRun(n, ls), t);
    var u :| Enabled(Abs(s), u) || Undefined(Abs(s), u);
    MayGoOn(s, u);
  }

  lemma MayGoOn(s: MState, u: nat)
    requires MInv(s) && (Enabled(Abs(s), u) || Undefined(Abs(s), u))
    ensures MEnabled(s, u) || NullRead(s, u)
  {
  }

  /** Steps a call still has to take, at most. */
  function MRank(pc: MPc): nat {
    match pc
    case At(pc) =>
      if pc.WantRead? then 22 else if pc.Reading? then 21 else if pc.Passed? then 18
      else if pc.WantWrite? then 17 else if pc.Writing? then 16 else if pc.WantLog? then 14
      else if pc.HaveLog? then 13 else if pc.Stored? then 9 else if pc.Logged? then 8
      else if pc.Done? then 0 else 1
    case SawSize(_) => 20
    case TookHead(again, _) => if again then 15 else 19
    case PutAt(_) => 12
    case Placed(_) => 11
    case Counted => 10
    case GotTail(_) => 7
    case Made(_, _) => 6
    case Linked(_, _) => 5
    case Joined(_) => 4
    case Sized(_, _) => 3
    case GotHead(_) => 7
    case GotNext(_, _) => 6
    case HeadMoved(_) => 5
    case TailFixed(_) => 4
    case PopSized(_, _) => 3
    case Shrunk(_) => 2
  }

  lemma RankFalls(s: MState, t: nat)
    requires MEnabled(s, t)
    ensures t in s.calls && t in MStep(s, t).calls && MRank(MStep(s, t).calls[t].pc) < MRank(s.calls[t].pc)
    ensures forall u :: u in s.calls && u != t ==> u in MStep(s, t).calls && MStep(s, t).calls[u] == s.calls[u]
    ensures forall u :: u in MStep(s, t).calls ==> u in s.calls
  {
    NotDone(s, t);
  }

  /** Every call returns within 22 loads, stores and lock operations of its own. */
  lemma {:induction false} MemoryCallBound(n: nat, ls: seq<Label>, t: nat)
    requires MLegal(n, ls)
    ensures t in MExec(n, ls).calls ==> StepsOf(ls, t) + MRank(MExec(n, ls).calls[t].pc) <= 22
    ensures StepsOf(ls, t) <= 22 && (t !in MExec(n, ls).calls ==> StepsOf(ls, t) == 0)
  {
    hide MRank, MEnabled, MStep;
    if ls != [] {
      var before, l := ls[..|ls| - 1], ls[|ls| - 1];
      MemoryCallBound(n, before, t);
      if l.Go? {
        RankFalls(MExec(n, before), l.t);
      } else {
        FirstRank(l.op);
      }
    }
  }

  lemma FirstRank(op: Op)
    ensures MRank(At(FirstPc(op))) <= 22
  {
  }

  // ----- every run of the module Topic is a run of the memory

  lemma Extend(n: nat, ls: seq<Label>, l: Label)
    requires MLegal(n, ls) && MCan(MExec(n, ls), l)
    ensures MLegal(n, ls + [l]) && MExec(n, ls + [l]) == MDo(MExec(n, ls), l)
    ensures AtomicRun(n, ls + [l]) ==
              AtomicRun(n, ls) + if l.Start? || Commits(MExec(n, ls).calls[l.t]) then [l] else []
  {
    assert (ls + [l])[..|ls + [l]| - 1] == ls;
  }

  lemma AtomicMayStart(s: MState, t: nat)
    requires MInv(s) && Enabled(Abs(s), t)
    ensures MEnabled(s, t)
  {
    AbsEnabled(s, t);
    Fits(s, t);
  }

  lemma AbsEnabled(s: MState, t: nat)
    requires Enabled(Abs(s), t)
    ensures t in s.calls && s.calls[t].op.p < |s.parts| && MayGo(AbsCalls(s.calls), t)
    ensures Abs(s).queues[s.calls[t].op.p] == Contents(s.heap, s.parts[s.calls[t].op.p].chain)
    ensures s.calls[t].op.Remove? && s.calls[t].pc.TookHead? ==> s.parts[s.calls[t].op.p].chain != []
  {
    AbsCallOf(s, t);
  }

  lemma AbsCallOf(s: MState, t: nat)
    requires t in Abs(s).calls
    ensures t in s.calls && Abs(s).calls[t] == AbsCall(s.calls[t])
  {
  }

  /** One of the loads and stores that it takes. */
  lemma BurstStep(n: nat, ls: seq<Label>, t: nat) returns (done: bool)
    requires MLegal(n, ls) && Enabled(Abs(MExec(n, ls)), t)
    ensures var more := ls + [Go(t)];
            && MLegal(n, more) && AtomicRun(n, more) == AtomicRun(n, ls) + (if done then [Go(t)] else [])
            && (!done ==> Enabled(Abs(MExec(n, more)), t) && LeftOf(MExec(n, more), t) < LeftOf(MExec(n, ls), t))
  {
    Simulates(n, ls);
    var s := MExec(n, ls);
    AtomicMayStart(s, t);
    Extend(n, ls, Go(t));
    RankFalls(s, t);
    Refines(s, t);
    done := Commits(s.calls[t]);
    hide MInv, Abs, Enabled, Commits, MRank, MLegal, AtomicRun;
  }

  ghost function LeftOf(s: MState, t: nat): nat {
    if t in s.calls then MRank(s.calls[t].pc) else 0
  }

  /** From wherever call t stands, its own loads and stores bring about its next atomic step. */
  lemma Burst(n: nat, ls: seq<Label>, t: nat) returns (ext: seq<Label>)
    requires MLegal(n, ls) && Enabled(Abs(MExec(n, ls)), t)
    ensures MLegal(n, ls + ext) && AtomicRun(n, ls + ext) == AtomicRun(n, ls) + [Go(t)]
    ensures forall i :: 0 <= i < |ext| ==> ext[i] == Go(t)
    decreases LeftOf(MExec(n, ls), t)
  {
    hide MInv, Abs, Enabled, MRank, MLegal, AtomicRun, MExec, LeftOf;
    var done := BurstStep(n, ls, t);
    ext := [Go(t)];
    if !done {
      var more := ls + ext;
      assert AtomicRun(n, more) == AtomicRun(n, ls);
      var rest := Burst(n, more, t);
      ext := ext + rest;
      assert ls + ext == more + rest;
    }
  }

  /** Every continuation that the module Topic allows is brought about by loads and stores, with the
      same calls started. */
  lemma {:induction false} Realise(n: nat, ls: seq<Label>, run: seq<Label>, p: nat) returns (ext: seq<Label>)
    requires MLegal(n, ls) && Legal(n, AtomicRun(n, ls) + run)
    ensures MLegal(n, ls + ext) && AtomicRun(n, ls + ext) == AtomicRun(n, ls) + run
    ensures RemovesStarted(ext, p) == RemovesStarted(run, p)
    decreases |run|
  {
    hide MInv, Abs, Enabled, MLegal, AtomicRun, MExec, MEnabled;
    if run == [] {
      ext := [];
      assert ls + ext == ls && AtomicRun(n, ls) + run == AtomicRun(n, ls);
    } else {
      var m, l := |run| - 1, run[|run| - 1];
      var all := AtomicRun(n, ls) + run;
      assert all[..|all| - 1] == AtomicRun(n, ls) + run[..m];
      ext := Realise(n, ls, run[..m], p);
      var more := ls + ext;
      Simulates(n, more);
      var last := RealiseOne(n, more, l);
      StartedAppend(ext, last, p);
      SameStarts(last, l, p);
      ext := ext + last;
      assert ls + ext == more + last;
      assert AtomicRun(n, ls) + run == AtomicRun(n, ls) + run[..m] + [l];
    }
  }

  lemma RealiseOne(n: nat, ls: seq<Label>, l: Label) returns (ext: seq<Label>)
    requires MLegal(n, ls) && Can(Abs(MExec(n, ls)), l)
    ensures MLegal(n, ls + ext) && AtomicRun(n, ls + ext) == AtomicRun(n, ls) + [l]
    ensures l.Start? ==> ext == [l]
    ensures l.Go? ==> forall i :: 0 <= i < |ext| ==> ext[i] == l
  {
    match l
    case Start(t, op) =>
      Extend(n, ls, l);
      ext := [l];
    case Go(t) => ext := Burst(n, ls, t);
  }

  lemma {:induction false} SameStarts(ext: seq<Label>, l: Label, p: nat)
    requires (l.Start? && ext == [l]) || (l.Go? && forall i :: 0 <= i < |ext| ==> ext[i] == l)
    ensures RemovesStarted(ext, p) == One(StartsRemove(l, p))
  {
    if l.Start? {
      assert ext[..|ext| - 1] == [];
    } else if ext != [] {
      SameStarts(ext[..|ext| - 1], l, p);
    }
  }

  // ----- how many removes a partition bears

  /** No call of p stands before a null pointer. */
  ghost predicate MDefined(s: MState, p: nat) {
    forall t :: t in s.calls && s.calls[t].op.p == p ==> !NullRead(s, t)
  }

  ghost predicate MBears(n: nat, ls: seq<Label>, p: nat, k: nat) {
    forall ext | MLegal(n, ls + ext) && RemovesStarted(ext, p) <= k :: MDefined(MExec(n, ls + ext), p)
  }

  /** A null pointer is read just where the front of an empty queue is. */
  lemma NullIsUndefined(s: MState, t: nat)
    requires MInv(s) && NullRead(s, t)
    ensures Undefined(Abs(s), t)
  {
    Fits(s, t);
    AbsAt(s, t);
    var p := s.calls[t].op.p;
    assert s.parts[p].chain == [];
    assert Abs(s).queues[p] == Contents(s.heap, s.parts[p].chain);
  }

  lemma LastStep(n: nat, ls: seq<Label>, before: seq<Label>, l: Label) returns (one: seq<Label>)
    requires MLegal(n, ls) && ls == before + [l]
    ensures MLegal(n, before) && AtomicRun(n, ls) == AtomicRun(n, before) + one
    ensures one == [l] || (one == [] && l.Go?)
  {
    assert ls[..|ls| - 1] == before;
    one := if l.Start? || Commits(MExec(n, before).calls[l.t]) then [l] else [];
  }

  /** A longer run takes effect in the same steps, and then in some of the further ones. */
  lemma {:induction false} AtomicPrefix(n: nat, ls: seq<Label>, ext: seq<Label>, p: nat) returns (run: seq<Label>)
    requires MLegal(n, ls + ext)
    ensures MLegal(n, ls) && AtomicRun(n, ls + ext) == AtomicRun(n, ls) + run
    ensures RemovesStarted(run, p) == RemovesStarted(ext, p)
    decreases |ext|
  {
    hide MLegal, AtomicRun;
    if ext == [] {
      run := [];
      assert ls + ext == ls;
      assert AtomicRun(n, ls) + run == AtomicRun(n, ls);
    } else {
      var m, l := |ext| - 1, ext[|ext| - 1];
      assert ls + ext == ls + ext[..m] + [l];
      var one := LastStep(n, ls + ext, ls + ext[..m], l);
      run := AtomicPrefix(n, ls, ext[..m], p);
      StartedAppend(run, one, p);
      OneStart(one, l, p);
      assert AtomicRun(n, ls) + (run + one) == AtomicRun(n, ls) + run + one;
      run := run + one;
    }
  }

  lemma OneStart(one: seq<Label>, l: Label, p: nat)
    requires one == [l] || (one == [] && l.Go?)
    ensures RemovesStarted(one, p) == One(StartsRemove(l, p))
  {
    if one == [l] {
      assert one[..|one| - 1] == [];
    }
  }

  lemma MemoryBears(n: nat, ls: seq<Label>, p: nat, k: nat)
    requires MLegal(n, ls) && Legal(n, AtomicRun(n, ls)) && Bears(n, AtomicRun(n, ls), p, k)
    ensures MBears(n, ls, p, k)
  {
    forall ext | MLegal(n, ls + ext) && RemovesStarted(ext, p) <= k
      ensures MDefined(MExec(n, ls + ext), p)
    {
      var run := AtomicPrefix(n, ls, ext, p);
      Simulates(n, ls + ext);
      assert Defined(Exec(n, AtomicRun(n, ls) + run), p);
      DefinedInMemory(MExec(n, ls + ext), p);
    }
  }

  lemma DefinedInMemory(s: MState, p: nat)
    requires MInv(s) && Defined(Abs(s), p)
    ensures MDefined(s, p)
  {
    forall t | t in s.calls && s.calls[t].op.p == p
      ensures !NullRead(s, t)
    {
      if NullRead(s, t) {
        NullIsUndefined(s, t);
        AbsAt(s, t);
      }
    }
  }

  /** A remove that stands before the front of an empty queue is one load away from a null pointer, if
      it has not made that load yet. */
  lemma LoadsNull(n: nat, ls: seq<Label>, t: nat) returns (ext: seq<Label>)
    requires MLegal(n, ls) && Undefined(Abs(MExec(n, ls)), t)
    ensures MLegal(n, ls + ext) && NullRead(MExec(n, ls + ext), t) && forall p :: RemovesStarted(ext, p) == 0
    ensures MExec(n, ls + ext).calls[t].op == MExec(n, ls).calls[t].op
  {
    Simulates(n, ls);
    var s := MExec(n, ls);
    AbsCallOf(s, t);
    if NullRead(s, t) {
      ext := [];
      assert ls + ext == ls;
    } else {
      StandsBefore(s, t);
      ext := [Go(t)];
      assert ext[..|ext| - 1] == [];
      Extend(n, ls, Go(t));
    }
  }

  lemma StandsBefore(s: MState, t: nat)
    requires MInv(s) && Undefined(Abs(s), t) && !NullRead(s, t) && t in s.calls
    ensures MEnabled(s, t) && NullRead(MStep(s, t), t) && MStep(s, t).calls[t].op == s.calls[t].op
  {
    MayGoOn(s, t);
    AbsAt(s, t);
    Fits(s, t);
    var p := s.calls[t].op.p;
    assert Abs(s).queues[p] == Contents(s.heap, s.parts[p].chain);
    assert s.parts[p].chain == [];
  }

  lemma MemoryTooMany(n: nat, ls: seq<Label>, run: seq<Label>, p: nat) returns (ext: seq<Label>)
    requires MLegal(n, ls) && run == AtomicRun(n, ls) && Legal(n, run) && p < |Exec(n, run).queues|
             && Idle(Exec(n, run), p)
    ensures MLegal(n, ls + ext) && !MDefined(MExec(n, ls + ext), p)
    ensures RemovesStarted(ext, p) == |Exec(n, run).queues[p]| + 1
  {
    hide MLegal, AtomicRun, MExec, Exec, Legal, Abs, MInv, Undefined, NullRead, Idle, RemovesStarted;
    var more := OneTooMany(n, run, p);
    var rest := more[|run|..];
    assert more == run + rest;
    StartedAppend(run, rest, p);
    ext := Realise(n, ls, rest, p);
    Simulates(n, ls + ext);
    var t :| t in Exec(n, more).calls && Exec(n, more).calls[t].op.p == p && Undefined(Exec(n, more), t);
    AbsCallOf(MExec(n, ls + ext), t);
    var last := LoadsNull(n, ls + ext, t);
    StartedAppend(ext, last, p);
    assert ls + (ext + last) == ls + ext + last;
    NullHere(MExec(n, ls + ext + last), p, t);
    ext := ext + last;
  }

  lemma NullHere(s: MState, p: nat, t: nat)
    requires NullRead(s, t) && s.calls[t].op.p == p
    ensures !MDefined(s, p)
  {
  }

  /** Main result: a partition with no call in flight bears a batch of k removes, in every interleaving
      of their loads and stores, if and only if its size is at least k. */
  lemma MemoryBearsIff(n: nat, ls: seq<Label>, p: nat, k: nat)
    requires MLegal(n, ls) && p < n
    requires forall t :: t in MExec(n, ls).calls && MExec(n, ls).calls[t].op.p == p ==>
                           AbsPc(MExec(n, ls).calls[t].pc).Done?
    ensures |MExec(n, ls).parts| == n
    ensures MBears(n, ls, p, k) <==> k <= MExec(n, ls).parts[p].size
  {
    Simulates(n, ls);
    IdleInMemory(MExec(n, ls), p);
    hide MLegal, AtomicRun, MExec, Exec, Legal, Abs, MInv, Idle, Bears, MDefined;
    BearsIff(n, AtomicRun(n, ls), p, k);
    if k <= MExec(n, ls).parts[p].size {
      MemoryBears(n, ls, p, k);
    } else {
      var ext := MemoryTooMany(n, ls, AtomicRun(n, ls), p);
    }
  }

  lemma IdleInMemory(s: MState, p: nat)
    requires MInv(s) && p < |s.parts|
    requires forall t :: t in s.calls && s.calls[t].op.p == p ==> AbsPc(s.calls[t].pc).Done?
    ensures Idle(Abs(s), p) && |Abs(s).queues[p]| == s.parts[p].size
  {
    forall t | t in Abs(s).calls && Abs(s).calls[t].op.p == p
      ensures Abs(s).calls[t].pc.Done?
    {
      AbsCallOf(s, t);
    }
    assert Still(s, p);
    assert Rest(s.heap, p, s.parts[p]);
  }
}
