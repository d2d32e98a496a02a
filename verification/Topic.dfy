/** A topic as interleaved steps: any number of push, read and remove calls run as program
    counters over the partition queues, the partition read/write locks, the log mutex and the log.

    Here a queue or the log changes in one step, and a front is read in one. The module TopicMemory
    takes these steps apart into loads and stores and proves that, under the locks, its runs are runs
    of this module.

    Locks have the ordinary exclusive and shared meaning: a lock is held exactly by the calls whose
    program counter lies in its scope. A remove that reads the front of an empty partition follows
    a null pointer; such a call has no step here, and Undefined names the situation. */
module Topic {
  import opened Words

  type Msg = seq<byte>

  datatype Op = Push(p: nat, m: Msg) | Read(p: nat) | Remove(p: nat, m: Msg)

  datatype Ret = Pushed | Got(message: Option<Msg>) | Removed(popped: bool)

  datatype Pc =
    | WantRead            // before the partition's read lock
    | Reading             // read lock held, front not looked at yet
    | Passed              // remove: the front matched, read lock still held
    | Leaving(ret: Ret)   // read lock held, about to return
    | WantWrite           // before the partition's write lock
    | Writing             // write lock held
    | Refused             // remove: the front did not match, write lock held, about to return
    | WantLog             // write lock held, before the log mutex
    | HaveLog             // log mutex held, record not stored yet
    | Stored              // record stored, log mutex still held
    | Logged              // log mutex released, queue not changed yet
    | Applied             // queue changed, write lock still held
    | Done(ret: Ret)

  datatype Call = Call(op: Op, pc: Pc)

  datatype Record = Record(p: nat, push: bool, m: Msg)

  datatype State = State(calls: map<nat, Call>, queues: seq<seq<Msg>>, log: seq<Record>)

  /** A scheduler label: a new call t starts, or call t takes its next step. */
  datatype Label = Start(t: nat, op: Op) | Go(t: nat)

  predicate HoldsRead(c: Call) {
    c.pc.Reading? || c.pc.Passed? || c.pc.Leaving?
  }

  predicate HoldsLog(c: Call) {
    c.pc.HaveLog? || c.pc.Stored?
  }

  predicate HoldsWrite(c: Call) {
    c.pc.Writing? || c.pc.Refused? || c.pc.WantLog? || HoldsLog(c) || c.pc.Logged? || c.pc.Applied?
  }

  /** Reading the front would follow a null pointer. */
  predicate Undefined(s: State, t: nat) {
    && t in s.calls && s.calls[t].op.Remove? && (s.calls[t].pc.Reading? || s.calls[t].pc.Writing?)
    && s.calls[t].op.p < |s.queues| && s.queues[s.calls[t].op.p] == []
  }

  /** The locks call t waits for are free. */
  ghost predicate MayGo(calls: map<nat, Call>, t: nat) {
    && t in calls && !calls[t].pc.Done?
    && (calls[t].pc.WantRead? ==>
          forall u :: u in calls && calls[u].op.p == calls[t].op.p ==> !HoldsWrite(calls[u]))
    && (calls[t].pc.WantWrite? ==>
          forall u :: u in calls && calls[u].op.p == calls[t].op.p ==> !HoldsWrite(calls[u]) && !HoldsRead(calls[u]))
    && (calls[t].pc.WantLog? ==> forall u :: u in calls ==> !HoldsLog(calls[u]))
  }

  /** They are, and its next step is defined. */
  ghost predicate Enabled(s: State, t: nat) {
    MayGo(s.calls, t) && s.calls[t].op.p < |s.queues| && !Undefined(s, t)
  }

  ghost predicate Can(s: State, l: Label) {
    match l
    case Start(t, op) => t !in s.calls && op.p < |s.queues|
    case Go(t) => Enabled(s, t)
  }

  function FirstPc(op: Op): Pc {
    if op.Push? then WantWrite else WantRead
  }

  /** The program counter behind one step; q is the queue of the call's partition. */
  function NextPc(c: Call, q: seq<Msg>): Pc
    requires !c.pc.Done?
    requires c.op.Remove? && (c.pc.Reading? || c.pc.Writing?) ==> q != []
  {
    match c.pc
    case WantRead => Reading
    case Reading =>
      if c.op.Remove? then (if q[0] == c.op.m then Passed else Leaving(Removed(false)))
      else Leaving(Got(if q == [] then None else Some(q[0])))
    case Passed => WantWrite
    case Leaving(ret) => Done(ret)
    case WantWrite => Writing
    case Writing => if c.op.Remove? && q[0] != c.op.m then Refused else WantLog
    case Refused => Done(Removed(false))
    case WantLog => HaveLog
    case HaveLog => Stored
    case Stored => Logged
    case Logged => Applied
    case Applied => Done(if c.op.Remove? then Removed(true) else Pushed)
  }

  /** The queue operation of a push or a remove; popping an empty queue does nothing. */
  function Apply(op: Op, q: seq<Msg>): seq<Msg> {
    match op
    case Push(_, m) => q + [m]
    case Remove(_, _) => if q == [] then q else q[1..]
    case Read(_) => q
  }

  function RecordOf(op: Op): Record
    requires !op.Read?
  {
    Record(op.p, op.Push?, op.m)
  }

  /** One step of call t. */
  ghost function Step(s: State, t: nat): State
    requires Enabled(s, t)
  {
    var c := s.calls[t];
    var q := s.queues[c.op.p];
    State(s.calls[t := c.(pc := NextPc(c, q))],
          if c.pc.Logged? then s.queues[c.op.p := Apply(c.op, q)] else s.queues,
          if c.pc.HaveLog? && !c.op.Read? then s.log + [RecordOf(c.op)] else s.log)
  }

  ghost function Do(s: State, l: Label): State
    requires Can(s, l)
  {
    match l
    case Start(t, op) => s.(calls := s.calls[t := Call(op, FirstPc(op))])
    case Go(t) => Step(s, t)
  }

  function Init(n: nat): State {
    State(map[], seq(n, i => []), [])
  }

  /** The labels ls can be taken one after another from a topic of n empty partitions. */
  ghost predicate Legal(n: nat, ls: seq<Label>)
    decreases |ls|, 0
  {
    ls == [] || (Legal(n, ls[..|ls| - 1]) && Can(Exec(n, ls[..|ls| - 1]), ls[|ls| - 1]))
  }

  /** The state they lead to. */
  ghost function Exec(n: nat, ls: seq<Label>): State
    requires Legal(n, ls)
    decreases |ls|, 1
  {
    if ls == [] then Init(n) else Do(Exec(n, ls[..|ls| - 1]), ls[|ls| - 1])
  }

  /** The queue that a restart rebuilds for partition p from the log. */
  ghost function Replay(log: seq<Record>, p: nat): seq<Msg> {
    if log == [] then []
    else
      var r := log[|log| - 1];
      var q := Replay(log[..|log| - 1], p);
      if r.p != p then q else if r.push then q + [r.m] else if q == [] then q else q[1..]
  }

  /** The record of call t is in the log, but its queue operation has not been performed. */
  predicate InFlight(c: Call, p: nat) {
    (c.pc.Stored? || c.pc.Logged?) && c.op.p == p
  }

  /** The front of the partition is known to match: between the second test and the pop. */
  predicate Matched(c: Call) {
    c.op.Remove? && (c.pc.WantLog? || c.pc.HaveLog? || c.pc.Stored? || c.pc.Logged?)
  }

  predicate PcFits(c: Call) {
    match c.op
    case Push(_, _) => c.pc.WantWrite? || c.pc == Done(Pushed) || (HoldsWrite(c) && !c.pc.Refused?)
    case Read(_) =>
      || c.pc.WantRead? || c.pc.Reading?
      || (c.pc.Leaving? && c.pc.ret.Got?) || (c.pc.Done? && c.pc.ret.Got?)
    case Remove(_, _) =>
      && (c.pc.Leaving? ==> c.pc.ret == Removed(false))
      && (c.pc.Done? ==> c.pc.ret.Removed?)
  }

  ghost predicate Shape(s: State) {
    forall t :: t in s.calls ==> s.calls[t].op.p < |s.queues| && PcFits(s.calls[t])
  }

  /** Two different calls may hold their locks at the same time. */
  predicate Apart(a: Call, b: Call) {
    && (a.op.p == b.op.p && HoldsWrite(a) ==> !HoldsWrite(b) && !HoldsRead(b))
    && !(HoldsLog(a) && HoldsLog(b))
  }

  ghost predicate Exclusive(s: State) {
    forall t, u :: t in s.calls && u in s.calls && t != u ==> Apart(s.calls[t], s.calls[u])
  }

  ghost predicate HeadsMatch(s: State) {
    forall t :: t in s.calls && Matched(s.calls[t]) && s.calls[t].op.p < |s.queues| ==>
                  var q := s.queues[s.calls[t].op.p];
                  q != [] && q[0] == s.calls[t].op.m
  }

  /** The log replays to p's queue, or to that queue with the one operation performed whose call
      holds p's write lock and has stored its record. */
  ghost predicate Replays(s: State, p: nat)
    requires p < |s.queues|
  {
    && (forall t :: t in s.calls && InFlight(s.calls[t], p) ==>
                      Replay(s.log, p) == Apply(s.calls[t].op, s.queues[p]))
    && ((forall t :: t in s.calls ==> !InFlight(s.calls[t], p)) ==> Replay(s.log, p) == s.queues[p])
  }

  ghost predicate Inv(s: State) {
    Shape(s) && Exclusive(s) && HeadsMatch(s) && forall p :: 0 <= p < |s.queues| ==> Replays(s, p)
  }

  lemma StepShape(s: State, t: nat)
    requires Shape(s) && Enabled(s, t)
    ensures Shape(Step(s, t))
  {
  }

  lemma StepApart(s: State, t: nat, u: nat)
    requires Exclusive(s) && Enabled(s, t) && u in s.calls && u != t
    ensures Apart(Step(s, t).calls[t], s.calls[u]) && Apart(s.calls[u], Step(s, t).calls[t])
  {
    assert Apart(s.calls[t], s.calls[u]) && Apart(s.calls[u], s.calls[t]);
  }

  lemma StepExclusive(s: State, t: nat)
    requires Exclusive(s) && Enabled(s, t)
    ensures Exclusive(Step(s, t))
  {
    hide Apart;
    var r := Step(s, t);
    forall a, b | a in r.calls && b in r.calls && a != b
      ensures Apart(r.calls[a], r.calls[b])
    {
      if a == t {
        StepApart(s, t, b);
      } else if b == t {
        StepApart(s, t, a);
      }
    }
  }

  lemma StepHeads(s: State, t: nat)
    requires Shape(s) && Exclusive(s) && HeadsMatch(s) && Enabled(s, t)
    ensures HeadsMatch(Step(s, t))
  {
    var r := Step(s, t);
    forall u | u in r.calls && Matched(r.calls[u])
      ensures var q := r.queues[r.calls[u].op.p]; q != [] && q[0] == r.calls[u].op.m
    {
      if u != t {
        assert Apart(s.calls[t], s.calls[u]);
        assert Matched(s.calls[u]) && HoldsWrite(s.calls[u]);
      }
    }
  }

  /** What a step does to the replayed log and to the queue of one partition. */
  lemma StepLog(s: State, t: nat, p: nat)
    requires Enabled(s, t) && p < |s.queues|
    ensures var c := s.calls[t];
            Replay(Step(s, t).log, p) ==
              if c.pc.HaveLog? && !c.op.Read? && c.op.p == p then Apply(c.op, Replay(s.log, p)) else Replay(s.log, p)
  {
    var c, r := s.calls[t], Step(s, t);
    if c.pc.HaveLog? && !c.op.Read? {
      assert r.log[..|s.log|] == s.log;
    }
  }

  lemma StepQueue(s: State, t: nat, p: nat)
    requires Enabled(s, t) && p < |s.queues|
    ensures var c := s.calls[t];
            Step(s, t).queues[p] == if c.pc.Logged? && c.op.p == p then Apply(c.op, s.queues[p]) else s.queues[p]
  {
  }

  lemma StepCalls(s: State, t: nat)
    requires Enabled(s, t)
    ensures forall u :: u in Step(s, t).calls <==> u in s.calls
    ensures forall u :: u in s.calls && u != t ==> Step(s, t).calls[u] == s.calls[u]
    ensures Step(s, t).calls[t] == s.calls[t].(pc := NextPc(s.calls[t], s.queues[s.calls[t].op.p]))
  {
  }

  lemma OthersLanded(s: State, t: nat)
    requires Exclusive(s) && t in s.calls && HoldsWrite(s.calls[t])
    ensures forall u :: u in s.calls && u != t ==> !InFlight(s.calls[u], s.calls[t].op.p)
  {
    forall u | u in s.calls && u != t
      ensures !InFlight(s.calls[u], s.calls[t].op.p)
    {
      assert Apart(s.calls[t], s.calls[u]);
    }
  }

  /** A step of a call that neither stores nor performs an operation of p. */
  lemma ElsewhereReplays(s: State, t: nat, p: nat)
    requires Enabled(s, t) && p < |s.queues| && Replays(s, p)
    requires InFlight(s.calls[t], p) <==> InFlight(Step(s, t).calls[t], p)
    requires Replay(Step(s, t).log, p) == Replay(s.log, p) && Step(s, t).queues[p] == s.queues[p]
    ensures Replays(Step(s, t), p)
  {
    var r := Step(s, t);
    assert |r.queues| == |s.queues|;
    hide Replay, Apply, NextPc, Enabled, InFlight;
    StepCalls(s, t);
    hide Step;
    if forall u :: u in r.calls ==> !InFlight(r.calls[u], p) {
      forall u | u in s.calls
        ensures !InFlight(s.calls[u], p)
      {
        assert !InFlight(r.calls[u], p);
      }
    }
    forall u | u in r.calls && InFlight(r.calls[u], p)
      ensures Replay(r.log, p) == Apply(r.calls[u].op, r.queues[p])
    {
      assert InFlight(s.calls[u], p);
    }
  }

  lemma StepReplays(s: State, t: nat, p: nat)
    requires Inv(s) && Enabled(s, t) && p < |s.queues|
    ensures Replays(Step(s, t), p)
  {
    hide Replay, Apply;
    StepLog(s, t, p);
    StepQueue(s, t, p);
    StepCalls(s, t);
    var c, r := s.calls[t], Step(s, t);
    assert Replays(s, p);
    if c.op.p == p && (c.pc.HaveLog? || c.pc.Logged?) {
      OthersLanded(s, t);
      assert !c.op.Read?;
      hide Step, Enabled;
      if c.pc.HaveLog? {
        assert forall u :: u in s.calls ==> !InFlight(s.calls[u], p);
        assert InFlight(r.calls[t], p);
      } else {
        assert InFlight(s.calls[t], p);
        assert forall u :: u in r.calls ==> !InFlight(r.calls[u], p);
      }
    } else {
      ElsewhereReplays(s, t, p);
    }
  }

  lemma StartInv(s: State, t: nat, op: Op)
    requires Inv(s) && t !in s.calls && op.p < |s.queues|
    ensures Inv(Do(s, Start(t, op)))
  {
    var r := Do(s, Start(t, op));
    forall u | u in s.calls
      ensures r.calls[u] == s.calls[u]
    {
    }
    assert Exclusive(r) by {
      forall a, b | a in r.calls && b in r.calls && a != b
        ensures Apart(r.calls[a], r.calls[b])
      {
        assert a in s.calls && b in s.calls ==> Apart(s.calls[a], s.calls[b]);
      }
    }
    forall p | 0 <= p < |r.queues|
      ensures Replays(r, p)
    {
      assert Replays(s, p);
    }
  }

  /** Every step keeps the invariant, so it holds in every reachable state. */
  lemma {:induction false} Invariant(n: nat, ls: seq<Label>)
    requires Legal(n, ls)
    ensures |Exec(n, ls).queues| == n && Inv(Exec(n, ls))
  {
    if ls == [] {
    } else {
      Invariant(n, ls[..|ls| - 1]);
      var s := Exec(n, ls[..|ls| - 1]);
      match ls[|ls| - 1]
      case Start(t, op) => StartInv(s, t, op);
      case Go(t) =>
        StepShape(s, t);
        StepExclusive(s, t);
        StepHeads(s, t);
        forall p | 0 <= p < |s.queues|
          ensures Replays(Step(s, t), p)
        {
          StepReplays(s, t, p);
        }
    }
  }

  // ----- what happened over a whole run

  datatype Event =
    | StoredRecord(t: nat, r: Record)
    | PushedMessage(t: nat, p: nat, m: Msg)
    | PoppedMessage(t: nat, p: nat, m: Msg)
    | SawOther(t: nat, p: nat, front: Msg)  // a remove found a front other than its message

  /** What a step of call t does to the log and to its queue q, or finds at its front. */
  ghost function EventAt(c: Call, q: seq<Msg>, t: nat): (r: seq<Event>)
    ensures |r| <= 1 && (r != [] ==> r[0].t == t)
  {
    if c.op.Read? then []
    else if c.pc.HaveLog? then [StoredRecord(t, RecordOf(c.op))]
    else if c.pc.Logged? && c.op.Push? then [PushedMessage(t, c.op.p, c.op.m)]
    else if c.pc.Logged? && q != [] then [PoppedMessage(t, c.op.p, q[0])]
    else if c.op.Remove? && (c.pc.Reading? || c.pc.Writing?) && q != [] && q[0] != c.op.m
    then [SawOther(t, c.op.p, q[0])]
    else []
  }

  ghost function EventOf(s: State, l: Label): seq<Event>
    requires Can(s, l)
  {
    if l.Start? then [] else EventAt(s.calls[l.t], s.queues[s.calls[l.t].op.p], l.t)
  }

  ghost function Events(n: nat, ls: seq<Label>): seq<Event>
    requires Legal(n, ls)
  {
    if ls == [] then []
    else Events(n, ls[..|ls| - 1]) + EventOf(Exec(n, ls[..|ls| - 1]), ls[|ls| - 1])
  }

  /** The messages pushed to, and popped from, the queue of p, in order. */
  ghost function PushedTo(ev: seq<Event>, p: nat): seq<Msg> {
    if ev == [] then [] else PushedTo(ev[..|ev| - 1], p) + PushOf(ev[|ev| - 1], p)
  }

  ghost function PushOf(e: Event, p: nat): seq<Msg> {
    if e.PushedMessage? && e.p == p then [e.m] else []
  }

  ghost function PoppedFrom(ev: seq<Event>, p: nat): seq<Msg> {
    if ev == [] then [] else PoppedFrom(ev[..|ev| - 1], p) + PopOf(ev[|ev| - 1], p)
  }

  ghost function PopOf(e: Event, p: nat): seq<Msg> {
    if e.PoppedMessage? && e.p == p then [e.m] else []
  }

  /** What call t stored, popped and saw. */
  ghost function StoredBy(ev: seq<Event>, t: nat): seq<Record> {
    if ev == [] then [] else StoredBy(ev[..|ev| - 1], t) + StoreBy(ev[|ev| - 1], t)
  }

  ghost function StoreBy(e: Event, t: nat): seq<Record> {
    if e.StoredRecord? && e.t == t then [e.r] else []
  }

  ghost function PoppedBy(ev: seq<Event>, t: nat): seq<Msg> {
    if ev == [] then [] else PoppedBy(ev[..|ev| - 1], t) + PopBy(ev[|ev| - 1], t)
  }

  ghost function PopBy(e: Event, t: nat): seq<Msg> {
    if e.PoppedMessage? && e.t == t then [e.m] else []
  }

  ghost function SeenBy(ev: seq<Event>, t: nat): seq<Msg> {
    if ev == [] then [] else SeenBy(ev[..|ev| - 1], t) + SeeBy(ev[|ev| - 1], t)
  }

  ghost function SeeBy(e: Event, t: nat): seq<Msg> {
    if e.SawOther? && e.t == t then [e.front] else []
  }

  /** All records stored, whoever stored them. */
  ghost function Records(ev: seq<Event>): seq<Record> {
    if ev == [] then [] else Records(ev[..|ev| - 1]) + StoreOf(ev[|ev| - 1])
  }

  ghost function StoreOf(e: Event): seq<Record> {
    if e.StoredRecord? then [e.r] else []
  }

  /** A label adds at most one event, and all six projections grow by its share of them. */
  lemma OneMore(ev: seq<Event>, one: seq<Event>, p: nat, t: nat)
    requires |one| <= 1
    ensures one == [] ==> ev + one == ev
    ensures one != [] ==>
              && PushedTo(ev + one, p) == PushedTo(ev, p) + PushOf(one[0], p)
              && PoppedFrom(ev + one, p) == PoppedFrom(ev, p) + PopOf(one[0], p)
              && StoredBy(ev + one, t) == StoredBy(ev, t) + StoreBy(one[0], t)
              && PoppedBy(ev + one, t) == PoppedBy(ev, t) + PopBy(one[0], t)
              && SeenBy(ev + one, t) == SeenBy(ev, t) + SeeBy(one[0], t)
              && Records(ev + one) == Records(ev) + StoreOf(one[0])
  {
    if one != [] {
      assert (ev + one)[..|ev + one| - 1] == ev && (ev + one)[|ev + one| - 1] == one[0];
    }
  }

  /** First in, first out, nothing lost: what was popped from p, followed by what p still holds,
      is what was pushed to p, in order. The log holds the stored records and nothing else. */
  lemma {:induction false} Fifo(n: nat, ls: seq<Label>, p: nat)
    requires Legal(n, ls) && p < n
    ensures |Exec(n, ls).queues| == n
    ensures PoppedFrom(Events(n, ls), p) + Exec(n, ls).queues[p] == PushedTo(Events(n, ls), p)
    ensures Records(Events(n, ls)) == Exec(n, ls).log
  {
    Invariant(n, ls);
    if ls == [] {
    } else {
      var before := ls[..|ls| - 1];
      Invariant(n, before);
      Fifo(n, before, p);
      FifoStep(Exec(n, before), ls[|ls| - 1], Events(n, before), p);
    }
  }

  lemma FifoStep(s: State, l: Label, ev: seq<Event>, p: nat)
    requires Can(s, l) && p < |s.queues|
    requires PoppedFrom(ev, p) + s.queues[p] == PushedTo(ev, p) && Records(ev) == s.log
    ensures PoppedFrom(ev + EventOf(s, l), p) + Do(s, l).queues[p] == PushedTo(ev + EventOf(s, l), p)
    ensures Records(ev + EventOf(s, l)) == Do(s, l).log
  {
    hide PushedTo, PoppedFrom, Records, StoredBy, PoppedBy, SeenBy, EventAt;
    OneMore(ev, EventOf(s, l), p, 0);
    if l.Go? {
      var c := s.calls[l.t];
      FifoCall(c, s.queues[c.op.p], l.t, PoppedFrom(ev, p), PushedTo(ev, p), s.log, p);
    }
  }

  lemma FifoCall(c: Call, q: seq<Msg>, t: nat, popped: seq<Msg>, pushed: seq<Msg>, log: seq<Record>, p: nat)
    requires c.op.p == p ==> popped + q == pushed
    ensures var one := EventAt(c, q, t);
            && (one != [] && c.op.p == p ==>
                  popped + PopOf(one[0], p) + (if c.pc.Logged? then Apply(c.op, q) else q)
                  == pushed + PushOf(one[0], p))
            && (one == [] && c.op.p == p ==> (if c.pc.Logged? then Apply(c.op, q) else q) == q)
            && (one != [] && c.op.p != p ==> PopOf(one[0], p) == [] == PushOf(one[0], p))
            && (one != [] ==>
                  !c.op.Read? && log + StoreOf(one[0]) == if c.pc.HaveLog? then log + [RecordOf(c.op)] else log)
            && (one == [] ==> !(c.pc.HaveLog? && !c.op.Read?))
  {
  }

  /** What a call has stored, popped and seen, read off its program counter. */
  predicate HasStored(c: Call) {
    c.pc.Stored? || c.pc.Logged? || c.pc.Applied? || c.pc == Done(Pushed) || c.pc == Done(Removed(true))
  }

  predicate HasPopped(c: Call) {
    c.op.Remove? && (c.pc.Applied? || c.pc == Done(Removed(true)))
  }

  predicate HasFailed(c: Call) {
    c.op.Remove? && (c.pc.Refused? || c.pc.Leaving? || c.pc == Done(Removed(false)))
  }

  predicate StoredOk(c: Call, rs: seq<Record>) {
    rs == if HasStored(c) then [RecordOfCall(c)] else []
  }

  predicate PoppedOk(c: Call, ms: seq<Msg>) {
    ms == if HasPopped(c) then [c.op.m] else []
  }

  predicate SeenOk(c: Call, ms: seq<Msg>) {
    if HasFailed(c) then |ms| == 1 && ms[0] != c.op.m else ms == []
  }

  ghost predicate Accounted(c: Call, ev: seq<Event>, t: nat) {
    StoredOk(c, StoredBy(ev, t)) && PoppedOk(c, PoppedBy(ev, t)) && SeenOk(c, SeenBy(ev, t))
  }

  function RecordOfCall(c: Call): Record {
    if c.op.Read? then Record(c.op.p, false, []) else RecordOf(c.op)
  }

  /** A label touches one call: the events are that call's, the other calls stay as they are. */
  lemma OneCall(s: State, l: Label)
    requires Can(s, l)
    ensures |EventOf(s, l)| <= 1
    ensures EventOf(s, l) != [] ==> EventOf(s, l)[0].t == l.t && l.t in s.calls
    ensures Do(s, l).calls.Keys == s.calls.Keys + {l.t}
    ensures forall u :: u in s.calls && u != l.t ==> Do(s, l).calls[u] == s.calls[u]
    ensures forall u :: u in s.calls ==> Do(s, l).calls[u].op == s.calls[u].op
  {
    hide PcFits, Undefined;
  }

  /** The events of other calls add nothing to a call's account. */
  lemma NotMine(s: State, l: Label, ev: seq<Event>, t: nat)
    requires Can(s, l) && (l.t != t || t !in s.calls)
    ensures StoredBy(ev + EventOf(s, l), t) == StoredBy(ev, t)
    ensures PoppedBy(ev + EventOf(s, l), t) == PoppedBy(ev, t)
    ensures SeenBy(ev + EventOf(s, l), t) == SeenBy(ev, t)
  {
    OneCall(s, l);
    hide PoppedBy, StoredBy, SeenBy, EventOf, Can;
    OneMore(ev, EventOf(s, l), 0, t);
  }

  lemma {:induction false} NoEventsYet(n: nat, ls: seq<Label>, t: nat)
    requires Legal(n, ls) && t !in Exec(n, ls).calls
    ensures StoredBy(Events(n, ls), t) == [] && PoppedBy(Events(n, ls), t) == [] && SeenBy(Events(n, ls), t) == []
  {
    hide EventOf, Can;
    if ls == [] {
    } else {
      var before := ls[..|ls| - 1];
      OneCall(Exec(n, before), ls[|ls| - 1]);
      NoEventsYet(n, before, t);
      NotMine(Exec(n, before), ls[|ls| - 1], Events(n, before), t);
    }
  }

  /** A push returns only after it stored its record. A remove returns true exactly when it popped
      one message, equal to its own, and then it stored its record too; it returns false only after
      it saw one other message at the front, and then it changed nothing. */
  lemma {:induction false} Outcome(n: nat, ls: seq<Label>, t: nat)
    requires Legal(n, ls) && t in Exec(n, ls).calls
    ensures Accounted(Exec(n, ls).calls[t], Events(n, ls), t)
  {
    hide EventAt, StoredOk, PoppedOk, SeenOk, StoredBy, PoppedBy, SeenBy, NextPc, PcFits, Exclusive, Replays, FirstPc;
    var before := ls[..|ls| - 1];
    var s, l := Exec(n, before), ls[|ls| - 1];
    OneCall(s, l);
    if t !in s.calls {
      NoEventsYet(n, before, t);
      NotMine(s, l, Events(n, before), t);
      NothingYet(l.op);
    } else {
      Outcome(n, before, t);
      if l.t != t {
        NotMine(s, l, Events(n, before), t);
      } else {
        Invariant(n, before);
        assert PcFits(s.calls[t]);
        OutcomeStep(s.calls[t], s.queues[s.calls[t].op.p], Events(n, before), t);
      }
    }
  }

  lemma NothingYet(op: Op)
    ensures var c := Call(op, FirstPc(op)); StoredOk(c, []) && PoppedOk(c, []) && SeenOk(c, [])
  {
  }

  /** The call may step from queue q as far as its own program is concerned. */
  predicate Ready(c: Call, q: seq<Msg>) {
    && PcFits(c) && !c.pc.Done?
    && (c.op.Remove? && (c.pc.Reading? || c.pc.Writing?) ==> q != [])
    && (Matched(c) ==> q != [] && q[0] == c.op.m)
  }

  lemma OutcomeStep(c: Call, q: seq<Msg>, ev: seq<Event>, t: nat)
    requires Ready(c, q) && Accounted(c, ev, t)
    ensures Accounted(c.(pc := NextPc(c, q)), ev + EventAt(c, q, t), t)
  {
    hide PoppedBy, StoredBy, SeenBy, StoredOk, PoppedOk, SeenOk, EventAt, NextPc, Ready, PushedTo, PoppedFrom, Records;
    assert !c.pc.Done? && (c.op.Remove? && (c.pc.Reading? || c.pc.Writing?) ==> q != []) by { ReadyFacts(c, q); }
    OneMore(ev, EventAt(c, q, t), 0, t);
    StoredStep(c, q, StoredBy(ev, t), t);
    PoppedStep(c, q, PoppedBy(ev, t), t);
    SeenStep(c, q, SeenBy(ev, t), t);
  }

  lemma ReadyFacts(c: Call, q: seq<Msg>)
    requires Ready(c, q)
    ensures !c.pc.Done? && (c.op.Remove? && (c.pc.Reading? || c.pc.Writing?) ==> q != [])
  {
  }

  lemma StoredStep(c: Call, q: seq<Msg>, rs: seq<Record>, t: nat)
    requires Ready(c, q) && StoredOk(c, rs)
    ensures var one := EventAt(c, q, t);
            StoredOk(c.(pc := NextPc(c, q)), if one == [] then rs else rs + StoreBy(one[0], t))
  {
  }

  lemma PoppedStep(c: Call, q: seq<Msg>, ms: seq<Msg>, t: nat)
    requires Ready(c, q) && PoppedOk(c, ms)
    ensures var one := EventAt(c, q, t);
            PoppedOk(c.(pc := NextPc(c, q)), if one == [] then ms else ms + PopBy(one[0], t))
  {
  }

  lemma SeenStep(c: Call, q: seq<Msg>, ms: seq<Msg>, t: nat)
    requires Ready(c, q) && SeenOk(c, ms)
    ensures var one := EventAt(c, q, t);
            SeenOk(c.(pc := NextPc(c, q)), if one == [] then ms else ms + SeeBy(one[0], t))
  {
  }

  /** A message that a call saw was at the front of its partition, before one of its own steps. */
  lemma {:induction false} SeenMeansFront(n: nat, ls: seq<Label>, t: nat, m: Msg)
    requires Legal(n, ls) && t in Exec(n, ls).calls && m in SeenBy(Events(n, ls), t)
    ensures exists k :: 0 <= k < |ls| && FrontWas(n, ls, k, t, Exec(n, ls).calls[t].op.p, m)
  {
    hide EventOf, Can, SeenBy;
    if ls == [] {
      NothingSeen(t);
      assert false;
    } else {
      var before := ls[..|ls| - 1];
      var s, l := Exec(n, before), ls[|ls| - 1];
      OneCall(s, l);
      if t !in s.calls {
        NoEventsYet(n, before, t);
        NotMine(s, l, Events(n, before), t);
        assert false;
      } else if m in SeenBy(Events(n, before), t) {
        SeenMeansFront(n, before, t, m);
        var k :| 0 <= k < |before| && FrontWas(n, before, k, t, s.calls[t].op.p, m);
        assert before[..k] == ls[..k];
        assert FrontWas(n, ls, k, t, s.calls[t].op.p, m);
      } else {
        SeenNow(s, l, Events(n, before), t, m);
        assert FrontWas(n, ls, |ls| - 1, t, s.calls[t].op.p, m);
      }
    }
  }

  lemma NothingSeen(t: nat)
    ensures SeenBy([], t) == []
  {
  }

  lemma SeenNow(s: State, l: Label, ev: seq<Event>, t: nat, m: Msg)
    requires Can(s, l) && t in s.calls && m in SeenBy(ev + EventOf(s, l), t) && m !in SeenBy(ev, t)
    ensures l == Go(t)
    ensures s.calls[t].op.p < |s.queues| && s.queues[s.calls[t].op.p] != [] && s.queues[s.calls[t].op.p][0] == m
  {
    hide SeenBy, PoppedBy, StoredBy, EventOf;
    OneCall(s, l);
    if l.t != t {
      NotMine(s, l, ev, t);
    } else {
      OneMore(ev, EventOf(s, l), 0, t);
      SeenFront(s, l, t);
    }
  }

  /** What a step reports as seen is the front of the call's queue. */
  lemma SeenFront(s: State, l: Label, t: nat)
    requires Can(s, l) && t in s.calls && l.t == t
    ensures l == Go(t) && s.calls[t].op.p < |s.queues|
    ensures forall e :: e in EventOf(s, l) && e.SawOther? ==>
                          s.queues[s.calls[t].op.p] != [] && s.queues[s.calls[t].op.p][0] == e.front
  {
  }

  ghost predicate FrontWas(n: nat, ls: seq<Label>, k: nat, t: nat, p: nat, m: Msg) {
    && k < |ls| && ls[k] == Go(t) && Legal(n, ls[..k])
    && p < |Exec(n, ls[..k]).queues| && Exec(n, ls[..k]).queues[p] != [] && Exec(n, ls[..k]).queues[p][0] == m
  }

  /** A remove that returns false found, at one of its own steps, another message at the front. */
  lemma RemoveFalse(n: nat, ls: seq<Label>, t: nat)
    requires Legal(n, ls) && t in Exec(n, ls).calls && Exec(n, ls).calls[t].pc == Done(Removed(false))
    requires Exec(n, ls).calls[t].op.Remove?
    ensures var op := Exec(n, ls).calls[t].op;
            exists k, m :: m != op.m && 0 <= k < |ls| && FrontWas(n, ls, k, t, op.p, m)
  {
    Invariant(n, ls);
    Outcome(n, ls, t);
    SeenMeansFront(n, ls, t, SeenBy(Events(n, ls), t)[0]);
  }

  // ----- the log alone

  ghost function LoggedPushes(log: seq<Record>, p: nat): seq<Msg> {
    if log == [] then []
    else
      var r := log[|log| - 1];
      LoggedPushes(log[..|log| - 1], p) + if r.p == p && r.push then [r.m] else []
  }

  ghost function LoggedPops(log: seq<Record>, p: nat): seq<Msg> {
    if log == [] then []
    else
      var r := log[|log| - 1];
      LoggedPops(log[..|log| - 1], p) + if r.p == p && !r.push then [r.m] else []
  }

  /** Cut a run anywhere: the messages in the log's push records are, in order, those of its remove
      records followed by the queue that replaying it rebuilds. */
  lemma {:induction false} LogLossless(n: nat, ls: seq<Label>, p: nat)
    requires Legal(n, ls) && p < n
    ensures var log := Exec(n, ls).log;
            LoggedPops(log, p) + Replay(log, p) == LoggedPushes(log, p)
  {
    if ls == [] {
    } else {
      var before := ls[..|ls| - 1];
      LogLossless(n, before, p);
      Invariant(n, before);
      LogLosslessStep(Exec(n, before), ls[|ls| - 1], p);
    }
  }

  lemma LogLosslessStep(s: State, l: Label, p: nat)
    requires Inv(s) && Can(s, l) && p < |s.queues|
    requires LoggedPops(s.log, p) + Replay(s.log, p) == LoggedPushes(s.log, p)
    ensures var log := Do(s, l).log;
            LoggedPops(log, p) + Replay(log, p) == LoggedPushes(log, p)
  {
    var log := Do(s, l).log;
    if l.Go? && log != s.log {
      var c := s.calls[l.t];
      assert log[..|log| - 1] == s.log && log[|log| - 1] == RecordOf(c.op);
      if c.op.Remove? && c.op.p == p {
        forall u | u in s.calls
          ensures !InFlight(s.calls[u], p)
        {
          assert u != l.t ==> Apart(c, s.calls[u]);
        }
        assert Replays(s, p);
        assert Matched(c);
      }
    }
  }

  /** The calls behind the records of the log, place by place. */
  ghost function Owners(ev: seq<Event>): (o: seq<nat>)
    ensures |o| == |Records(ev)|
  {
    if ev == [] then []
    else
      var e := ev[|ev| - 1];
      Owners(ev[..|ev| - 1]) + if e.StoredRecord? then [e.t] else []
  }

  /** Hence no acknowledged operation is lost: once a push has returned, or a remove has returned
      true, its record has a place in the log that no other call shares, and the log only grows. */
  lemma Acknowledged(n: nat, ls: seq<Label>, t: nat)
    requires Legal(n, ls) && t in Exec(n, ls).calls && n > 0
    requires Exec(n, ls).calls[t].pc in {Done(Pushed), Done(Removed(true))}
    ensures var log, owners := Exec(n, ls).log, Owners(Events(n, ls));
            && |owners| == |log|
            && exists k :: 0 <= k < |log| && owners[k] == t && log[k] == RecordOfCall(Exec(n, ls).calls[t])
  {
    Outcome(n, ls, t);
    Fifo(n, ls, 0);
    StoredHasPlace(Events(n, ls), t, RecordOfCall(Exec(n, ls).calls[t]));
  }

  lemma {:induction false} StoredHasPlace(ev: seq<Event>, t: nat, r: Record)
    requires r in StoredBy(ev, t)
    ensures exists k :: 0 <= k < |Records(ev)| && Owners(ev)[k] == t && Records(ev)[k] == r
  {
    if ev != [] {
      var before, e := ev[..|ev| - 1], ev[|ev| - 1];
      if r in StoredBy(before, t) {
        StoredHasPlace(before, t, r);
        var k :| 0 <= k < |Records(before)| && Owners(before)[k] == t && Records(before)[k] == r;
        assert Owners(ev)[k] == t && Records(ev)[k] == r;
      } else {
        assert Owners(ev)[|Records(before)|] == t && Records(ev)[|Records(before)|] == r;
      }
    }
  }

  lemma {:induction false} LogGrows(n: nat, ls: seq<Label>, k: nat)
    requires Legal(n, ls) && k <= |ls|
    ensures Legal(n, ls[..k]) && Exec(n, ls[..k]).log <= Exec(n, ls).log
  {
    if k == |ls| {
      assert ls[..k] == ls;
    } else {
      LogGrows(n, ls[..|ls| - 1], k);
      assert ls[..|ls| - 1][..k] == ls[..k];
    }
  }

  // ----- progress

  /** The lock order partition, then log, never deadlocks: while a call is unfinished, some call can
      step, unless a remove stands before the front of an empty partition. */
  lemma Progress(n: nat, ls: seq<Label>, t: nat)
    requires Legal(n, ls) && t in Exec(n, ls).calls && !Exec(n, ls).calls[t].pc.Done?
    ensures exists u :: Enabled(Exec(n, ls), u) || Undefined(Exec(n, ls), u)
  {
    Invariant(n, ls);
    var s := Exec(n, ls);
    if u :| u in s.calls && HoldsLog(s.calls[u]) {
      assert Enabled(s, u);
    } else if u :| u in s.calls && (HoldsWrite(s.calls[u]) || HoldsRead(s.calls[u])) {
      assert Enabled(s, u) || Undefined(s, u);
    } else {
      assert Enabled(s, t);
    }
  }

  /** Steps a call still has to take, at most. */
  function Rank(pc: Pc): nat {
    match pc
    case WantRead => 10
    case Reading => 9
    case Passed => 8
    case WantWrite => 7
    case Writing => 6
    case WantLog => 5
    case HaveLog => 4
    case Stored => 3
    case Logged => 2
    case Applied => 1
    case Refused => 1
    case Leaving(_) => 1
    case Done(_) => 0
  }

  ghost function StepsOf(ls: seq<Label>, t: nat): nat {
    if ls == [] then 0
    else StepsOf(ls[..|ls| - 1], t) + if ls[|ls| - 1] == Go(t) then 1 else 0
  }

  /** Every call returns within ten steps of its own. */
  lemma {:induction false} CallBound(n: nat, ls: seq<Label>, t: nat)
    requires Legal(n, ls)
    ensures StepsOf(ls, t) <= 10
    ensures t in Exec(n, ls).calls ==> StepsOf(ls, t) + Rank(Exec(n, ls).calls[t].pc) <= 10
    ensures t !in Exec(n, ls).calls ==> StepsOf(ls, t) == 0
  {
    hide Rank;
    if ls == [] {
    } else {
      CallBound(n, ls[..|ls| - 1], t);
      var s, l := Exec(n, ls[..|ls| - 1]), ls[|ls| - 1];
      OneRank(s, l, t);
      hide Exec, Do, Can;
    }
  }

  lemma OneRank(s: State, l: Label, t: nat)
    requires Can(s, l)
    ensures l == Go(t) ==> t in s.calls && t in Do(s, l).calls && Rank(Do(s, l).calls[t].pc) + 1 <= Rank(s.calls[t].pc)
    ensures l.Start? && l.t == t ==> t !in s.calls && t in Do(s, l).calls && Rank(Do(s, l).calls[t].pc) <= 10
    ensures l.t != t ==> (t in s.calls <==> t in Do(s, l).calls) && (t in s.calls ==> Do(s, l).calls[t] == s.calls[t])
  {
  }
}
