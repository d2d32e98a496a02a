/** How the session answers a delete: it calls remove, drops what remove returned, and sends OK. */
module Delete {
  import opened Words
  import opened Topic
  import opened TopicBatch

  /** A topic, and the remove calls whose delete has been answered with OK. */
  datatype Session = Session(topic: State, answered: set<nat>)

  /** A step of the topic, or the answer to the delete behind call t. */
  datatype SessionLabel = InTopic(l: Label) | Answer(t: nat)

  /** A delete is answered once, when its remove has returned, and whatever it returned. */
  ghost predicate SessionCan(s: Session, l: SessionLabel) {
    match l
    case InTopic(l) => Can(s.topic, l)
    case Answer(t) =>
      && t in s.topic.calls && s.topic.calls[t].op.Remove? && s.topic.calls[t].pc.Done? && t !in s.answered
  }

  ghost function SessionDo(s: Session, l: SessionLabel): Session
    requires SessionCan(s, l)
  {
    match l
    case InTopic(l) => s.(topic := Do(s.topic, l))
    case Answer(t) => s.(answered := s.answered + {t})
  }

  ghost predicate SessionLegal(n: nat, ls: seq<SessionLabel>)
    decreases |ls|, 0
  {
    ls == [] || (SessionLegal(n, ls[..|ls| - 1]) && SessionCan(SessionExec(n, ls[..|ls| - 1]), ls[|ls| - 1]))
  }

  ghost function SessionExec(n: nat, ls: seq<SessionLabel>): Session
    requires SessionLegal(n, ls)
    decreases |ls|, 1
  {
    if ls == [] then Session(Init(n), {}) else SessionDo(SessionExec(n, ls[..|ls| - 1]), ls[|ls| - 1])
  }

  /** The run of the topic within a run of the session. */
  function TopicRun(ls: seq<SessionLabel>): seq<Label> {
    if ls == [] then []
    else TopicRun(ls[..|ls| - 1]) + if ls[|ls| - 1].InTopic? then [ls[|ls| - 1].l] else []
  }

  /** Only finished removes have been answered. */
  ghost predicate AnsweredDone(s: Session) {
    forall t :: t in s.answered ==> t in s.topic.calls && s.topic.calls[t].op.Remove? && s.topic.calls[t].pc.Done?
  }

  lemma {:induction false} TopicOfSession(n: nat, ls: seq<SessionLabel>)
    requires SessionLegal(n, ls)
    ensures Legal(n, TopicRun(ls)) && Exec(n, TopicRun(ls)) == SessionExec(n, ls).topic
    ensures AnsweredDone(SessionExec(n, ls))
  {
    hide Can, Do;
    if ls != [] {
      var s, l := SessionExec(n, ls[..|ls| - 1]), ls[|ls| - 1];
      TopicOfSession(n, ls[..|ls| - 1]);
      SessionStep(s, l);
      if l.InTopic? {
        var more := GoOn(n, TopicRun(ls[..|ls| - 1]), l.l);
        DoneStays(s.topic, l.l);
        assert more == TopicRun(ls);
      } else {
        assert TopicRun(ls[..|ls| - 1]) + [] == TopicRun(ls[..|ls| - 1]);
      }
    }
  }

  lemma SessionStep(s: Session, l: SessionLabel)
    requires SessionCan(s, l)
    ensures l.InTopic? ==> Can(s.topic, l.l) && SessionDo(s, l) == Session(Do(s.topic, l.l), s.answered)
    ensures l.Answer? ==>
              && SessionDo(s, l) == Session(s.topic, s.answered + {l.t})
              && l.t in s.topic.calls && s.topic.calls[l.t].op.Remove? && s.topic.calls[l.t].pc.Done?
  {
  }

  lemma DoneStays(s: State, l: Label)
    requires Can(s, l)
    ensures forall t :: t in s.calls && s.calls[t].pc.Done? ==> t in Do(s, l).calls && Do(s, l).calls[t] == s.calls[t]
  {
  }

  // ----- what an OK says

  /** Label l is a front read of call t, a remove, and finds a message other than m there. */
  ghost predicate FindsOther(s: State, l: Label, t: nat, m: Msg) {
    && l == Go(t) && t in s.calls && s.calls[t].op.Remove? && (s.calls[t].pc.Reading? || s.calls[t].pc.Writing?)
    && s.calls[t].op.p < |s.queues| && s.queues[s.calls[t].op.p] != [] && s.queues[s.calls[t].op.p][0] != m
  }

  ghost predicate FindsOtherAt(n: nat, ls: seq<Label>, k: nat, t: nat, m: Msg) {
    k < |ls| && Legal(n, ls[..k]) && FindsOther(Exec(n, ls[..k]), ls[k], t, m)
  }

  /** Some front read of call t met a message other than m. */
  ghost predicate MetAnother(n: nat, ls: seq<Label>, t: nat, m: Msg) {
    exists k :: FindsOtherAt(n, ls, k, t, m)
  }

  lemma MetStepwise(n: nat, ls: seq<Label>, t: nat, m: Msg)
    requires Legal(n, ls) && ls != []
    ensures var before := ls[..|ls| - 1];
            MetAnother(n, ls, t, m) <==> MetAnother(n, before, t, m) || FindsOther(Exec(n, before), ls[|ls| - 1], t, m)
  {
    hide Legal, Exec, FindsOther;
    var before := ls[..|ls| - 1];
    assert ls[..|before|] == before;
    forall k | 0 <= k < |before|
      ensures FindsOtherAt(n, ls, k, t, m) <==> FindsOtherAt(n, before, k, t, m)
    {
      assert ls[..k] == before[..k];
    }
    if k :| FindsOtherAt(n, ls, k, t, m) {
      assert k == |before| || FindsOtherAt(n, before, k, t, m);
    }
    if k :| FindsOtherAt(n, before, k, t, m) {
      assert FindsOtherAt(n, ls, k, t, m);
    }
    LegalPrefix(n, ls);
    if FindsOther(Exec(n, before), ls[|ls| - 1], t, m) {
      assert FindsOtherAt(n, ls, |before|, t, m);
    }
  }

  lemma LegalPrefix(n: nat, ls: seq<Label>)
    requires Legal(n, ls) && ls != []
    ensures Legal(n, ls[..|ls| - 1])
  {
  }

  lemma FailStep(s: State, l: Label, t: nat)
    requires Inv(s) && Can(s, l) && t in s.calls && s.calls[t].op.Remove?
    ensures t in Do(s, l).calls && Do(s, l).calls[t].op == s.calls[t].op
    ensures HasFailed(Do(s, l).calls[t]) <==> HasFailed(s.calls[t]) || FindsOther(s, l, t, s.calls[t].op.m)
  {
    hide Exclusive, Replays, HeadsMatch;
    assert PcFits(s.calls[t]);
  }

  /** A remove has failed exactly when one of its front reads met another message. */
  lemma {:induction false} FailedIsMet(n: nat, ls: seq<Label>, t: nat)
    requires Legal(n, ls)
    ensures t !in Exec(n, ls).calls ==> forall m :: !MetAnother(n, ls, t, m)
    ensures t in Exec(n, ls).calls && Exec(n, ls).calls[t].op.Remove? ==>
              (HasFailed(Exec(n, ls).calls[t]) <==> MetAnother(n, ls, t, Exec(n, ls).calls[t].op.m))
  {
    hide MetAnother, HasFailed;
    if ls == [] {
      NothingMet(n, t);
    } else {
      var before, l := ls[..|ls| - 1], ls[|ls| - 1];
      var s := Exec(n, before);
      FailedIsMet(n, before, t);
      Invariant(n, before);
      OneCall(s, l);
      forall m
        ensures MetAnother(n, ls, t, m) <==> MetAnother(n, before, t, m) || FindsOther(s, l, t, m)
      {
        MetStepwise(n, ls, t, m);
      }
      if t !in s.calls {
        NotFailedYet(s, l, t);
      } else if s.calls[t].op.Remove? {
        FailStep(s, l, t);
      }
    }
  }

  lemma NothingMet(n: nat, t: nat)
    ensures forall m :: !MetAnother(n, [], t, m)
  {
  }

  lemma NotFailedYet(s: State, l: Label, t: nat)
    requires Can(s, l) && t !in s.calls
    ensures t in Do(s, l).calls ==> !HasFailed(Do(s, l).calls[t])
    ensures forall m :: !FindsOther(s, l, t, m)
  {
  }

  /** Main result: an OK to a delete means that its message was popped if and only if neither front
      read of its remove met another message; otherwise the call popped nothing. */
  lemma OkMeansPoppedIff(n: nat, ls: seq<SessionLabel>, t: nat)
    requires SessionLegal(n, ls) && t in SessionExec(n, ls).answered
    ensures Legal(n, TopicRun(ls)) && t in SessionExec(n, ls).topic.calls
            && SessionExec(n, ls).topic.calls[t].op.Remove?
    ensures var run, m := TopicRun(ls), SessionExec(n, ls).topic.calls[t].op.m;
            && (PoppedBy(Events(n, run), t) == [m] <==> !MetAnother(n, run, t, m))
            && (PoppedBy(Events(n, run), t) == [] <==> MetAnother(n, run, t, m))
  {
    TopicOfSession(n, ls);
    var run := TopicRun(ls);
    Outcome(n, run, t);
    FailedIsMet(n, run, t);
    Invariant(n, run);
    assert PcFits(Exec(n, run).calls[t]);
  }

  /** A delete that is answered with OK although the partition still holds what it held. */
  lemma OkWithoutPop(m: Msg, other: Msg) returns (ls: seq<SessionLabel>)
    requires m != other
    ensures SessionLegal(1, ls) && 1 in SessionExec(1, ls).answered
    ensures 1 in SessionExec(1, ls).topic.calls
    ensures SessionExec(1, ls).topic.calls[1] == Call(Remove(0, other), Done(Removed(false)))
    ensures SessionExec(1, ls).topic.queues == [[m]]
  {
    var run := OnePushed(m);
    run := RefusedRemove(run, m, other);
    ls := InSession(1, run);
    ls := ls + [Answer(1)];
    assert ls[..|ls| - 1] + [Answer(1)] == ls;
  }

  lemma RefusedRemove(run: seq<Label>, m: Msg, other: Msg) returns (more: seq<Label>)
    requires Legal(1, run) && Exec(1, run).queues == [[m]] && Calm(Exec(1, run), 0) && m != other
    requires 1 !in Exec(1, run).calls
    ensures Legal(1, more) && Exec(1, more).queues == [[m]]
    ensures 1 in Exec(1, more).calls && Exec(1, more).calls[1] == Call(Remove(0, other), Done(Removed(false)))
  {
    var op := Remove(0, other);
    more := GoOn(1, run, Start(1, op));
    CalmStart(Exec(1, run), Exec(1, more), 0, 1);
    assert NextPc(Call(op, WantRead), [m]) == Reading && NextPc(Call(op, Reading), [m]) == Leaving(Removed(false));
    assert NextPc(Call(op, Leaving(Removed(false))), [m]) == Done(Removed(false));
    hide NextPc, Step, Enabled, Legal, Exec, Calm, CalmBut, Do;
    more := SoloGo(1, more, 1, Call(op, WantRead), [m]);
    more := SoloGo(1, more, 1, Call(op, Reading), [m]);
    more := SoloGo(1, more, 1, Call(op, Leaving(Removed(false))), [m]);
  }

  /** Every run of a topic is one of a session that answers nothing. */
  lemma {:induction false} InSession(n: nat, run: seq<Label>) returns (ls: seq<SessionLabel>)
    requires Legal(n, run)
    ensures SessionLegal(n, ls) && SessionExec(n, ls) == Session(Exec(n, run), {}) && TopicRun(ls) == run
  {
    hide Can, Do;
    if run == [] {
      ls := [];
    } else {
      LegalPrefix(n, run);
      var before := InSession(n, run[..|run| - 1]);
      var l := InTopic(run[|run| - 1]);
      ls := before + [l];
      assert ls[..|ls| - 1] == before && run == run[..|run| - 1] + [run[|run| - 1]];
      LegalLast(n, run);
    }
  }

  lemma LegalLast(n: nat, run: seq<Label>)
    requires Legal(n, run) && run != []
    ensures Legal(n, run[..|run| - 1]) && Can(Exec(n, run[..|run| - 1]), run[|run| - 1])
    ensures Exec(n, run) == Do(Exec(n, run[..|run| - 1]), run[|run| - 1])
  {
  }
}
