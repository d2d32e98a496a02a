/** A topic at the level of its memory: linked nodes, head, tail and size fields, and the log's stream
    buffer. Every load and every store of a push, a read and a remove is a step of its own, and the
    steps of any number of calls interleave. Under the locks the calls still behave like the module
    Topic, whose steps change a whole queue or the whole log at once.

    Nodes are never reused, so that a node that was given back is recognised for good. The fields home
    and chain are history: no step looks at them. */
module TopicMemory {
  import opened Words
  import opened Topic

  /** home is the partition whose call made the node. */
  datatype Node = Node(m: Msg, next: Option<nat>, live: bool, home: nat)

  /** chain is the queue as it was after the last finished push or pop. */
  datatype Part = Part(head: Option<nat>, tail: Option<nat>, size: int, chain: seq<nat>)

  datatype MPc =
    | At(pc: Pc)                            // between two operations on memory
    | SawSize(k: int)                       // read: size loaded by empty
    | TookHead(again: bool, h: Option<nat>) // front: head loaded, its message not read yet
    | PutAt(at: nat)                        // store: put position of the stream loaded
    | Placed(at: nat)                       // record copied into the stream buffer
    | Counted                               // put position moved, buffer not flushed yet
    | GotTail(tail: Option<nat>)            // push: tail loaded
    | Made(tail: Option<nat>, x: nat)       // node x made
    | Linked(tail: Option<nat>, x: nat)     // x hung behind the old tail, or made the tail of nothing
    | Joined(x: nat)                        // head and tail are right again
    | Sized(x: nat, k: int)                 // size loaded
    | GotHead(h: Option<nat>)               // pop: head loaded
    | GotNext(x: nat, next: Option<nat>)    // its link loaded
    | HeadMoved(x: nat)                     // head stored
    | TailFixed(x: nat)                     // tail cleared if the queue is empty now
    | PopSized(x: nat, k: int)              // size loaded
    | Shrunk(x: nat)                        // size stored, node x not given back yet

  datatype MCall = MCall(op: Op, pc: MPc)

  /** buf and put are the buffer of the log's output stream, file what has been flushed. */
  datatype MState = MState(
    calls: map<nat, MCall>, heap: seq<Node>, parts: seq<Part>, buf: seq<Record>, put: nat, file: seq<Record>)

  // ----- what the other module sees of it

  function AbsPc(pc: MPc): Pc {
    match pc
    case At(pc) => pc
    case SawSize(_) => Reading
    case TookHead(again, _) => if again then Writing else Reading
    case PutAt(_) => HaveLog
    case Placed(_) => HaveLog
    case Counted => HaveLog
    case _ => Logged
  }

  function AbsCall(c: MCall): Call {
    Call(c.op, AbsPc(c.pc))
  }

  function AbsCalls(calls: map<nat, MCall>): map<nat, Call> {
    map t | t in calls :: AbsCall(calls[t])
  }

  function MsgAt(heap: seq<Node>, x: nat): Msg {
    if x < |heap| then heap[x].m else []
  }

  function Contents(heap: seq<Node>, chain: seq<nat>): (q: seq<Msg>)
    ensures |q| == |chain|
  {
    seq(|chain|, i requires 0 <= i < |chain| => MsgAt(heap, chain[i]))
  }

  function AbsQueues(heap: seq<Node>, parts: seq<Part>): (qs: seq<seq<Msg>>)
    ensures |qs| == |parts|
  {
    seq(|parts|, p requires 0 <= p < |parts| => Contents(heap, parts[p].chain))
  }

  function Abs(s: MState): State {
    State(AbsCalls(s.calls), AbsQueues(s.heap, s.parts), s.file)
  }

  // ----- steps

  /** The front of a queue is read through a null pointer. */
  predicate NullRead(s: MState, t: nat) {
    t in s.calls && s.calls[t].pc.TookHead? && s.calls[t].pc.h.None?
  }

  /** The locks t waits for are free, and it does not stand before a null pointer. */
  ghost predicate MEnabled(s: MState, t: nat) {
    MayGo(AbsCalls(s.calls), t) && s.calls[t].op.p < |s.parts| && !NullRead(s, t)
  }

  /** The node that the next step of c reads, writes or gives back. */
  function Touches(c: MCall): Option<nat> {
    match c.pc
    case TookHead(_, h) => h
    case Made(tail, _) => tail
    case GotHead(h) => h
    case Shrunk(x) => Some(x)
    case _ => None
  }

  function WriteAt(buf: seq<Record>, k: nat, r: Record): seq<Record> {
    if k < |buf| then buf[k := r] else buf + [r]
  }

  function Flushed(buf: seq<Record>, put: nat): seq<Record> {
    if put <= |buf| then buf[..put] else buf
  }

  function SetNext(heap: seq<Node>, x: nat, next: Option<nat>): seq<Node> {
    if x < |heap| then heap[x := heap[x].(next := next)] else heap
  }

  function NextAt(heap: seq<Node>, x: nat): Option<nat> {
    if x < |heap| then heap[x].next else None
  }

  function GiveBack(heap: seq<Node>, x: nat): seq<Node> {
    if x < |heap| then heap[x := heap[x].(live := false)] else heap
  }

  /** The first load of an operation on memory, or a step that has none. */
  function FromAt(op: Op, pc: Pc, part: Part, put: nat): MPc
    requires !pc.Done?
  {
    if pc.Reading? then (if op.Read? then SawSize(part.size) else TookHead(false, part.head))
    else if pc.Writing? && op.Remove? then TookHead(true, part.head)
    else if pc.HaveLog? then PutAt(put)
    else if pc.Logged? then (if op.Push? then GotTail(part.tail) else GotHead(part.head))
    else At(NextPc(Call(op, pc), []))
  }

  /** The program counter behind one step. */
  function MNext(c: MCall, heap: seq<Node>, part: Part, put: nat): MPc
    requires !(c.pc.TookHead? && c.pc.h.None?) && !(c.pc.At? && c.pc.pc.Done?)
  {
    match c.pc
    case At(pc) => FromAt(c.op, pc, part, put)
    case SawSize(k) => if k == 0 then At(Leaving(Got(None))) else TookHead(false, part.head)
    case TookHead(again, h) =>
      var m := MsgAt(heap, h.value);
      if !c.op.Remove? then At(Leaving(Got(Some(m))))
      else if again then At(if m == c.op.m then WantLog else Refused)
      else At(if m == c.op.m then Passed else Leaving(Removed(false)))
    case PutAt(at) => Placed(at)
    case Placed(_) => Counted
    case Counted => At(Stored)
    case GotTail(tail) => Made(tail, |heap|)
    case Made(tail, x) => Linked(tail, x)
    case Linked(_, x) => Joined(x)
    case Joined(x) => Sized(x, part.size)
    case Sized(_, _) => At(Applied)
    case GotHead(h) => if h.None? then At(Applied) else GotNext(h.value, NextAt(heap, h.value))
    case GotNext(x, _) => HeadMoved(x)
    case HeadMoved(x) => TailFixed(x)
    case TailFixed(x) => PopSized(x, part.size)
    case PopSized(x, _) => Shrunk(x)
    case Shrunk(_) => At(Applied)
  }

  function HeapNext(c: MCall, heap: seq<Node>): seq<Node> {
    match c.pc
    case GotTail(_) => if c.op.Push? then heap + [Node(c.op.m, None, true, c.op.p)] else heap
    case Made(tail, x) => if tail.Some? then SetNext(heap, tail.value, Some(x)) else heap
    case Shrunk(x) => GiveBack(heap, x)
    case _ => heap
  }

  function PartNext(c: MCall, part: Part): Part {
    match c.pc
    case Made(tail, x) => if tail.None? then part.(tail := Some(x)) else part
    case Linked(tail, x) => if tail.None? then part.(head := part.tail) else part.(tail := Some(x))
    case Sized(x, k) => part.(size := k + 1, chain := part.chain + [x])
    case GotNext(x, next) => part.(head := next)
    case HeadMoved(x) => if part.head.None? then part.(tail := None) else part
    case PopSized(x, k) => part.(size := k - 1)
    case Shrunk(x) => part.(chain := if part.chain == [] then [] else part.chain[1..])
    case _ => part
  }

  function BufNext(c: MCall, buf: seq<Record>): seq<Record> {
    if c.pc.PutAt? && !c.op.Read? then WriteAt(buf, c.pc.at, RecordOf(c.op)) else buf
  }

  function PutNext(c: MCall, put: nat): nat {
    if c.pc.Placed? then c.pc.at + 1 else if c.pc.Counted? then 0 else put
  }

  function FileNext(c: MCall, buf: seq<Record>, put: nat, file: seq<Record>): seq<Record> {
    if c.pc.Counted? then file + Flushed(buf, put) else file
  }

  /** One step of call t. */
  ghost function MStep(s: MState, t: nat): MState
    requires MEnabled(s, t)
  {
    var c := s.calls[t];
    var part := s.parts[c.op.p];
    MState(s.calls[t := c.(pc := MNext(c, s.heap, part, s.put))],
           HeapNext(c, s.heap),
           s.parts[c.op.p := PartNext(c, part)],
           BufNext(c, s.buf), PutNext(c, s.put), FileNext(c, s.buf, s.put, s.file))
  }

  ghost predicate MCan(s: MState, l: Label) {
    match l
    case Start(t, op) => t !in s.calls && op.p < |s.parts|
    case Go(t) => MEnabled(s, t)
  }

  ghost function MDo(s: MState, l: Label): MState
    requires MCan(s, l)
  {
    match l
    case Start(t, op) => s.(calls := s.calls[t := MCall(op, At(FirstPc(op)))])
    case Go(t) => MStep(s, t)
  }

  function MInit(n: nat): MState {
    MState(map[], [], seq(n, i => Part(None, None, 0, [])), [], 0, [])
  }

  ghost predicate MLegal(n: nat, ls: seq<Label>)
    decreases |ls|, 0
  {
    ls == [] || (MLegal(n, ls[..|ls| - 1]) && MCan(MExec(n, ls[..|ls| - 1]), ls[|ls| - 1]))
  }

  ghost function MExec(n: nat, ls: seq<Label>): MState
    requires MLegal(n, ls)
    decreases |ls|, 1
  {
    if ls == [] then MInit(n) else MDo(MExec(n, ls[..|ls| - 1]), ls[|ls| - 1])
  }

  // ----- what holds of memory

  function Link(c: seq<nat>, i: int): Option<nat> {
    if 0 <= i < |c| then Some(c[i]) else None
  }

  ghost predicate NodeOk(heap: seq<Node>, p: nat, c: seq<nat>, i: nat)
    requires i < |c|
  {
    c[i] < |heap| && heap[c[i]].live && heap[c[i]].home == p && heap[c[i]].next == Link(c, i + 1)
  }

  /** The nodes of c are live, belong to p, and each links to the next. */
  ghost predicate ChainOk(heap: seq<Node>, p: nat, c: seq<nat>) {
    && (forall i {:trigger c[i]} :: 0 <= i < |c| ==> NodeOk(heap, p, c, i))
    && (forall i, j :: 0 <= i < j < |c| ==> c[i] != c[j])
  }

  /** The queue as it is while no call is in the middle of changing it. */
  ghost predicate Rest(heap: seq<Node>, p: nat, part: Part) {
    && ChainOk(heap, p, part.chain)
    && part.head == Link(part.chain, 0) && part.tail == Link(part.chain, |part.chain| - 1) && part.size == |part.chain|
  }

  /** Between its first and its last store to the queue. */
  predicate Mutates(c: MCall) {
    c.pc.Linked? || c.pc.Joined? || c.pc.Sized? || c.pc.HeadMoved? || c.pc.TailFixed? || c.pc.PopSized? || c.pc.Shrunk?
  }

  ghost predicate Pushing(heap: seq<Node>, part: Part, c: MCall, x: nat) {
    && c.op.Push? && ChainOk(heap, c.op.p, part.chain + [x]) && MsgAt(heap, x) == c.op.m && part.size == |part.chain|
  }

  ghost predicate Popping(heap: seq<Node>, part: Part, c: MCall, x: nat) {
    && c.op.Remove? && ChainOk(heap, c.op.p, part.chain) && part.chain != [] && part.chain[0] == x
    && part.head == Link(part.chain, 1)
  }

  /** What was loaded is what is there; and in the middle of a change, how far it has got. */
  ghost predicate LocalMem(heap: seq<Node>, part: Part, c: MCall) {
    match c.pc
    case SawSize(k) => c.op.Read? && k == part.size
    case TookHead(again, h) => !c.op.Push? && h == part.head && (c.op.Read? ==> !again && h.Some?)
    case GotTail(tail) => c.op.Push? && tail == part.tail
    case Made(tail, x) =>
      && c.op.Push? && tail == part.tail
      && x < |heap| && heap[x] == Node(c.op.m, None, true, c.op.p) && x !in part.chain
    case Linked(tail, x) =>
      && Pushing(heap, part, c, x) && part.head == Link(part.chain, 0) && tail == Link(part.chain, |part.chain| - 1)
      && part.tail == (if tail.None? then Some(x) else tail)
    case Joined(x) => Pushing(heap, part, c, x) && part.head == Link(part.chain + [x], 0) && part.tail == Some(x)
    case Sized(x, k) =>
      && Pushing(heap, part, c, x) && part.head == Link(part.chain + [x], 0) && part.tail == Some(x) && k == part.size
    case GotHead(h) => c.op.Remove? && h == part.head
    case GotNext(x, next) => c.op.Remove? && part.head == Some(x) && next == NextAt(heap, x)
    case HeadMoved(x) =>
      Popping(heap, part, c, x) && part.tail == Link(part.chain, |part.chain| - 1) && part.size == |part.chain|
    case TailFixed(x) => Popping(heap, part, c, x) && part.tail == LastBut1(part.chain) && part.size == |part.chain|
    case PopSized(x, k) =>
      Popping(heap, part, c, x) && part.tail == LastBut1(part.chain) && k == part.size == |part.chain|
    case Shrunk(x) => Popping(heap, part, c, x) && part.tail == LastBut1(part.chain) && part.size == |part.chain| - 1
    case _ => true
  }

  /** The last link of a chain that is about to lose its first. */
  function LastBut1(c: seq<nat>): Option<nat> {
    if |c| <= 1 then None else Link(c, |c| - 1)
  }

  ghost predicate LocalLog(buf: seq<Record>, put: nat, c: MCall) {
    && (c.pc.PutAt? ==> c.pc.at == 0 == put)
    && (c.pc.Placed? ==> c.pc.at == 0 == put)
    && (c.pc.Counted? ==> put == 1)
    && (c.pc.Placed? || c.pc.Counted? ==> !c.op.Read? && buf != [] && buf[0] == RecordOf(c.op))
  }

  // ----- one step of the call itself

  /** What its step does to its partition's memory. */
  ghost predicate StepsTo(heap: seq<Node>, part: Part, put: nat, c: MCall, heap': seq<Node>, part': Part, c': MCall) {
    && !(c.pc.TookHead? && c.pc.h.None?) && !(c.pc.At? && c.pc.pc.Done?)
    && heap' == HeapNext(c, heap) && part' == PartNext(c, part) && c' == c.(pc := MNext(c, heap, part, put))
  }

  lemma LinkStep(heap: seq<Node>, part: Part, put: nat, c: MCall, heap': seq<Node>, part': Part, c': MCall)
    requires c.pc.Made? && LocalMem(heap, part, c) && Rest(heap, c.op.p, part)
    requires StepsTo(heap, part, put, c, heap', part', c')
    ensures LocalMem(heap', part', c')
  {
    var x := c.pc.x;
    var more := part.chain + [x];
    forall i | 0 <= i < |more|
      ensures NodeOk(heap', c.op.p, more, i)
    {
      if i < |part.chain| {
        assert NodeOk(heap, c.op.p, part.chain, i);
      }
    }
  }

  /** A chain without its first node does not notice what becomes of that node. */
  lemma ChainRest(heap: seq<Node>, heap': seq<Node>, p: nat, c: seq<nat>)
    requires ChainOk(heap, p, c) && c != [] && |heap'| == |heap|
    requires forall x :: 0 <= x < |heap| && x != c[0] ==> heap'[x] == heap[x]
    ensures ChainOk(heap', p, c[1..])
  {
    var rest := c[1..];
    forall i | 0 <= i < |rest|
      ensures NodeOk(heap', p, rest, i)
    {
      assert NodeOk(heap, p, c, i + 1);
      assert rest[i] == c[i + 1] != c[0];
    }
  }

  lemma ShrinkStep(heap: seq<Node>, part: Part, put: nat, c: MCall, heap': seq<Node>, part': Part, c': MCall)
    requires c.pc.Shrunk? && LocalMem(heap, part, c) && StepsTo(heap, part, put, c, heap', part', c')
    ensures Rest(heap', c.op.p, part')
  {
    ChainRest(heap, heap', c.op.p, part.chain);
    hide ChainOk;
  }

  lemma NextStep(heap: seq<Node>, part: Part, put: nat, c: MCall, heap': seq<Node>, part': Part, c': MCall)
    requires c.pc.GotNext? && LocalMem(heap, part, c) && Rest(heap, c.op.p, part)
    requires StepsTo(heap, part, put, c, heap', part', c')
    ensures LocalMem(heap', part', c')
  {
    assert NodeOk(heap, c.op.p, part.chain, 0);
  }

  /** The other steps of a push, of a pop, and those before either of them. */
  lemma PushStep(heap: seq<Node>, part: Part, put: nat, c: MCall, heap': seq<Node>, part': Part, c': MCall)
    requires LocalMem(heap, part, c) && StepsTo(heap, part, put, c, heap', part', c')
    requires c.pc.Linked? || c.pc.Joined? || c.pc.Sized?
    ensures LocalMem(heap', part', c') && (Mutates(c') || Rest(heap', c.op.p, part'))
  {
    hide ChainOk;
  }

  lemma PopStep(heap: seq<Node>, part: Part, put: nat, c: MCall, heap': seq<Node>, part': Part, c': MCall)
    requires LocalMem(heap, part, c) && StepsTo(heap, part, put, c, heap', part', c')
    requires c.pc.HeadMoved? || c.pc.TailFixed? || c.pc.PopSized?
    ensures LocalMem(heap', part', c') && Mutates(c')
  {
    hide ChainOk;
  }

  lemma FirstStep(heap: seq<Node>, part: Part, put: nat, c: MCall, heap': seq<Node>, part': Part, c': MCall)
    requires LocalMem(heap, part, c) && StepsTo(heap, part, put, c, heap', part', c')
    requires c.pc.At? || c.pc.SawSize? || c.pc.TookHead? || c.pc.GotHead?
    requires PcFits(AbsCall(c)) && Rest(heap, c.op.p, part)
    ensures heap' == heap && part' == part && LocalMem(heap, part, c')
  {
    hide ChainOk;
  }

  /** Own step: the registers and the memory fit again, and outside a change the queue is at rest. */
  lemma OwnStep(heap: seq<Node>, part: Part, put: nat, c: MCall, heap': seq<Node>, part': Part, c': MCall)
    requires LocalMem(heap, part, c) && (Mutates(c) || Rest(heap, c.op.p, part))
    requires StepsTo(heap, part, put, c, heap', part', c')
    requires AbsPc(c.pc).Logged? || AbsPc(c.pc).Reading? || AbsPc(c.pc).Writing?
    requires PcFits(AbsCall(c))
    ensures LocalMem(heap', part', c') && (Mutates(c') || Rest(heap', c.op.p, part'))
  {
    hide LocalMem, Rest, StepsTo, PcFits;
    match c.pc
    case Made(_, _) =>
      LinkStep(heap, part, put, c, heap', part', c');
      LinkedMutates(heap, part, put, c, heap', part', c');
    case Shrunk(_) =>
      ShrinkStep(heap, part, put, c, heap', part', c');
      LinkedMutates(heap, part, put, c, heap', part', c');
    case GotNext(_, _) =>
      NextStep(heap, part, put, c, heap', part', c');
      LinkedMutates(heap, part, put, c, heap', part', c');
    case GotTail(_) => TailStep(heap, part, put, c, heap', part', c');
    case Linked(_, _) => PushStep(heap, part, put, c, heap', part', c');
    case Joined(_) => PushStep(heap, part, put, c, heap', part', c');
    case Sized(_, _) => PushStep(heap, part, put, c, heap', part', c');
    case HeadMoved(_) => PopStep(heap, part, put, c, heap', part', c');
    case TailFixed(_) => PopStep(heap, part, put, c, heap', part', c');
    case PopSized(_, _) => PopStep(heap, part, put, c, heap', part', c');
    case _ => FirstStep(heap, part, put, c, heap', part', c');
  }

  lemma LinkedMutates(heap: seq<Node>, part: Part, put: nat, c: MCall, heap': seq<Node>, part': Part, c': MCall)
    requires StepsTo(heap, part, put, c, heap', part', c') && (c.pc.Made? || c.pc.GotNext? || c.pc.Shrunk?)
    ensures if c.pc.Shrunk? then c'.pc == At(Applied) && LocalMem(heap', part', c') else Mutates(c')
  {
  }

  lemma TailStep(heap: seq<Node>, part: Part, put: nat, c: MCall, heap': seq<Node>, part': Part, c': MCall)
    requires c.pc.GotTail? && LocalMem(heap, part, c) && Rest(heap, c.op.p, part)
    requires StepsTo(heap, part, put, c, heap', part', c')
    ensures LocalMem(heap', part', c') && Rest(heap', c.op.p, part')
  {
    forall i | 0 <= i < |part.chain|
      ensures NodeOk(heap', c.op.p, part.chain, i) && part.chain[i] < |heap|
    {
      assert NodeOk(heap, c.op.p, part.chain, i);
    }
  }

  // ----- one step as the other calls and the other partitions see it

  /** Nothing of partition q has changed, and no message of any node. */
  ghost predicate Agree(heap: seq<Node>, heap': seq<Node>, q: nat) {
    && |heap| <= |heap'|
    && forall x :: 0 <= x < |heap| && heap[x].home == q ==> heap'[x] == heap[x]
  }

  ghost predicate SameMessages(heap: seq<Node>, heap': seq<Node>) {
    |heap| <= |heap'| && forall x :: 0 <= x < |heap| ==> heap'[x].m == heap[x].m
  }

  lemma ChainAgrees(heap: seq<Node>, heap': seq<Node>, q: nat, c: seq<nat>)
    requires ChainOk(heap, q, c) && Agree(heap, heap', q)
    ensures ChainOk(heap', q, c)
  {
    forall i | 0 <= i < |c|
      ensures NodeOk(heap', q, c, i)
    {
      assert NodeOk(heap, q, c, i);
    }
  }

  lemma LocalAgrees(heap: seq<Node>, heap': seq<Node>, part: Part, c: MCall)
    requires LocalMem(heap, part, c) && (Mutates(c) || Rest(heap, c.op.p, part)) && Agree(heap, heap', c.op.p)
    ensures LocalMem(heap', part, c) && (Mutates(c) || Rest(heap', c.op.p, part))
  {
    if Mutates(c) {
      MidAgrees(heap, heap', part, c);
    } else {
      ChainAgrees(heap, heap', c.op.p, part.chain);
      if c.pc.GotNext? {
        assert NodeOk(heap, c.op.p, part.chain, 0);
      }
    }
  }

  lemma MidAgrees(heap: seq<Node>, heap': seq<Node>, part: Part, c: MCall)
    requires LocalMem(heap, part, c) && Mutates(c) && Agree(heap, heap', c.op.p)
    ensures LocalMem(heap', part, c)
  {
    if c.op.Push? {
      var x := c.pc.x;
      ChainAgrees(heap, heap', c.op.p, part.chain + [x]);
      assert (part.chain + [x])[|part.chain|] == x && NodeOk(heap, c.op.p, part.chain + [x], |part.chain|);
    } else {
      ChainAgrees(heap, heap', c.op.p, part.chain);
    }
  }

  /** The one node that a step changes belongs to the partition of its call. */
  lemma HeapStep(heap: seq<Node>, part: Part, c: MCall, q: nat)
    requires LocalMem(heap, part, c) && (Mutates(c) || Rest(heap, c.op.p, part))
    ensures SameMessages(heap, HeapNext(c, heap))
    ensures q != c.op.p ==> Agree(heap, HeapNext(c, heap), q)
  {
    if c.pc.Made? && c.pc.tail.Some? {
      assert NodeOk(heap, c.op.p, part.chain, |part.chain| - 1);
    } else if c.pc.Shrunk? {
      assert NodeOk(heap, c.op.p, part.chain, 0);
    }
  }

  /** Without the write lock a step leaves the queue and its nodes alone. */
  lemma ReadersChangeNothing(heap: seq<Node>, part: Part, c: MCall)
    requires !HoldsWrite(AbsCall(c))
    ensures HeapNext(c, heap) == heap && PartNext(c, part) == part
  {
  }

  // ----- the invariant

  ghost predicate AllLocal(s: MState) {
    forall t :: t in s.calls ==>
                  s.calls[t].op.p < |s.parts| && LocalMem(s.heap, s.parts[s.calls[t].op.p], s.calls[t])
                  && LocalLog(s.buf, s.put, s.calls[t])
  }

  /** No call is in the middle of changing the queue of p. */
  ghost predicate Still(s: MState, p: nat) {
    forall t :: t in s.calls && s.calls[t].op.p == p ==> !Mutates(s.calls[t])
  }

  ghost predicate AtRest(s: MState) {
    forall p {:trigger s.parts[p]} :: 0 <= p < |s.parts| && Still(s, p) ==> Rest(s.heap, p, s.parts[p])
  }

  ghost predicate LogAtRest(s: MState) {
    (forall t :: t in s.calls ==> !s.calls[t].pc.Counted?) ==> s.put == 0
  }

  ghost predicate InRange(s: MState) {
    forall p, i {:trigger s.parts[p].chain[i]} ::
      0 <= p < |s.parts| && 0 <= i < |s.parts[p].chain| ==> s.parts[p].chain[i] < |s.heap|
  }

  ghost predicate MInv(s: MState) {
    Shape(Abs(s)) && Exclusive(Abs(s)) && AllLocal(s) && AtRest(s) && LogAtRest(s) && InRange(s)
  }

  lemma AbsAt(s: MState, t: nat)
    requires t in s.calls
    ensures t in Abs(s).calls && Abs(s).calls[t] == AbsCall(s.calls[t])
    ensures s.calls[t].pc.At? ==> Abs(s).calls[t] == Call(s.calls[t].op, s.calls[t].pc.pc)
  {
  }

  /** Two calls, as their locks keep them apart. */
  lemma KeptApart(s: MState, t: nat, u: nat)
    requires Exclusive(Abs(s)) && t in s.calls && u in s.calls && t != u
    ensures Apart(AbsCall(s.calls[t]), AbsCall(s.calls[u])) && Apart(AbsCall(s.calls[u]), AbsCall(s.calls[t]))
  {
    AbsAt(s, t);
    AbsAt(s, u);
    hide Abs, AbsCall, Apart;
  }

  lemma MutatorsHoldWrite(c: MCall)
    requires Mutates(c)
    ensures HoldsWrite(AbsCall(c)) && AbsCall(c).op == c.op
  {
  }

  /** Whoever holds a lock of p, and is not changing the queue, has it at rest. */
  lemma RestHeld(s: MState, t: nat)
    requires Exclusive(Abs(s)) && AllLocal(s) && AtRest(s) && t in s.calls && !Mutates(s.calls[t])
    requires HoldsRead(AbsCall(s.calls[t])) || HoldsWrite(AbsCall(s.calls[t]))
    ensures s.calls[t].op.p < |s.parts| && Rest(s.heap, s.calls[t].op.p, s.parts[s.calls[t].op.p])
  {
    hide Abs, Exclusive, Mutates, LocalMem, LocalLog, Rest;
    forall u | u in s.calls && s.calls[u].op.p == s.calls[t].op.p
      ensures !Mutates(s.calls[u])
    {
      if u != t && Mutates(s.calls[u]) {
        KeptApart(s, t, u);
        MutatorsHoldWrite(s.calls[u]);
      }
    }
    assert Still(s, s.calls[t].op.p);
  }

  // ----- refinement: a step is a step of the module Topic, or nothing at all

  /** The step takes effect: it is the last of its operation. */
  predicate Commits(c: MCall) {
    match c.pc
    case At(pc) => !(pc.Reading? || (pc.Writing? && c.op.Remove?) || pc.HaveLog? || pc.Logged?)
    case SawSize(k) => k == 0
    case TookHead(_, _) => true
    case Counted => true
    case Sized(_, _) => true
    case GotHead(h) => h.None?
    case Shrunk(_) => true
    case _ => false
  }

  lemma AbsUpdate(calls: map<nat, MCall>, t: nat, c: MCall)
    ensures AbsCalls(calls[t := c]) == AbsCalls(calls)[t := AbsCall(c)]
  {
  }

  lemma ContentsKept(heap: seq<Node>, heap': seq<Node>, c: seq<nat>)
    requires SameMessages(heap, heap') && forall i {:trigger c[i]} :: 0 <= i < |c| ==> c[i] < |heap|
    ensures Contents(heap', c) == Contents(heap, c)
  {
  }

  /** The queue of p after a step of one of its calls. */
  lemma QueueAfter(heap: seq<Node>, part: Part, c: MCall)
    requires LocalMem(heap, part, c) && (Mutates(c) || Rest(heap, c.op.p, part))
    requires forall i {:trigger part.chain[i]} :: 0 <= i < |part.chain| ==> part.chain[i] < |heap|
    ensures var q := Contents(heap, part.chain);
            Contents(HeapNext(c, heap), PartNext(c, part).chain) ==
              if Commits(c) && AbsPc(c.pc).Logged? && !c.pc.At? then Apply(c.op, q) else q
    ensures forall i {:trigger PartNext(c, part).chain[i]} ::
              0 <= i < |PartNext(c, part).chain| ==> PartNext(c, part).chain[i] < |HeapNext(c, heap)|
  {
    HeapStep(heap, part, c, c.op.p);
    ContentsKept(heap, HeapNext(c, heap), part.chain);
    if c.pc.Sized? {
      var x := c.pc.x;
      assert (part.chain + [x])[|part.chain|] == x && NodeOk(heap, c.op.p, part.chain + [x], |part.chain|);
    } else if c.pc.GotHead? && c.pc.h.None? {
      assert part.chain == [];
    }
  }

  /** The program counter of the abstract call moves just when the step takes effect. */
  lemma PcAfter(heap: seq<Node>, part: Part, put: nat, c: MCall)
    requires LocalMem(heap, part, c) && (Mutates(c) || Rest(heap, c.op.p, part) || c.pc.At?)
    requires !(c.pc.TookHead? && c.pc.h.None?) && !(c.pc.At? && c.pc.pc.Done?)
    requires c.pc.At? ==> PcFits(AbsCall(c))
    ensures var q := Contents(heap, part.chain);
            && (Commits(c) && c.op.Remove? && (AbsPc(c.pc).Reading? || AbsPc(c.pc).Writing?) ==> q != [])
            && !AbsPc(c.pc).Done?
            && AbsPc(MNext(c, heap, part, put)) == if Commits(c) then NextPc(AbsCall(c), q) else AbsPc(c.pc)
  {
    if c.pc.At? {
      PcAfterAt(heap, part, put, c);
    } else if c.pc.TookHead? {
      PcAfterFront(heap, part, put, c);
    } else if c.pc.SawSize? {
      assert c.pc.k == 0 ==> part.chain == [];
    } else {
      PcAfterInside(heap, part, put, c, Contents(heap, part.chain));
    }
  }

  lemma PcAfterAt(heap: seq<Node>, part: Part, put: nat, c: MCall)
    requires c.pc.At? && !c.pc.pc.Done? && PcFits(AbsCall(c))
    ensures Commits(c) && c.op.Remove? ==> !c.pc.pc.Reading? && !c.pc.pc.Writing?
    ensures var q := Contents(heap, part.chain);
            AbsPc(MNext(c, heap, part, put)) == if Commits(c) then NextPc(AbsCall(c), q) else c.pc.pc
  {
    hide Contents;
  }

  lemma PcAfterFront(heap: seq<Node>, part: Part, put: nat, c: MCall)
    requires c.pc.TookHead? && c.pc.h.Some? && LocalMem(heap, part, c) && Rest(heap, c.op.p, part)
    ensures Contents(heap, part.chain) != []
    ensures AbsPc(MNext(c, heap, part, put)) == NextPc(AbsCall(c), Contents(heap, part.chain))
  {
    assert NodeOk(heap, c.op.p, part.chain, 0);
  }

  lemma PcAfterInside(heap: seq<Node>, part: Part, put: nat, c: MCall, q: seq<Msg>)
    requires !c.pc.At? && !c.pc.TookHead? && !c.pc.SawSize?
    ensures !AbsPc(c.pc).Done? && !AbsPc(c.pc).Reading? && !AbsPc(c.pc).Writing?
    ensures AbsPc(MNext(c, heap, part, put)) == if Commits(c) then NextPc(AbsCall(c), q) else AbsPc(c.pc)
  {
  }

  /** What the memory of a call in the middle of an operation looks like, as far as its steps need it. */
  lemma Fits(s: MState, t: nat)
    requires MInv(s) && t in s.calls
    ensures var c := s.calls[t];
            && c.op.p < |s.parts| && LocalMem(s.heap, s.parts[c.op.p], c) && LocalLog(s.buf, s.put, c)
            && PcFits(AbsCall(c))
            && (HoldsRead(AbsCall(c)) || HoldsWrite(AbsCall(c)) ==> Mutates(c) || Rest(s.heap, c.op.p, s.parts[c.op.p]))
            && (!c.pc.At? ==> HoldsRead(AbsCall(c)) || HoldsWrite(AbsCall(c)))
  {
    var a := Abs(s);
    assert a.calls[t] == AbsCall(s.calls[t]) && PcFits(a.calls[t]);
    if !Mutates(s.calls[t]) && (HoldsRead(AbsCall(s.calls[t])) || HoldsWrite(AbsCall(s.calls[t]))) {
      RestHeld(s, t);
    }
  }

  lemma OtherStays(s: MState, t: nat, u: nat)
    requires MInv(s) && MEnabled(s, t) && u in s.calls && u != t
    ensures var r := MStep(s, t);
            && LocalMem(r.heap, r.parts[s.calls[u].op.p], s.calls[u]) && LocalLog(r.buf, r.put, s.calls[u])
  {
    var c, d := s.calls[t], s.calls[u];
    hide MInv, LocalMem, Rest, Agree;
    Fits(s, t);
    Fits(s, u);
    KeptApart(s, t, u);
    if !d.pc.At? {
      if d.op.p == c.op.p {
        if !HoldsWrite(AbsCall(c)) {
          ReadersChangeNothing(s.heap, s.parts[c.op.p], c);
        }
      } else {
        OtherPartition(s, t, d.op.p);
        LocalAgrees(s.heap, HeapNext(c, s.heap), s.parts[d.op.p], d);
      }
    } else {
      AtIsLocal(MStep(s, t).heap, MStep(s, t).parts[d.op.p], d);
    }
  }

  lemma AtIsLocal(heap: seq<Node>, part: Part, c: MCall)
    requires c.pc.At?
    ensures LocalMem(heap, part, c)
  {
  }

  /** No step reaches into another partition. */
  lemma OtherPartition(s: MState, t: nat, q: nat)
    requires MInv(s) && t in s.calls && q != s.calls[t].op.p
    ensures Agree(s.heap, HeapNext(s.calls[t], s.heap), q)
    ensures SameMessages(s.heap, HeapNext(s.calls[t], s.heap))
  {
    var c := s.calls[t];
    Fits(s, t);
    if HoldsWrite(AbsCall(c)) {
      HeapStep(s.heap, s.parts[c.op.p], c, q);
    } else {
      ReadersChangeNothing(s.heap, s.parts[c.op.p], c);
    }
  }

  /** The call's own registers, and the queue at rest behind its last store. */
  lemma OwnStays(s: MState, t: nat)
    requires MInv(s) && MEnabled(s, t)
    ensures var c, r := s.calls[t], MStep(s, t);
            && LocalMem(r.heap, r.parts[c.op.p], r.calls[t]) && r.calls[t].op == c.op
            && (HoldsWrite(AbsCall(c)) ==> Mutates(r.calls[t]) || Rest(r.heap, c.op.p, r.parts[c.op.p]))
  {
    var c := s.calls[t];
    var part := s.parts[c.op.p];
    NotDone(s, t);
    Fits(s, t);
    var c' := c.(pc := MNext(c, s.heap, part, s.put));
    hide MInv, LocalMem, Rest, Mutates, LocalLog;
    if AbsPc(c.pc).Logged? || AbsPc(c.pc).Reading? || AbsPc(c.pc).Writing? {
      OwnStep(s.heap, part, s.put, c, HeapNext(c, s.heap), PartNext(c, part), c');
    } else {
      PlainStep(s.heap, part, s.put, c);
    }
  }

  lemma NotDone(s: MState, t: nat)
    requires MEnabled(s, t)
    ensures t in s.calls && !(s.calls[t].pc.At? && s.calls[t].pc.pc.Done?)
    ensures !(s.calls[t].pc.TookHead? && s.calls[t].pc.h.None?)
  {
    assert AbsCalls(s.calls)[t] == AbsCall(s.calls[t]);
  }

  /** Steps that touch neither the queue nor its registers. */
  lemma PlainStep(heap: seq<Node>, part: Part, put: nat, c: MCall)
    requires !(AbsPc(c.pc).Logged? || AbsPc(c.pc).Reading? || AbsPc(c.pc).Writing?) && !AbsPc(c.pc).Done?
    ensures HeapNext(c, heap) == heap && PartNext(c, part) == part
    ensures LocalMem(heap, part, c.(pc := MNext(c, heap, part, put))) && !Mutates(c)
  {
  }

  /** The stream buffer: whoever holds the log mutex is the only one with a record in it. */
  lemma LogStep(buf: seq<Record>, put: nat, file: seq<Record>, heap: seq<Node>, part: Part, c: MCall)
    requires LocalLog(buf, put, c) && PcFits(AbsCall(c))
    requires !(c.pc.TookHead? && c.pc.h.None?) && !(c.pc.At? && c.pc.pc.Done?)
    requires HoldsLog(AbsCall(c)) && !c.pc.Counted? ==> put == 0
    ensures LocalLog(BufNext(c, buf), PutNext(c, put), c.(pc := MNext(c, heap, part, put)))
    ensures FileNext(c, buf, put, file) == if c.pc.Counted? then file + [RecordOf(c.op)] else file
    ensures HoldsLog(AbsCall(c)) ==> MNext(c, heap, part, put).Counted? || PutNext(c, put) == 0
    ensures !HoldsLog(AbsCall(c)) ==> !c.pc.Counted? && BufNext(c, buf) == buf && PutNext(c, put) == put
    ensures c.pc.Counted? ==> !c.op.Read?
  {
    hide HeapNext, PartNext;
    if c.pc.Counted? {
      assert buf[..1] == [buf[0]];
    }
  }

  /** While a call holds the log mutex and has not moved the put position, that is zero. */
  lemma LogFree(s: MState, t: nat)
    requires MInv(s) && t in s.calls && HoldsLog(AbsCall(s.calls[t])) && !s.calls[t].pc.Counted?
    ensures s.put == 0
  {
    forall u | u in s.calls
      ensures !s.calls[u].pc.Counted?
    {
      if u != t {
        KeptApart(s, t, u);
      }
    }
  }

  lemma OwnLog(s: MState, t: nat)
    requires MInv(s) && MEnabled(s, t)
    ensures LocalLog(MStep(s, t).buf, MStep(s, t).put, MStep(s, t).calls[t])
    ensures LogAtRest(MStep(s, t))
    ensures s.calls[t].pc.Counted? ==> !s.calls[t].op.Read?
    ensures MStep(s, t).file == if s.calls[t].pc.Counted? then s.file + [RecordOf(s.calls[t].op)] else s.file
  {
    var c, r := s.calls[t], MStep(s, t);
    NotDone(s, t);
    Fits(s, t);
    if HoldsLog(AbsCall(c)) && !c.pc.Counted? {
      LogFree(s, t);
    }
    LogStep(s.buf, s.put, s.file, s.heap, s.parts[c.op.p], c);
    assert LogAtRest(s);
    hide MInv, LocalLog, LocalMem, Rest, MNext, BufNext, PutNext, FileNext, Mutates, HoldsLog, AbsCall;
    if forall u :: u in r.calls ==> !r.calls[u].pc.Counted? {
      assert forall u :: u in s.calls && u != t ==> r.calls[u] == s.calls[u];
      assert r.calls[t] == c.(pc := MNext(c, s.heap, s.parts[c.op.p], s.put));
    }
  }

  lemma RestStays(s: MState, t: nat)
    requires MInv(s) && MEnabled(s, t)
    ensures AtRest(MStep(s, t))
  {
    var c, r := s.calls[t], MStep(s, t);
    NotDone(s, t);
    Fits(s, t);
    OwnStays(s, t);
    hide LocalMem, Rest, Mutates, LocalLog, MNext, HeapNext, PartNext, Agree;
    forall p | 0 <= p < |r.parts| && Still(r, p)
      ensures Rest(r.heap, p, r.parts[p])
    {
      assert forall u :: u in s.calls && u != t ==> r.calls[u] == s.calls[u];
      if p != c.op.p {
        assert Still(s, p);
        OtherPartition(s, t, p);
        RestAgrees(s.heap, r.heap, p, s.parts[p]);
      } else if !HoldsWrite(AbsCall(c)) {
        ReadersChangeNothing(s.heap, s.parts[p], c);
        ReadersDoNotMutate(c);
        assert Still(s, p);
      }
    }
  }

  lemma ReadersDoNotMutate(c: MCall)
    requires !HoldsWrite(AbsCall(c))
    ensures !Mutates(c)
  {
  }

  lemma RestAgrees(heap: seq<Node>, heap': seq<Node>, p: nat, part: Part)
    requires Rest(heap, p, part) && Agree(heap, heap', p)
    ensures Rest(heap', p, part)
  {
    ChainAgrees(heap, heap', p, part.chain);
  }

  lemma QueuesAfter(s: MState, t: nat, q: nat)
    requires MInv(s) && MEnabled(s, t) && q < |s.parts|
    ensures var c, r := s.calls[t], MStep(s, t);
            && |r.parts| == |s.parts|
            && Contents(r.heap, r.parts[q].chain) ==
                (if q == c.op.p && Commits(c) && AbsPc(c.pc).Logged? && !c.pc.At?
                 then Apply(c.op, Contents(s.heap, s.parts[q].chain))
                 else Contents(s.heap, s.parts[q].chain))
            && forall i {:trigger r.parts[q].chain[i]} :: 0 <= i < |r.parts[q].chain| ==> r.parts[q].chain[i] < |r.heap|
  {
    var c := s.calls[t];
    Fits(s, t);
    hide LocalMem, Rest, Mutates, LocalLog, MNext, Apply, Agree;
    if q != c.op.p {
      OtherPartition(s, t, q);
      ContentsKept(s.heap, HeapNext(c, s.heap), s.parts[q].chain);
    } else if HoldsWrite(AbsCall(c)) || HoldsRead(AbsCall(c)) {
      QueueAfter(s.heap, s.parts[q], c);
    } else {
      ReadersChangeNothing(s.heap, s.parts[q], c);
    }
  }

  lemma QueuesRefine(s: MState, t: nat)
    requires MInv(s) && MEnabled(s, t)
    ensures var c, r, qs := s.calls[t], MStep(s, t), AbsQueues(s.heap, s.parts);
            AbsQueues(r.heap, r.parts) ==
              if Commits(c) && AbsPc(c.pc).Logged? then qs[c.op.p := Apply(c.op, qs[c.op.p])] else qs
    ensures InRange(MStep(s, t))
  {
    var c, r := s.calls[t], MStep(s, t);
    hide MInv, MStep, MEnabled, Apply, Contents;
    forall q | 0 <= q < |s.parts|
      ensures |r.parts| == |s.parts|
      ensures AbsQueues(r.heap, r.parts)[q] ==
                if q == c.op.p && Commits(c) && AbsPc(c.pc).Logged? && !c.pc.At?
                then Apply(c.op, AbsQueues(s.heap, s.parts)[q])
                else AbsQueues(s.heap, s.parts)[q]
      ensures forall i {:trigger r.parts[q].chain[i]} :: 0 <= i < |r.parts[q].chain| ==> r.parts[q].chain[i] < |r.heap|
    {
      QueuesAfter(s, t, q);
    }
    SameParts(s, t);
  }

  lemma SameParts(s: MState, t: nat)
    requires MEnabled(s, t)
    ensures t in s.calls && s.calls[t].op.p < |s.parts| == |MStep(s, t).parts|
  {
  }

  lemma CallsRefine(s: MState, t: nat)
    requires MInv(s) && MEnabled(s, t)
    ensures s.calls[t].op.p < |s.parts| && t in AbsCalls(s.calls) && AbsCalls(s.calls)[t] == AbsCall(s.calls[t])
    ensures var c, q := s.calls[t], AbsQueues(s.heap, s.parts)[s.calls[t].op.p];
            && !AbsPc(c.pc).Done?
            && (Commits(c) && c.op.Remove? && (AbsPc(c.pc).Reading? || AbsPc(c.pc).Writing?) ==> q != [])
            && AbsCalls(MStep(s, t).calls) ==
               (if Commits(c) then AbsCalls(s.calls)[t := AbsCall(c).(pc := NextPc(AbsCall(c), q))]
                else AbsCalls(s.calls))
  {
    var c := s.calls[t];
    NotDone(s, t);
    Fits(s, t);
    PcAfter(s.heap, s.parts[c.op.p], s.put, c);
    AbsUpdate(s.calls, t, c.(pc := MNext(c, s.heap, s.parts[c.op.p], s.put)));
    hide MInv, LocalMem, Rest, LocalLog, MNext, NextPc;
    assert AbsCalls(s.calls)[t := AbsCalls(s.calls)[t]] == AbsCalls(s.calls);
  }

  /** Under the invariant a step is a step of the module Topic if it takes effect, and otherwise
      changes nothing which that module can see. */
  lemma Refines(s: MState, t: nat)
    requires MInv(s) && MEnabled(s, t)
    ensures Commits(s.calls[t]) ==> Enabled(Abs(s), t) && Abs(MStep(s, t)) == Step(Abs(s), t)
    ensures !Commits(s.calls[t]) ==> Abs(MStep(s, t)) == Abs(s)
  {
    QueuesRefine(s, t);
    CallsRefine(s, t);
    OwnLog(s, t);
    LogCommits(s.calls[t]);
    hide MInv, MStep, AbsQueues, AbsCalls, Apply, NextPc, Commits;
  }

  lemma LogCommits(c: MCall)
    ensures c.pc.Counted? <==> Commits(c) && AbsPc(c.pc).HaveLog?
  {
  }

  lemma LocalStays(s: MState, t: nat)
    requires MInv(s) && MEnabled(s, t)
    ensures AllLocal(MStep(s, t))
  {
    var c, r := s.calls[t], MStep(s, t);
    OwnStays(s, t);
    OwnLog(s, t);
    SameParts(s, t);
    assert forall u :: u in s.calls ==> s.calls[u].op.p < |s.parts|;
    forall u | u in r.calls
      ensures r.calls[u].op.p < |r.parts| && LocalMem(r.heap, r.parts[r.calls[u].op.p], r.calls[u])
              && LocalLog(r.buf, r.put, r.calls[u])
    {
      if u != t {
        assert u in s.calls && r.calls[u] == s.calls[u];
        hide MInv, MStep, MEnabled, LocalMem, LocalLog;
        OtherStays(s, t, u);
      }
    }
  }

  /** Every step keeps the invariant. */
  lemma StepKeeps(s: MState, t: nat)
    requires MInv(s) && MEnabled(s, t)
    ensures MInv(MStep(s, t))
  {
    Refines(s, t);
    LocalStays(s, t);
    RestStays(s, t);
    OwnLog(s, t);
    QueuesRefine(s, t);
    if Commits(s.calls[t]) {
      StepShape(Abs(s), t);
      StepExclusive(Abs(s), t);
    }
    hide MStep, Abs, Shape, Exclusive, AllLocal, AtRest, LogAtRest, InRange, Commits, Step, Enabled, MEnabled;
  }

  lemma StartKeeps(s: MState, t: nat, op: Op)
    requires MInv(s) && MCan(s, Start(t, op))
    ensures MInv(MDo(s, Start(t, op)))
    ensures Can(Abs(s), Start(t, op)) && Abs(MDo(s, Start(t, op))) == Do(Abs(s), Start(t, op))
  {
    StartAbs(s, t, op);
    StartLocal(s, t, op);
    StartShape(Abs(s), t, op);
    hide Abs, MDo, MCan, Do, Can, Exclusive, Shape, AllLocal, AtRest, LogAtRest, InRange;
  }

  lemma StartAbs(s: MState, t: nat, op: Op)
    requires MCan(s, Start(t, op))
    ensures Can(Abs(s), Start(t, op)) && Abs(MDo(s, Start(t, op))) == Do(Abs(s), Start(t, op))
  {
    AbsUpdate(s.calls, t, MCall(op, At(FirstPc(op))));
  }

  /** The state with a new call that has done nothing yet. */
  ghost function WithCall(s: MState, t: nat, op: Op): MState {
    s.(calls := s.calls[t := MCall(op, At(FirstPc(op)))])
  }

  lemma StartLocal(s: MState, t: nat, op: Op)
    requires MInv(s) && MCan(s, Start(t, op))
    ensures var r := MDo(s, Start(t, op)); AllLocal(r) && AtRest(r) && LogAtRest(r) && InRange(r)
  {
    hide MInv, AllLocal, AtRest, LogAtRest, InRange;
    StartCan(s, t, op);
    StartAllLocal(s, t, op);
    StartAtRest(s, t, op);
    StartLog(s, t, op);
  }

  lemma StartCan(s: MState, t: nat, op: Op)
    requires MInv(s) && MCan(s, Start(t, op))
    ensures op.p < |s.parts| && t !in s.calls && MDo(s, Start(t, op)) == WithCall(s, t, op)
    ensures AllLocal(s) && AtRest(s) && LogAtRest(s) && InRange(s)
  {
    hide AllLocal, AtRest, LogAtRest, InRange, Abs, Exclusive, Shape;
  }

  lemma StartAllLocal(s: MState, t: nat, op: Op)
    requires AllLocal(s) && op.p < |s.parts|
    ensures AllLocal(WithCall(s, t, op))
  {
    AtIsLocal(s.heap, s.parts[op.p], MCall(op, At(FirstPc(op))));
    NewIsQuiet(s.buf, s.put, op);
    hide LocalMem, LocalLog;
  }

  lemma StartAtRest(s: MState, t: nat, op: Op)
    requires AtRest(s) && t !in s.calls
    ensures AtRest(WithCall(s, t, op))
  {
    var r := WithCall(s, t, op);
    NewIsQuiet(s.buf, s.put, op);
    hide Rest, Mutates, LocalLog;
    forall p | 0 <= p < |r.parts| && Still(r, p)
      ensures Rest(r.heap, p, r.parts[p])
    {
      assert forall u :: u in s.calls ==> u in r.calls && r.calls[u] == s.calls[u];
      assert Still(s, p);
    }
  }

  lemma StartLog(s: MState, t: nat, op: Op)
    requires LogAtRest(s) && InRange(s) && t !in s.calls
    ensures LogAtRest(WithCall(s, t, op)) && InRange(WithCall(s, t, op))
  {
    var r := WithCall(s, t, op);
    assert forall u :: u in s.calls ==> u in r.calls && r.calls[u] == s.calls[u];
  }

  lemma NewIsQuiet(buf: seq<Record>, put: nat, op: Op)
    ensures var c := MCall(op, At(FirstPc(op))); LocalLog(buf, put, c) && !Mutates(c)
  {
  }

  lemma StartShape(s: State, t: nat, op: Op)
    requires Shape(s) && Exclusive(s) && Can(s, Start(t, op))
    ensures Shape(Do(s, Start(t, op))) && Exclusive(Do(s, Start(t, op)))
  {
    var r := Do(s, Start(t, op));
    forall a, b | a in r.calls && b in r.calls && a != b
      ensures Apart(r.calls[a], r.calls[b])
    {
      assert a in s.calls && b in s.calls ==> Apart(s.calls[a], s.calls[b]);
    }
  }

  lemma InitKeeps(n: nat)
    ensures MInv(MInit(n)) && Abs(MInit(n)) == Init(n)
  {
    forall p | 0 <= p < n
      ensures Rest(MInit(n).heap, p, MInit(n).parts[p]) && Contents(MInit(n).heap, MInit(n).parts[p].chain) == []
    {
    }
    assert Abs(MInit(n)).calls == map[];
  }

  // ----- whole runs

  /** The steps of a run that take effect. */
  ghost function AtomicRun(n: nat, ls: seq<Label>): seq<Label>
    requires MLegal(n, ls)
  {
    if ls == [] then []
    else
      var before, l := ls[..|ls| - 1], ls[|ls| - 1];
      AtomicRun(n, before) + if l.Start? || Commits(MExec(n, before).calls[l.t]) then [l] else []
  }

  lemma Append(n: nat, run: seq<Label>, l: Label)
    requires Legal(n, run) && Can(Exec(n, run), l)
    ensures Legal(n, run + [l]) && Exec(n, run + [l]) == Do(Exec(n, run), l)
  {
    assert (run + [l])[..|run + [l]| - 1] == run;
  }

  /** Main result: every interleaving of loads and stores is a run of the module Topic, whose calls are
      where these calls are, whose queues are what the linked nodes hold, and whose log is the file. */
  lemma {:induction false} Simulates(n: nat, ls: seq<Label>)
    requires MLegal(n, ls)
    ensures MInv(MExec(n, ls)) && |MExec(n, ls).parts| == n
    ensures Legal(n, AtomicRun(n, ls)) && Exec(n, AtomicRun(n, ls)) == Abs(MExec(n, ls))
  {
    hide MInv, Abs, Commits, MEnabled, MStep, Can, Do;
    if ls == [] {
      InitKeeps(n);
    } else {
      var before, l := ls[..|ls| - 1], ls[|ls| - 1];
      var s := MExec(n, before);
      Simulates(n, before);
      match l
      case Start(t, op) =>
        StartKeeps(s, t, op);
        Append(n, AtomicRun(n, before), l);
      case Go(t) =>
        StepKeeps(s, t);
        Refines(s, t);
        SameParts(s, t);
        GoIsStep(Abs(s), t);
        if Commits(s.calls[t]) {
          Append(n, AtomicRun(n, before), l);
        } else {
          assert AtomicRun(n, before) + [] == AtomicRun(n, before);
        }
    }
  }

  lemma GoIsStep(s: State, t: nat)
    ensures Enabled(s, t) ==> Can(s, Go(t)) && Do(s, Go(t)) == Step(s, t)
  {
  }
}
