/** The linked message queue of a partition, against the sequence of messages it stands for. */
module MessageQueue {
  import opened Words

  type Msg = seq<byte>

  /** What a message node gives back of the bytes it was made from: its length field has 16 bits. */
  function View(msg: Msg): Msg {
    msg[..|msg| % 0x1_0000]
  }

  /** A message survives in a node exactly when its length fits the field. */
  lemma ViewIsWhole(msg: Msg)
    ensures View(msg) == msg <==> |msg| <= 0xFFFF
  {
    assert |View(msg)| == |msg| % 0x1_0000;
    if |msg| <= 0xFFFF {
      assert View(msg) == msg[..|msg|] == msg;
    }
  }

  /** One byte too many, and the node gives nothing back. */
  lemma TooLongByOne(msg: Msg)
    requires |msg| == 0x1_0000
    ensures View(msg) == []
  {
  }

  class Node {
    const bytes: Msg
    const len: nat
    var next: Node?

    /** message_t::create_message: the bytes are copied behind the node, the link is null. */
    constructor (msg: Msg)
      ensures GetData() == View(msg) && next == null
    {
      bytes, len, next := msg, |msg| % 0x1_0000, null;
    }

    function GetData(): Msg {
      if len <= |bytes| then bytes[..len] else bytes
    }
  }

  ghost function Link(nodes: seq<Node>, i: int): Node? {
    if 0 <= i < |nodes| then nodes[i] else null
  }

  ghost predicate Distinct(nodes: seq<Node>) {
    forall i, j :: 0 <= i < j < |nodes| ==> nodes[i] != nodes[j]
  }

  lemma DistinctAppend(nodes: seq<Node>, n: Node)
    requires Distinct(nodes) && n !in nodes
    ensures Distinct(nodes + [n])
  {
  }

  /** The messages of a chain of nodes; a node never changes its bytes. */
  ghost function Messages(nodes: seq<Node>): (c: seq<Msg>)
    ensures |c| == |nodes|
  {
    seq(|nodes|, i requires 0 <= i < |nodes| => nodes[i].GetData())
  }

  lemma MessagesAppend(nodes: seq<Node>, n: Node)
    ensures Messages(nodes + [n]) == Messages(nodes) + [n.GetData()]
  {
  }

  lemma MessagesRest(nodes: seq<Node>)
    ensures nodes != [] ==> Messages(nodes[1..]) == Messages(nodes)[1..]
    ensures Messages([]) == []
  {
  }

  lemma MovedAlong(gone: seq<Node>, nodes: seq<Node>)
    ensures nodes != [] ==> gone + [nodes[0]] + nodes[1..] == gone + nodes
  {
  }

  class Queue {
    var size: nat
    var head: Node?
    var tail: Node?
    ghost var nodes: seq<Node>      // the chain from head to tail
    ghost var created: seq<Node>    // every node push ever made, in order
    ghost var destroyed: seq<Node>  // every node given back, in order

    /** The chain is acyclic, has size nodes and ends in tail; what was created is what was
        destroyed followed by what is still linked, and no node occurs twice. */
    ghost predicate Valid()
      reads this, nodes
    {
      && size == |nodes| && head == Link(nodes, 0) && tail == Link(nodes, |nodes| - 1)
      && (forall i {:trigger nodes[i]} :: 0 <= i < |nodes| ==> nodes[i].next == Link(nodes, i + 1))
      && Distinct(nodes)
      && created == destroyed + nodes && Distinct(created)
    }

    /** The messages in the queue, oldest first. */
    ghost function Contents(): (c: seq<Msg>)
      ensures |c| == |nodes|
      reads this
    {
      Messages(nodes)
    }

    constructor ()
      ensures Valid() && Contents() == [] && created == []
    {
      size, head, tail := 0, null, null;
      nodes, created, destroyed := [], [], [];
    }

    /** Appends a message. The iterator returned is that of the head, not of the new node. */
    method Push(msg: Msg) returns (it: Node?)
      requires Valid()
      modifies this, nodes
      ensures Valid() && Contents() == old(Contents()) + [View(msg)]
      ensures |created| == |old(created)| + 1 && created[..|old(created)|] == old(created)
      ensures fresh(created[|old(created)|]) && destroyed == old(destroyed)
      ensures nodes == old(nodes) + [created[|old(created)|]]
      ensures it == nodes[0]
    {
      hide View, Distinct, Messages;
      ghost var was, made := nodes, created;
      if tail == null {
        tail := new Node(msg);
        head := tail;
      } else {
        var newTail := new Node(msg);
        tail.next := newTail;
        tail := newTail;
      }
      nodes, created := nodes + [tail], created + [tail];
      size := size + 1;
      DistinctAppend(was, tail);
      DistinctAppend(made, tail);
      MessagesAppend(was, tail);
      return head;
    }

    /** Drops the oldest message and gives its node back; nothing happens to an empty queue. */
    method Pop()
      requires Valid()
      modifies this
      ensures Valid() && created == old(created)
      ensures nodes == if old(nodes) == [] then [] else old(nodes)[1..]
      ensures old(nodes) == [] ==> Contents() == [] && destroyed == old(destroyed)
      ensures old(nodes) != [] ==> Contents() == old(Contents())[1..] && destroyed == old(destroyed) + [old(nodes)[0]]
    {
      hide Messages, View;
      MessagesRest(nodes);
      MovedAlong(destroyed, nodes);
      if head == null {
        return;
      }
      var oldHead := head;
      head := head.next;
      if head == null {
        tail := null;
      }
      size := size - 1;
      nodes, destroyed := nodes[1..], destroyed + [oldHead];
    }

    /** The node at the front, null when there is none. */
    method Front() returns (it: Node?)
      requires Valid()
      ensures it == null <==> Contents() == []
      ensures it != null ==> it.GetData() == Contents()[0]
    {
      return head;
    }

    method Empty() returns (b: bool)
      requires Valid()
      ensures b == (Contents() == [])
    {
      return size == 0;
    }

    /** The iterator loop from begin to end visits the messages in order. */
    method Walk() returns (visited: seq<Msg>)
      requires Valid()
      ensures visited == Contents()
    {
      visited := [];
      var at := head;
      ghost var i := 0;
      while at != null
        invariant 0 <= i <= |nodes| && at == Link(nodes, i)
        invariant visited == Contents()[..i]
        decreases |nodes| - i
      {
        visited := visited + [at.GetData()];
        at := at.next;
        i := i + 1;
      }
    }

    /** The destructor: reads each link before giving its node back. Afterwards every node that was
        ever created has been destroyed, and each exactly once. */
    method Destroy()
      requires Valid()
      modifies this
      ensures created == old(created) && destroyed == created
      ensures Distinct(destroyed)
    {
      var current := head;
      ghost var i := 0;
      while current != null
        invariant nodes == old(nodes) && created == old(created) && 0 <= i <= |nodes|
        invariant current == Link(nodes, i)
        invariant destroyed == old(destroyed) + nodes[..i]
        decreases |nodes| - i
      {
        var old' := current;
        current := current.next;
        assert old' !in destroyed by {
          assert created == old(destroyed) + nodes && created[|old(destroyed)| + i] == old';
          assert created[..|old(destroyed)| + i] == destroyed;
        }
        destroyed := destroyed + [old'];
        i := i + 1;
      }
      assert nodes[..i] == nodes;
    }
  }

  /** Any mix of pushes and pops behaves like the same mix on a sequence. */
  datatype Call = PushCall(msg: Msg) | PopCall

  ghost function Run(c: seq<Msg>, calls: seq<Call>): seq<Msg> {
    if calls == [] then c
    else
      var d := Run(c, calls[..|calls| - 1]);
      match calls[|calls| - 1]
      case PushCall(msg) => d + [View(msg)]
      case PopCall => if d == [] then [] else d[1..]
  }

  method Replay(calls: seq<Call>) returns (q: Queue)
    ensures fresh(q) && q.Valid() && q.Contents() == Run([], calls)
  {
    q := new Queue();
    for k := 0 to |calls|
      invariant fresh(q) && q.Valid() && q.Contents() == Run([], calls[..k])
      invariant forall i :: 0 <= i < |q.nodes| ==> fresh(q.nodes[i])
    {
      assert calls[..k + 1][..k] == calls[..k];
      match calls[k]
      case PushCall(msg) =>
        var it := q.Push(msg);
      case PopCall => q.Pop();
    }
    assert calls[..|calls|] == calls;
  }
}
