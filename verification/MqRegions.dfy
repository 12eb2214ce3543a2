/**
 The regions of the message queue code, each as one step of the state machine: whatever the interleaving, the
 pointers keep showing the machine's lists, so what is proved of its runs holds of them.
 */
module MqRegions {
  import opened Common
  import opened MessageQueue
  import opened MqNodes
  import opened MqTheorems

  /** The code does not number its messages. */
  ghost predicate SameLetters(xs: seq<Letter>, ys: seq<Letter>) {
    |xs| == |ys| && forall i | 0 <= i < |xs| :: xs[i].body == ys[i].body && xs[i].prio == ys[i].prio
  }

  /** The pointers, the counter and the nodes' contents are those of `q`. */
  ghost predicate Shows(m: Queue, q: Mq)
    reads m
  {
    && m.Valid() && m.max == q.max && m.free == q.free && m.queue == q.queue && m.entry == q.entry
    && SameLetters(m.letter, q.letter)
  }

  lemma {:induction false} SameInsert(queue: seq<nat>, xs: seq<Letter>, ys: seq<Letter>, node: nat, prio: int)
    requires SameLetters(xs, ys) && forall i | 0 <= i < |queue| :: queue[i] < |xs|
    ensures Insert(queue, xs, node, prio) == Insert(queue, ys, node, prio)
  {
    if queue == [] {
    } else {
      SameInsert(queue[1..], xs, ys, node, prio);
    }
  }

  /** What an actor holds is out of both lists. */
  lemma HeldOut(m: Queue, q: Mq, a: nat)
    requires Shows(m, q) && Inv(q) && a < |q.pc| && Holding(q.pc[a])
    ensures m.Out(q.pc[a].node) && PcOk(q, a)
    ensures forall i | 0 <= i < |q.queue| :: q.queue[i] < |q.letter|
  {
    assert PcOk(q, a);
  }

  /** First region of a send, or of an urgent one. */
  method TakeNode(m: Queue, ghost q: Mq, ghost x: Action) returns (node: Option<nat>)
    requires Shows(m, q) && Inv(q) && Enabled(q, x) && (x.Send? || x.SendAgain?)
    modifies m
    ensures Shows(m, Step(q, x)) && Inv(Step(q, x)) && x.a < |Step(q, x).pc|
    ensures node == if Step(q, x).pc[x.a].Sending? then Some(Step(q, x).pc[x.a].node) else None
  {
    hide Inv, Queue.Valid;
    StepKeeps(q, x);
    node := m.TakeFree();
  }

  /** Copying a message into the node, without the lock. */
  method CopyIn(m: Queue, node: nat, body: int, ghost q: Mq, ghost a: nat)
    requires Shows(m, q) && Inv(q) && a < |q.pc| && q.pc[a].Sending? && q.pc[a].node == node && q.pc[a].body == body
    modifies m
    ensures Shows(m, Step(q, Copy(a))) && Inv(Step(q, Copy(a)))
  {
    hide Inv;
    HeldOut(m, q, a);
    StepKeeps(q, Copy(a));
    m.letter := m.letter[node := m.letter[node].(body := body)];
  }

  /** Second region of a send, or of an urgent one. */
  method LinkNode(m: Queue, node: nat, prio: int, urgent: bool, byPrio: bool, ghost q: Mq, ghost a: nat) returns (ok: bool)
    requires Shows(m, q) && Inv(q) && a < |q.pc| && q.byPrio == byPrio
    requires q.pc[a].Filled? && q.pc[a].node == node && q.pc[a].prio == prio && q.pc[a].urgent == urgent
    modifies m
    ensures Shows(m, Step(q, Link(a))) && Inv(Step(q, Link(a)))
    ensures ok
  {
    hide Inv, Queue.Valid;
    HeldOut(m, q, a);
    LinkCounts(q, a);
    StepKeeps(q, Link(a));
    if urgent {
      ok := m.LinkHead(node);
    } else if byPrio {
      SameInsert(q.queue, m.letter, q.letter, node, prio);
      ok := m.LinkByPrio(node, prio);
    } else {
      ok := m.LinkTail(node);
    }
  }

  /** First region of a receive. */
  method UnlinkNode(m: Queue, ghost q: Mq, ghost x: Action) returns (node: Option<nat>)
    requires Shows(m, q) && Inv(q) && Enabled(q, x) && x.Receive?
    modifies m
    ensures Shows(m, Step(q, x)) && Inv(Step(q, x)) && x.a < |Step(q, x).pc|
    ensures node == if Step(q, x).pc[x.a].Receiving? then Some(Step(q, x).pc[x.a].node) else None
  {
    hide Queue.Valid;
    StepKeeps(q, x);
    node := m.Unlink();
  }

  /** Copying a message out of the node, without the lock. */
  method CopyOut(m: Queue, node: nat, ghost q: Mq, ghost a: nat) returns (body: int, prio: int)
    requires Shows(m, q) && Inv(q) && a < |q.pc| && q.pc[a].Receiving? && q.pc[a].node == node
    ensures Shows(m, Step(q, Copy(a))) && Inv(Step(q, Copy(a)))
    ensures body == q.pc[a].due.body && prio == q.pc[a].due.prio
  {
    hide Inv;
    HeldOut(m, q, a);
    StepKeeps(q, Copy(a));
    body, prio := m.letter[node].body, m.letter[node].prio;
  }

  /** Second region of a receive. */
  method ReturnNode(m: Queue, node: nat, ghost q: Mq, ghost a: nat)
    requires Shows(m, q) && Inv(q) && a < |q.pc| && q.pc[a].Copied? && q.pc[a].node == node
    modifies m
    ensures Shows(m, Step(q, GiveBack(a))) && Inv(Step(q, GiveBack(a)))
  {
    hide Inv, Queue.Valid;
    HeldOut(m, q, a);
    StepKeeps(q, GiveBack(a));
    m.GiveBack(node);
  }

  method Reset(m: Queue, ghost q: Mq, ghost a: nat)
    requires Shows(m, q) && Inv(q) && Enabled(q, Action.Reset(a))
    modifies m
    ensures Shows(m, Step(q, Action.Reset(a))) && Inv(Step(q, Action.Reset(a)))
  {
    hide Inv, Queue.Valid;
    StepKeeps(q, Action.Reset(a));
    m.Reset();
  }
}
