/**
 The message queue over interleaved senders and receivers. Each step is one region under the queue's lock, or
 the unlocked copying in between, during which the actor holds a node that is in no list. `stamp` and `log`
 number the messages in the order in which they are linked, and record what was linked and taken; the code
 stores neither.
 */
module MessageQueue {
  import opened Common

  /** RT_MQ_ENTRY_MAX */
  const ENTRY_MAX: nat := 0xffff
  /** RT_ALIGN_SIZE */
  const ALIGN: nat := 8

  datatype Letter = Letter(body: int, prio: int, stamp: nat)

  datatype Pc =
    | Idle
    | Sending(node: nat, body: int, prio: int, urgent: bool)  // node taken, nothing copied yet
    | Filled(node: nat, body: int, prio: int, urgent: bool)   // copied, not linked yet
    | Receiving(node: nat, due: Letter)                       // unlinked, not copied yet
    | Copied(node: nat, due: Letter, body: int)               // copied, node not given back yet
    | AwaitRoom(body: int, prio: int)                         // asleep in suspend_sender_thread
    | GotRoom(body: int, prio: int)                           // woken, about to look again
    | AwaitMessage                                            // asleep in suspend_thread
    | GotMessage                                              // woken, about to look again

  datatype Event = Linked(letter: Letter, urgent: bool) | Taken(letter: Letter) | Discarded

  datatype Mq = Mq(
    max: nat, byPrio: bool, free: seq<nat>, queue: seq<nat>, entry: nat, letter: seq<Letter>,
    senders: seq<nat>, receivers: seq<nat>, pc: seq<Pc>, log: seq<Event>)

  datatype Action =
    | Send(a: nat, body: int, prio: int, urgent: bool, wait: bool)
    | SendAgain(a: nat, wait: bool)
    | Link(a: nat)
    | Receive(a: nat, wait: bool)
    | Copy(a: nat)
    | GiveBack(a: nat)
    | TimeOut(a: nat)
    | Reset(a: nat)

  // ----- the pool -----

  /** What one message takes in the pool: its aligned size behind a header of two words, or three with a priority. */
  function NodeSize(msgSize: nat, byPrio: bool): (r: nat)
    ensures r > 0
  {
    (msgSize + ALIGN - 1) / ALIGN * ALIGN + if byPrio then 12 else 8
  }

  /** The number of nodes, as stored in 16 bits. */
  function MaxMsgs(msgSize: nat, poolSize: nat, byPrio: bool): (r: nat)
    ensures r <= ENTRY_MAX
  {
    poolSize / NodeSize(msgSize, byPrio) % (ENTRY_MAX + 1)
  }

  // ----- steps -----

  /** First locked region of a send: take a node, fail, or go to sleep. */
  function TakeNode(q: Mq, a: nat, body: int, prio: int, urgent: bool, wait: bool): Mq
    requires a < |q.pc|
  {
    if q.free != [] then
      q.(free := q.free[1..], pc := q.pc[a := Sending(q.free[0], body, prio, urgent)])
    else if urgent || !wait then
      q.(pc := q.pc[a := Idle])
    else
      q.(senders := q.senders + [a], pc := q.pc[a := AwaitRoom(body, prio)])
  }

  /** The walk of the priority build: in front of the first message of lower priority. */
  function Insert(queue: seq<nat>, letter: seq<Letter>, node: nat, prio: int): (r: seq<nat>)
    requires forall i | 0 <= i < |queue| :: queue[i] < |letter|
    ensures forall n :: n in r <==> n == node || n in queue
    ensures |r| == |queue| + 1
  {
    if queue == [] then [node]
    else if letter[queue[0]].prio < prio then [node] + queue
    else
      assert forall n :: n in queue <==> n == queue[0] || n in queue[1..];
      [queue[0]] + Insert(queue[1..], letter, node, prio)
  }

  function Stamps(log: seq<Event>): nat {
    if log == [] then 0 else Stamps(log[..|log| - 1]) + if log[|log| - 1].Linked? then 1 else 0
  }

  /** What the linked node then holds: urgent messages keep whatever priority the node had before. */
  function Sealed(q: Mq, p: Pc): Letter
    requires p.Filled? && p.node < |q.letter|
  {
    Letter(p.body, if q.byPrio && !p.urgent then p.prio else q.letter[p.node].prio, Stamps(q.log))
  }

  /** Second locked region of a send. */
  function LinkNode(q: Mq, a: nat): Mq
    requires a < |q.pc| && q.pc[a].Filled? && q.pc[a].node < |q.letter|
    requires forall i | 0 <= i < |q.queue| :: q.queue[i] < |q.letter|
  {
    var p := q.pc[a];
    var l := Sealed(q, p);
    var queue :=
      if p.urgent then [p.node] + q.queue
      else if q.byPrio then Insert(q.queue, q.letter, p.node, p.prio)
      else q.queue + [p.node];
    var r := q.(queue := queue, letter := q.letter[p.node := l], pc := q.pc[a := Idle],
      log := q.log + [Linked(l, p.urgent)]);
    if q.entry < ENTRY_MAX then WakeReceiver(r.(entry := q.entry + 1)) else r
  }

  function WakeReceiver(q: Mq): Mq {
    if q.receivers == [] || q.receivers[0] >= |q.pc| then q
    else q.(receivers := q.receivers[1..], pc := q.pc[q.receivers[0] := GotMessage])
  }

  function WakeSender(q: Mq): Mq {
    if q.senders == [] || q.senders[0] >= |q.pc| || !q.pc[q.senders[0]].AwaitRoom? then q
    else
      var p := q.pc[q.senders[0]];
      q.(senders := q.senders[1..], pc := q.pc[q.senders[0] := GotRoom(p.body, p.prio)])
  }

  /** First locked region of a receive: unlink the first node, fail, or go to sleep. */
  function UnlinkNode(q: Mq, a: nat, wait: bool): Mq
    requires a < |q.pc| && (q.queue != [] ==> q.queue[0] < |q.letter|)
  {
    if q.entry == 0 then
      if wait then q.(receivers := q.receivers + [a], pc := q.pc[a := AwaitMessage])
      else q.(pc := q.pc[a := Idle])
    else if q.queue == [] then q
    else
      var n := q.queue[0];
      q.(queue := q.queue[1..], entry := q.entry - 1, pc := q.pc[a := Receiving(n, q.letter[n])],
         log := q.log + [Taken(q.letter[n])])
  }

  /** Copying into or out of the node the actor holds, without the lock. */
  function CopyNode(q: Mq, a: nat): Mq
    requires a < |q.pc| && (q.pc[a].Sending? || q.pc[a].Receiving?) && q.pc[a].node < |q.letter|
  {
    var p := q.pc[a];
    if p.Sending? then
      q.(letter := q.letter[p.node := q.letter[p.node].(body := p.body)],
         pc := q.pc[a := Filled(p.node, p.body, p.prio, p.urgent)])
    else
      q.(pc := q.pc[a := Copied(p.node, p.due, q.letter[p.node].body)])
  }

  /** Second locked region of a receive. */
  function ReturnNode(q: Mq, a: nat): Mq
    requires a < |q.pc| && q.pc[a].Copied?
  {
    WakeSender(q.(free := [q.pc[a].node] + q.free, pc := q.pc[a := Idle]))
  }

  function Reverse(ns: seq<nat>): (r: seq<nat>)
    ensures |r| == |ns| && forall n :: n in r <==> n in ns
  {
    if ns == [] then [] else Reverse(ns[1..]) + [ns[0]]
  }

  /** RT_IPC_CMD_RESET: everybody asleep returns with an error, every queued node is pushed onto the free list. */
  function Discard(q: Mq): Mq {
    q.(free := Reverse(q.queue) + q.free, queue := [], entry := 0, senders := [], receivers := [],
       pc := seq(|q.pc|, i requires 0 <= i < |q.pc| =>
         if q.pc[i].AwaitRoom? || q.pc[i].AwaitMessage? then Idle else q.pc[i]),
       log := q.log + [Discarded])
  }

  ghost predicate Enabled(q: Mq, x: Action) {
    && x.a < |q.pc|
    && match x
       case Send(a, _, _, _, _) => q.pc[a] == Idle
       case SendAgain(a, _) => q.pc[a].GotRoom?
       case Link(a) => q.pc[a].Filled?
       case Receive(a, _) => q.pc[a] == Idle || q.pc[a] == GotMessage
       case Copy(a) => q.pc[a].Sending? || q.pc[a].Receiving?
       case GiveBack(a) => q.pc[a].Copied?
       case TimeOut(a) => q.pc[a].AwaitRoom? || q.pc[a] == AwaitMessage
       case Reset(a) => q.pc[a] == Idle
  }

  function Step(q: Mq, x: Action): Mq
    requires Inv(q) && Enabled(q, x)
  {
    assert PcOk(q, x.a);
    match x
    case Send(a, body, prio, urgent, wait) => TakeNode(q, a, body, prio, urgent, wait)
    case SendAgain(a, wait) => TakeNode(q, a, q.pc[a].body, q.pc[a].prio, false, wait)
    case Link(a) => LinkNode(q, a)
    case Receive(a, wait) => UnlinkNode(q, a, wait)
    case Copy(a) => CopyNode(q, a)
    case GiveBack(a) => ReturnNode(q, a)
    case TimeOut(a) =>
      q.(senders := Remove(q.senders, a), receivers := Remove(q.receivers, a), pc := q.pc[a := Idle])
    case Reset(_) => Discard(q)
  }

  // ----- the invariant -----

  ghost predicate Holding(p: Pc) {
    p.Sending? || p.Filled? || p.Receiving? || p.Copied?
  }

  ghost predicate Holds(p: Pc, n: nat) {
    Holding(p) && p.node == n
  }

  /** What an actor holds is in no list, and what it has copied is what was linked. */
  ghost predicate PcOk(q: Mq, a: nat)
    requires a < |q.pc|
  {
    var p := q.pc[a];
    && (Holding(p) ==> p.node < q.max == |q.letter| && p.node !in q.free && p.node !in q.queue)
    && (p.Filled? ==> q.letter[p.node].body == p.body)
    && (p.Receiving? ==> q.letter[p.node] == p.due)
    && (p.Copied? ==> p.body == p.due.body)
    && (p.AwaitRoom? <==> a in q.senders)
    && (p.AwaitMessage? <==> a in q.receivers)
  }

  ghost predicate HoldApart(q: Mq, a: nat, b: nat)
    requires a < |q.pc| && b < |q.pc|
  {
    Holding(q.pc[a]) ==> !Holds(q.pc[b], q.pc[a].node)
  }

  ghost predicate Lists(q: Mq) {
    && |q.letter| == q.max
    && NoDup(q.free) && NoDup(q.queue)
    && (forall i | 0 <= i < |q.free| :: q.free[i] < q.max && q.free[i] !in q.queue)
    && (forall i | 0 <= i < |q.queue| :: q.queue[i] < q.max)
  }

  /** Node `n` has not been lost. */
  ghost predicate Somewhere(q: Mq, n: nat) {
    n in q.free || n in q.queue || exists a | 0 <= a < |q.pc| :: Holds(q.pc[a], n)
  }

  /** Every node of the pool is in exactly one place: the free list, the queue, or one actor's hands. */
  ghost predicate Partition(q: Mq) {
    && Lists(q)
    && (forall a | 0 <= a < |q.pc| :: PcOk(q, a))
    && (forall a, b | 0 <= a < |q.pc| && 0 <= b < |q.pc| && a != b :: HoldApart(q, a, b))
    && (forall n | 0 <= n < q.max :: Somewhere(q, n))
  }

  function Letters(queue: seq<nat>, letter: seq<Letter>): (r: seq<Letter>)
    requires forall i | 0 <= i < |queue| :: queue[i] < |letter|
  {
    seq(|queue|, i requires 0 <= i < |queue| => letter[queue[i]])
  }

  /** The messages a log leaves in the queue. */
  function Replay(log: seq<Event>, byPrio: bool): seq<Letter> {
    if log == [] then []
    else After(Replay(log[..|log| - 1], byPrio), log[|log| - 1], byPrio)
  }

  function After(ls: seq<Letter>, e: Event, byPrio: bool): seq<Letter> {
    match e
    case Linked(l, urgent) => if urgent then [l] + ls else if byPrio then Place(ls, l) else ls + [l]
    case Taken(_) => if ls == [] then [] else ls[1..]
    case Discarded => []
  }

  /** In front of the first message of lower priority. */
  function Place(ls: seq<Letter>, l: Letter): seq<Letter> {
    if ls == [] then [l] else if ls[0].prio < l.prio then [l] + ls else [ls[0]] + Place(ls[1..], l)
  }

  /** Each message taken was the first of the queue at that moment. */
  ghost predicate Legal(log: seq<Event>, byPrio: bool) {
    forall i | 0 <= i < |log| && log[i].Taken? :: TakenFirst(log, byPrio, i)
  }

  ghost predicate TakenFirst(log: seq<Event>, byPrio: bool, i: nat)
    requires i < |log| && log[i].Taken?
  {
    var ls := Replay(log[..i], byPrio);
    ls != [] && ls[0] == log[i].letter
  }

  /** Messages are numbered in the order in which they are linked. */
  ghost predicate Stamped(log: seq<Event>) {
    forall i | 0 <= i < |log| && log[i].Linked? :: log[i].letter.stamp == Stamps(log[..i])
  }

  /** The queue holds what the log says it should. */
  ghost predicate Faithful(q: Mq)
    requires Lists(q)
  {
    && Letters(q.queue, q.letter) == Replay(q.log, q.byPrio) && Legal(q.log, q.byPrio) && Stamped(q.log)
  }

  function Count(pc: seq<Pc>, room: bool): nat {
    if pc == [] then 0
    else Count(pc[1..], room) + if (if room then pc[0].GotRoom? else pc[0].GotMessage?) then 1 else 0
  }

  /** Nobody sleeps without enough woken actors being on their way to everything that is available. */
  ghost predicate NoLostWakeUp(q: Mq) {
    && NoDup(q.senders) && NoDup(q.receivers)
    && (forall i | 0 <= i < |q.senders| :: q.senders[i] < |q.pc|)
    && (forall i | 0 <= i < |q.receivers| :: q.receivers[i] < |q.pc|)
    && (q.receivers != [] ==> Count(q.pc, false) >= q.entry)
    && (q.senders != [] ==> Count(q.pc, true) >= |q.free|)
  }

  /** The counter is the length of the queue, and the number of nodes is a 16-bit number like it. */
  ghost predicate Counted(q: Mq) {
    q.entry == |q.queue| && q.max <= ENTRY_MAX
  }

  ghost predicate Inv(q: Mq) {
    Partition(q) && Faithful(q) && NoLostWakeUp(q) && Counted(q)
  }
}
