/** What every step of the message queue keeps, and what that means for delivery. */
module MqTheorems {
  import opened Common
  import opened MessageQueue

  // ----- the pool -----

  /** Changing what one actor does, without changing what anybody holds. */
  lemma SameHoldings(q: Mq, r: Mq)
    requires Partition(q) && Lists(r) && r.max == q.max && |r.pc| == |q.pc|
    requires forall a | 0 <= a < |q.pc| :: PcOk(r, a) && forall n :: Holds(r.pc[a], n) <==> Holds(q.pc[a], n)
    requires forall n | 0 <= n < q.max :: n in r.free || n in r.queue <==> n in q.free || n in q.queue
    ensures Partition(r)
  {
    forall a, b | 0 <= a < |r.pc| && 0 <= b < |r.pc| && a != b ensures HoldApart(r, a, b) {
      assert HoldApart(q, a, b);
      if Holding(r.pc[a]) {
        assert Holds(r.pc[a], r.pc[a].node);
        assert Holds(q.pc[a], r.pc[a].node);
      }
    }
    forall n | 0 <= n < r.max ensures Somewhere(r, n) {
      assert Somewhere(q, n);
      if n !in q.free && n !in q.queue {
        var a :| 0 <= a < |q.pc| && Holds(q.pc[a], n);
        assert Holds(r.pc[a], n);
      }
    }
  }

  /** A node leaves a list for the hands of actor `a`. */
  lemma NodeTaken(q: Mq, r: Mq, a: nat, n: nat)
    requires Partition(q) && Lists(r) && r.max == q.max && a < |q.pc| && n < q.max
    requires !Holding(q.pc[a]) && (n in q.free || n in q.queue)
    requires |r.pc| == |q.pc| && Holds(r.pc[a], n)
    requires forall b | 0 <= b < |q.pc| :: PcOk(r, b) && (b != a ==> r.pc[b] == q.pc[b])
    requires forall m | 0 <= m < q.max && m != n :: (m in r.free || m in r.queue <==> m in q.free || m in q.queue)
    ensures Partition(r)
  {
    forall b, c | 0 <= b < |r.pc| && 0 <= c < |r.pc| && b != c ensures HoldApart(r, b, c) {
      assert HoldApart(q, b, c) && PcOk(q, b) && PcOk(q, c);
    }
    forall m | 0 <= m < r.max ensures Somewhere(r, m) {
      assert Somewhere(q, m);
      if m == n {
        assert Holds(r.pc[a], n);
      } else if m !in q.free && m !in q.queue {
        var b :| 0 <= b < |q.pc| && Holds(q.pc[b], m);
        assert Holds(r.pc[b], m);
      }
    }
  }

  /** The node in the hands of actor `a` goes into a list. */
  lemma NodePut(q: Mq, r: Mq, a: nat, n: nat)
    requires Partition(q) && Lists(r) && r.max == q.max && a < |q.pc| && Holds(q.pc[a], n)
    requires |r.pc| == |q.pc| && !Holding(r.pc[a]) && (n in r.free || n in r.queue)
    requires forall b | 0 <= b < |q.pc| :: PcOk(r, b) && (b != a ==> r.pc[b] == q.pc[b])
    requires forall m | 0 <= m < q.max && m != n :: (m in r.free || m in r.queue <==> m in q.free || m in q.queue)
    ensures Partition(r)
  {
    forall b, c | 0 <= b < |r.pc| && 0 <= c < |r.pc| && b != c ensures HoldApart(r, b, c) {
      assert HoldApart(q, b, c);
    }
    forall m | 0 <= m < r.max ensures Somewhere(r, m) {
      assert Somewhere(q, m);
      if m != n && m !in q.free && m !in q.queue {
        var b :| 0 <= b < |q.pc| && Holds(q.pc[b], m);
        assert Holds(r.pc[b], m);
      }
    }
  }

  lemma WakePartition(q: Mq)
    requires Partition(q) && NoDup(q.receivers) && NoDup(q.senders)
    ensures Partition(WakeReceiver(q)) && Partition(WakeSender(q))
  {
    forall r | r in {WakeReceiver(q), WakeSender(q)} ensures Partition(r) {
      forall a | 0 <= a < |q.pc| ensures PcOk(r, a) && forall n :: Holds(r.pc[a], n) <==> Holds(q.pc[a], n) {
        assert PcOk(q, a);
      }
      SameHoldings(q, r);
    }
  }

  lemma InsertNoDup(queue: seq<nat>, letter: seq<Letter>, node: nat, prio: int)
    requires forall i | 0 <= i < |queue| :: queue[i] < |letter|
    requires NoDup(queue) && node !in queue
    ensures NoDup(Insert(queue, letter, node, prio))
  {
    if queue == [] || letter[queue[0]].prio < prio {
    } else {
      InsertNoDup(queue[1..], letter, node, prio);
      var r := Insert(queue[1..], letter, node, prio);
      forall i | 0 <= i < |r| ensures r[i] != queue[0] {
        assert r[i] in r;
      }
    }
  }

  lemma {:induction false} ReverseNoDup(ns: seq<nat>)
    requires NoDup(ns)
    ensures NoDup(Reverse(ns))
  {
    if ns != [] {
      ReverseNoDup(ns[1..]);
      var r := Reverse(ns[1..]);
      forall i | 0 <= i < |r| ensures r[i] != ns[0] {
        assert r[i] in r;
      }
    }
  }

  lemma TakePartition(q: Mq, a: nat, body: int, prio: int, urgent: bool, wait: bool)
    requires Partition(q) && a < |q.pc| && (q.pc[a] == Idle || q.pc[a].GotRoom?)
    ensures Partition(TakeNode(q, a, body, prio, urgent, wait))
  {
    var r := TakeNode(q, a, body, prio, urgent, wait);
    forall b | 0 <= b < |q.pc| ensures PcOk(r, b) {
      assert PcOk(q, b) && PcOk(q, a);
    }
    if q.free != [] {
      assert forall m :: m in q.free <==> m == q.free[0] || m in q.free[1..];
      NodeTaken(q, r, a, q.free[0]);
    } else {
      SameHoldings(q, r);
    }
  }

  lemma UnlinkPartition(q: Mq, a: nat, wait: bool)
    requires Partition(q) && a < |q.pc| && (q.pc[a] == Idle || q.pc[a] == GotMessage)
    ensures Partition(UnlinkNode(q, a, wait))
  {
    var r := UnlinkNode(q, a, wait);
    forall b | 0 <= b < |q.pc| ensures PcOk(r, b) {
      assert PcOk(q, b) && PcOk(q, a);
    }
    if q.entry != 0 && q.queue != [] {
      assert forall m :: m in q.queue <==> m == q.queue[0] || m in q.queue[1..];
      NodeTaken(q, r, a, q.queue[0]);
    } else {
      SameHoldings(q, r);
    }
  }

  lemma CopyPartition(q: Mq, a: nat)
    requires Partition(q) && a < |q.pc| && (q.pc[a].Sending? || q.pc[a].Receiving?)
    ensures PcOk(q, a) && Partition(CopyNode(q, a))
  {
    assert PcOk(q, a);
    var r := CopyNode(q, a);
    forall b | 0 <= b < |q.pc| ensures PcOk(r, b) {
      assert PcOk(q, b);
      assert b != a ==> HoldApart(q, b, a);
    }
    SameHoldings(q, r);
  }

  /** Linking, before anybody is woken. */
  function Joined(q: Mq, a: nat): Mq
    requires a < |q.pc| && q.pc[a].Filled? && q.pc[a].node < |q.letter|
    requires forall i | 0 <= i < |q.queue| :: q.queue[i] < |q.letter|
  {
    var p := q.pc[a];
    var l := Sealed(q, p);
    var queue :=
      if p.urgent then [p.node] + q.queue
      else if q.byPrio then Insert(q.queue, q.letter, p.node, p.prio)
      else q.queue + [p.node];
    q.(queue := queue, letter := q.letter[p.node := l], pc := q.pc[a := Idle],
      log := q.log + [Linked(l, p.urgent)])
  }

  lemma JoinPartition(q: Mq, a: nat)
    requires Partition(q) && a < |q.pc| && q.pc[a].Filled?
    ensures PcOk(q, a) && Partition(Joined(q, a))
  {
    assert PcOk(q, a);
    var n := q.pc[a].node;
    var r := Joined(q, a);
    InsertNoDup(q.queue, q.letter, n, q.pc[a].prio);
    assert forall m :: m in r.queue <==> m == n || m in q.queue;
    forall i | 0 <= i < |r.queue| ensures r.queue[i] < q.max {
      assert r.queue[i] in r.queue;
    }
    forall b | 0 <= b < |q.pc| ensures PcOk(r, b) {
      assert PcOk(q, b);
      assert b != a ==> HoldApart(q, b, a) && HoldApart(q, a, b);
    }
    NodePut(q, r, a, n);
  }

  lemma ReturnPartition(q: Mq, a: nat)
    requires Partition(q) && a < |q.pc| && q.pc[a].Copied?
    ensures Partition(q.(free := [q.pc[a].node] + q.free, pc := q.pc[a := Idle]))
  {
    assert PcOk(q, a);
    var n := q.pc[a].node;
    var r := q.(free := [n] + q.free, pc := q.pc[a := Idle]);
    assert forall m :: m in r.free <==> m == n || m in q.free;
    forall b | 0 <= b < |q.pc| ensures PcOk(r, b) {
      assert PcOk(q, b);
      assert b != a ==> HoldApart(q, b, a);
    }
    NodePut(q, r, a, n);
  }

  lemma TimeOutPartition(q: Mq, a: nat)
    requires Partition(q) && NoDup(q.senders) && NoDup(q.receivers)
    requires a < |q.pc| && (q.pc[a].AwaitRoom? || q.pc[a] == AwaitMessage)
    ensures Partition(q.(senders := Remove(q.senders, a), receivers := Remove(q.receivers, a), pc := q.pc[a := Idle]))
  {
    var r := q.(senders := Remove(q.senders, a), receivers := Remove(q.receivers, a), pc := q.pc[a := Idle]);
    RemoveNoDup(q.senders, a);
    RemoveNoDup(q.receivers, a);
    forall b | 0 <= b < |q.pc| ensures PcOk(r, b) {
      assert PcOk(q, b);
    }
    SameHoldings(q, r);
  }

  lemma DiscardPartition(q: Mq)
    requires Partition(q)
    ensures Partition(Discard(q))
  {
    var r := Discard(q);
    ReverseNoDup(q.queue);
    var back := Reverse(q.queue);
    forall i | 0 <= i < |back| ensures back[i] < q.max && back[i] !in q.free {
      assert back[i] in q.queue;
    }
    forall a | 0 <= a < |q.pc| ensures PcOk(r, a) {
      assert PcOk(q, a);
    }
    SameHoldings(q, r);
  }

  // ----- the log -----

  lemma ReplayAppend(log: seq<Event>, e: Event, byPrio: bool)
    requires Legal(log, byPrio) && Stamped(log)
    requires e.Taken? ==> Replay(log, byPrio) != [] && Replay(log, byPrio)[0] == e.letter
    requires e.Linked? ==> e.letter.stamp == Stamps(log)
    ensures Replay(log + [e], byPrio) == After(Replay(log, byPrio), e, byPrio)
    ensures Legal(log + [e], byPrio) && Stamped(log + [e])
  {
    var q := log + [e];
    assert q[..|log|] == log;
    forall i | 0 <= i < |q| && q[i].Taken? ensures TakenFirst(q, byPrio, i) {
      assert q[..i] == log[..i];
      if i < |log| {
        assert TakenFirst(log, byPrio, i);
      }
    }
    forall i | 0 <= i < |q| && q[i].Linked? ensures q[i].letter.stamp == Stamps(q[..i]) {
      assert q[..i] == log[..i];
    }
  }

  /** Inserting the node is placing the message. */
  lemma {:induction false} InsertPlaces(queue: seq<nat>, letter: seq<Letter>, n: nat, l: Letter)
    requires n < |letter| && n !in queue && forall i | 0 <= i < |queue| :: queue[i] < |letter|
    ensures var r := Insert(queue, letter, n, l.prio);
      (forall i | 0 <= i < |r| :: r[i] < |letter|) && Letters(r, letter[n := l]) == Place(Letters(queue, letter), l)
  {
    var r := Insert(queue, letter, n, l.prio);
    forall i | 0 <= i < |r| ensures r[i] < |letter| {
      assert r[i] in r;
    }
    if queue == [] {
    } else {
      var ls := Letters(queue, letter);
      assert ls[1..] == Letters(queue[1..], letter);
      if letter[queue[0]].prio < l.prio {
        LettersFrame(queue, letter, n, l);
      } else {
        InsertPlaces(queue[1..], letter, n, l);
        var rest := Insert(queue[1..], letter, n, l.prio);
        assert Letters([queue[0]] + rest, letter[n := l]) == [ls[0]] + Letters(rest, letter[n := l]);
      }
    }
  }

  lemma LettersFrame(queue: seq<nat>, letter: seq<Letter>, n: nat, l: Letter)
    requires n < |letter| && n !in queue && forall i | 0 <= i < |queue| :: queue[i] < |letter|
    ensures Letters(queue, letter[n := l]) == Letters(queue, letter)
    ensures Letters([n] + queue, letter[n := l]) == [l] + Letters(queue, letter)
    ensures Letters(queue + [n], letter[n := l]) == Letters(queue, letter) + [l]
  {
  }

  lemma JoinFaithful(q: Mq, a: nat)
    requires Partition(q) && Faithful(q) && a < |q.pc| && q.pc[a].Filled?
    ensures PcOk(q, a) && Partition(Joined(q, a)) && Faithful(Joined(q, a))
  {
    JoinPartition(q, a);
    var p := q.pc[a];
    var l := Sealed(q, p);
    ReplayAppend(q.log, Linked(l, p.urgent), q.byPrio);
    LettersFrame(q.queue, q.letter, p.node, l);
    if !p.urgent && q.byPrio {
      InsertPlaces(q.queue, q.letter, p.node, l);
    }
  }

  lemma UnlinkFaithful(q: Mq, a: nat, wait: bool)
    requires Partition(q) && Faithful(q) && a < |q.pc| && (q.pc[a] == Idle || q.pc[a] == GotMessage)
    ensures Partition(UnlinkNode(q, a, wait)) && Faithful(UnlinkNode(q, a, wait))
  {
    UnlinkPartition(q, a, wait);
    if q.entry != 0 && q.queue != [] {
      var ls := Letters(q.queue, q.letter);
      assert ls[1..] == Letters(q.queue[1..], q.letter);
      ReplayAppend(q.log, Taken(ls[0]), q.byPrio);
    }
  }

  lemma CopyFaithful(q: Mq, a: nat)
    requires Partition(q) && Faithful(q) && a < |q.pc| && (q.pc[a].Sending? || q.pc[a].Receiving?)
    ensures PcOk(q, a) && Partition(CopyNode(q, a)) && Faithful(CopyNode(q, a))
  {
    CopyPartition(q, a);
    var p := q.pc[a];
    LettersFrame(q.queue, q.letter, p.node, q.letter[p.node].(body := if p.Sending? then p.body else 0));
  }

  lemma DiscardFaithful(q: Mq)
    requires Partition(q) && Faithful(q)
    ensures Partition(Discard(q)) && Faithful(Discard(q))
  {
    DiscardPartition(q);
    ReplayAppend(q.log, Discarded, q.byPrio);
  }

  // ----- wake-ups -----

  lemma {:induction false} CountUpdate(pc: seq<Pc>, a: nat, p: Pc, room: bool)
    requires a < |pc|
    ensures Count(pc[a := p], room) + (if (if room then pc[a].GotRoom? else pc[a].GotMessage?) then 1 else 0)
      == Count(pc, room) + (if (if room then p.GotRoom? else p.GotMessage?) then 1 else 0)
  {
    if a == 0 {
      assert pc[a := p][1..] == pc[1..];
    } else {
      assert pc[a := p][1..] == pc[1..][a - 1 := p];
      CountUpdate(pc[1..], a - 1, p, room);
    }
  }

  lemma {:induction false} CountSame(pc: seq<Pc>, pc': seq<Pc>, room: bool)
    requires |pc'| == |pc|
    requires forall i | 0 <= i < |pc| :: (pc'[i].GotRoom? <==> pc[i].GotRoom?) && (pc'[i].GotMessage? <==> pc[i].GotMessage?)
    ensures Count(pc', room) == Count(pc, room)
  {
    if pc != [] {
      CountSame(pc[1..], pc'[1..], room);
    }
  }

  lemma TakeWakes(q: Mq, a: nat, body: int, prio: int, urgent: bool, wait: bool)
    requires Partition(q) && NoLostWakeUp(q) && a < |q.pc| && (q.pc[a] == Idle || q.pc[a].GotRoom?)
    ensures NoLostWakeUp(TakeNode(q, a, body, prio, urgent, wait))
  {
    var r := TakeNode(q, a, body, prio, urgent, wait);
    CountUpdate(q.pc, a, r.pc[a], true);
    CountUpdate(q.pc, a, r.pc[a], false);
    assert PcOk(q, a);
  }

  lemma UnlinkWakes(q: Mq, a: nat, wait: bool)
    requires Partition(q) && NoLostWakeUp(q) && Counted(q) && a < |q.pc| && (q.pc[a] == Idle || q.pc[a] == GotMessage)
    ensures NoLostWakeUp(UnlinkNode(q, a, wait))
  {
    hide Somewhere;
    var r := UnlinkNode(q, a, wait);
    CountUpdate(q.pc, a, r.pc[a], true);
    CountUpdate(q.pc, a, r.pc[a], false);
    assert PcOk(q, a);
  }

  /** A message more, and one receiver woken for it. */
  lemma LinkWakes(q: Mq, a: nat)
    requires Partition(q) && NoLostWakeUp(q) && a < |q.pc| && q.pc[a].Filled? && PcOk(q, a)
    ensures NoLostWakeUp(LinkNode(q, a))
  {
    var j := Joined(q, a);
    CountUpdate(q.pc, a, Idle, true);
    CountUpdate(q.pc, a, Idle, false);
    if q.entry < ENTRY_MAX && q.receivers != [] {
      var b := q.receivers[0];
      assert PcOk(q, b);
      CountUpdate(j.pc, b, GotMessage, true);
      CountUpdate(j.pc, b, GotMessage, false);
    }
  }

  lemma ReturnWakes(q: Mq, a: nat)
    requires Partition(q) && NoLostWakeUp(q) && a < |q.pc| && q.pc[a].Copied?
    ensures NoLostWakeUp(ReturnNode(q, a))
  {
    CountUpdate(q.pc, a, Idle, true);
    CountUpdate(q.pc, a, Idle, false);
    if q.senders != [] {
      var b := q.senders[0];
      assert PcOk(q, b);
      var p := GotRoom(q.pc[b].body, q.pc[b].prio);
      CountUpdate(q.pc[a := Idle], b, p, true);
      CountUpdate(q.pc[a := Idle], b, p, false);
    }
  }

  lemma CopyWakes(q: Mq, a: nat)
    requires Partition(q) && NoLostWakeUp(q) && a < |q.pc| && (q.pc[a].Sending? || q.pc[a].Receiving?) && PcOk(q, a)
    ensures NoLostWakeUp(CopyNode(q, a))
  {
    CountUpdate(q.pc, a, CopyNode(q, a).pc[a], true);
    CountUpdate(q.pc, a, CopyNode(q, a).pc[a], false);
  }

  lemma TimeOutWakes(q: Mq, a: nat)
    requires Partition(q) && NoLostWakeUp(q) && a < |q.pc| && (q.pc[a].AwaitRoom? || q.pc[a] == AwaitMessage)
    ensures NoLostWakeUp(q.(senders := Remove(q.senders, a), receivers := Remove(q.receivers, a), pc := q.pc[a := Idle]))
  {
    RemoveNoDup(q.senders, a);
    RemoveNoDup(q.receivers, a);
    CountUpdate(q.pc, a, Idle, true);
    CountUpdate(q.pc, a, Idle, false);
    var s, t := Remove(q.senders, a), Remove(q.receivers, a);
    forall i | 0 <= i < |s| ensures s[i] < |q.pc| {
      assert s[i] in q.senders;
    }
    forall i | 0 <= i < |t| ensures t[i] < |q.pc| {
      assert t[i] in q.receivers;
    }
  }

  // ----- every step -----

  lemma JoinCounted(q: Mq, a: nat)
    requires Partition(q) && Counted(q) && a < |q.pc| && q.pc[a].Filled? && PcOk(q, a)
    ensures Counted(LinkNode(q, a))
  {
    RoomToLink(q, a);
    var r := LinkNode(q, a);
    assert |r.queue| == |q.queue| + 1;
  }

  lemma LinkKeeps(q: Mq, a: nat)
    requires Inv(q) && a < |q.pc| && q.pc[a].Filled?
    ensures PcOk(q, a) && Inv(LinkNode(q, a))
  {
    hide Letters, Replay, Legal, Stamped, Count, Insert, NoDup, Somewhere, WakeSender, TakenFirst;
    JoinFaithful(q, a);
    LinkWakes(q, a);
    JoinCounted(q, a);
    var j := Joined(q, a);
    var e := if q.entry < ENTRY_MAX then q.entry + 1 else q.entry;
    EntryIrrelevant(j, e);
    WakePartition(j.(entry := e));
  }

  lemma EntryIrrelevant(q: Mq, e: nat)
    requires Partition(q)
    ensures Partition(q.(entry := e))
  {
    forall a | 0 <= a < |q.pc| ensures PcOk(q.(entry := e), a) {
      assert PcOk(q, a);
    }
    SameHoldings(q, q.(entry := e));
  }

  lemma ReturnKeeps(q: Mq, a: nat)
    requires Inv(q) && a < |q.pc| && q.pc[a].Copied?
    ensures Inv(ReturnNode(q, a))
  {
    ReturnPartition(q, a);
    WakePartition(q.(free := [q.pc[a].node] + q.free, pc := q.pc[a := Idle]));
    ReturnWakes(q, a);
  }

  lemma DiscardKeeps(q: Mq)
    requires Inv(q)
    ensures Inv(Discard(q))
  {
    DiscardFaithful(q);
    CountSame(q.pc, Discard(q).pc, true);
    CountSame(q.pc, Discard(q).pc, false);
  }

  lemma TakeKeeps(q: Mq, a: nat, body: int, prio: int, urgent: bool, wait: bool)
    requires Inv(q) && a < |q.pc| && (q.pc[a] == Idle || q.pc[a].GotRoom?)
    ensures Inv(TakeNode(q, a, body, prio, urgent, wait))
  {
    hide Letters, Replay, Legal, Stamped, Count, NoDup;
    TakePartition(q, a, body, prio, urgent, wait);
    TakeWakes(q, a, body, prio, urgent, wait);
  }

  lemma UnlinkKeeps(q: Mq, a: nat, wait: bool)
    requires Inv(q) && a < |q.pc| && (q.pc[a] == Idle || q.pc[a] == GotMessage)
    ensures Inv(UnlinkNode(q, a, wait))
  {
    hide Letters, Replay, Legal, Stamped, Count, NoDup;
    UnlinkFaithful(q, a, wait);
    UnlinkWakes(q, a, wait);
  }

  lemma CopyKeeps(q: Mq, a: nat)
    requires Inv(q) && a < |q.pc| && (q.pc[a].Sending? || q.pc[a].Receiving?)
    ensures PcOk(q, a) && Inv(CopyNode(q, a))
  {
    hide Letters, Replay, Legal, Stamped, Count, NoDup;
    CopyFaithful(q, a);
    CopyWakes(q, a);
  }

  lemma TimeOutKeeps(q: Mq, a: nat)
    requires Inv(q) && a < |q.pc| && (q.pc[a].AwaitRoom? || q.pc[a] == AwaitMessage)
    ensures Inv(q.(senders := Remove(q.senders, a), receivers := Remove(q.receivers, a), pc := q.pc[a := Idle]))
  {
    hide Letters, Replay, Legal, Stamped, Count, NoDup;
    TimeOutPartition(q, a);
    TimeOutWakes(q, a);
  }

  /** Every locked region and every unlocked copy keeps the queue consistent. */
  lemma StepKeeps(q: Mq, x: Action)
    requires Inv(q) && Enabled(q, x)
    ensures Inv(Step(q, x))
  {
    hide Inv;
    match x
    case Send(a, body, prio, urgent, wait) => TakeKeeps(q, a, body, prio, urgent, wait);
    case SendAgain(a, wait) => TakeKeeps(q, a, q.pc[a].body, q.pc[a].prio, false, wait);
    case Link(a) => LinkKeeps(q, a);
    case Receive(a, wait) => UnlinkKeeps(q, a, wait);
    case Copy(a) => CopyKeeps(q, a);
    case GiveBack(a) => ReturnKeeps(q, a);
    case TimeOut(a) => TimeOutKeeps(q, a);
    case Reset(_) => DiscardKeeps(q);
  }

  // ----- runs -----

  function Init(max: nat, actors: nat, byPrio: bool): (q: Mq)
    requires 0 < max <= ENTRY_MAX
  {
    Mq(max, byPrio, Reverse(seq(max, i requires 0 <= i => i)), [], 0, seq(max, _ => Letter(0, 0, 0)),
      [], [], seq(actors, _ => Idle), [])
  }

  lemma InitInv(max: nat, actors: nat, byPrio: bool)
    requires 0 < max <= ENTRY_MAX
    ensures Inv(Init(max, actors, byPrio))
  {
    var q := Init(max, actors, byPrio);
    var nodes := seq(max, i requires 0 <= i => i);
    ReverseNoDup(nodes);
    forall i | 0 <= i < |q.free| ensures q.free[i] < max {
      assert q.free[i] in nodes;
    }
    forall n | 0 <= n < max ensures Somewhere(q, n) {
      assert nodes[n] == n;
    }
  }

  ghost predicate Follows(q: Mq, x: Action, r: Mq) {
    Inv(q) ==> Enabled(q, x) && r == Step(q, x)
  }

  ghost predicate Run(trace: seq<Mq>, xs: seq<Action>) {
    && |trace| == |xs| + 1 && Inv(trace[0])
    && forall i | 0 <= i < |xs| :: Follows(trace[i], xs[i], trace[i + 1])
  }

  /**
   In every interleaving of senders, receivers, timeouts and resets: the pool stays partitioned, the queue
   holds what was linked and not yet taken, receivers copy what was sent, and nobody sleeps while as many
   messages or nodes are available as actors have been woken.
   */
  lemma {:induction false} RunSafe(trace: seq<Mq>, xs: seq<Action>, k: nat)
    requires Run(trace, xs) && k <= |xs|
    ensures Inv(trace[k]) && trace[k].max == trace[0].max && trace[k].byPrio == trace[0].byPrio
    decreases k
  {
    hide Partition, Faithful, NoLostWakeUp, Counted, PcOk, Lists;
    if k > 0 {
      RunSafe(trace, xs, k - 1);
      assert Follows(trace[k - 1], xs[k - 1], trace[k]);
      StepKeeps(trace[k - 1], xs[k - 1]);
    }
  }

  // ----- delivery order -----

  ghost predicate NoJumping(log: seq<Event>) {
    forall i | 0 <= i < |log| :: !log[i].Discarded? && (log[i].Linked? ==> !log[i].urgent)
  }

  function Sent(log: seq<Event>): seq<Letter> {
    if log == [] then []
    else Sent(log[..|log| - 1]) + if log[|log| - 1].Linked? then [log[|log| - 1].letter] else []
  }

  function Delivered(log: seq<Event>): seq<Letter> {
    if log == [] then []
    else Delivered(log[..|log| - 1]) + if log[|log| - 1].Taken? then [log[|log| - 1].letter] else []
  }

  lemma PrefixLegal(log: seq<Event>, byPrio: bool)
    requires log != [] && Legal(log, byPrio)
    ensures Legal(log[..|log| - 1], byPrio)
  {
    var less := log[..|log| - 1];
    forall i | 0 <= i < |less| && less[i].Taken? ensures TakenFirst(less, byPrio, i) {
      assert TakenFirst(log, byPrio, i);
      assert less[..i] == log[..i];
    }
  }

  /** Plain build, no urgent messages, no reset: first in, first out, nothing lost and nothing invented. */
  lemma {:induction false} FirstInFirstOut(log: seq<Event>)
    requires Legal(log, false) && NoJumping(log)
    ensures Delivered(log) + Replay(log, false) == Sent(log)
  {
    if log != [] {
      var i := |log| - 1;
      PrefixLegal(log, false);
      FirstInFirstOut(log[..i]);
      var ls := Replay(log[..i], false);
      if log[i].Taken? {
        assert TakenFirst(log, false, i);
        assert ls == [ls[0]] + ls[1..];
      }
    }
  }

  /** Higher priority first, then the earlier linked. */
  ghost predicate Before(l: Letter, m: Letter) {
    l.prio > m.prio || (l.prio == m.prio && l.stamp < m.stamp)
  }

  ghost predicate InOrder(ls: seq<Letter>, stamps: nat) {
    && (forall i, j | 0 <= i < j < |ls| :: Before(ls[i], ls[j]))
    && (forall i | 0 <= i < |ls| :: ls[i].stamp < stamps)
  }

  lemma {:induction false} PlaceInOrder(ls: seq<Letter>, l: Letter)
    requires InOrder(ls, l.stamp)
    ensures InOrder(Place(ls, l), l.stamp + 1)
    ensures forall m :: m in Place(ls, l) <==> m == l || m in ls
  {
    if ls == [] {
    } else if ls[0].prio < l.prio {
    } else {
      PlaceInOrder(ls[1..], l);
      var r := Place(ls[1..], l);
      assert forall m :: m in ls <==> m == ls[0] || m in ls[1..];
      forall i | 0 <= i < |r| ensures Before(ls[0], r[i]) {
        assert r[i] in r;
        if r[i] != l {
          var k :| 0 <= k < |ls[1..]| && ls[1..][k] == r[i];
          assert Before(ls[0], ls[k + 1]);
        }
      }
    }
  }

  /** Priority build, no urgent messages: the queue is by descending priority, first come first served among equals. */
  lemma {:induction false} QueueInOrder(log: seq<Event>)
    requires Legal(log, true) && Stamped(log)
    requires forall i | 0 <= i < |log| && log[i].Linked? :: !log[i].urgent
    ensures InOrder(Replay(log, true), Stamps(log))
  {
    if log != [] {
      var i := |log| - 1;
      var less := log[..i];
      PrefixLegal(log, true);
      assert Stamped(less) by {
        forall j | 0 <= j < |less| && less[j].Linked? ensures less[j].letter.stamp == Stamps(less[..j]) {
          assert less[..j] == log[..j];
        }
      }
      QueueInOrder(less);
      if log[i].Linked? {
        PlaceInOrder(Replay(less, true), log[i].letter);
      }
    }
  }

  /** So each message delivered precedes, in that order, every other message that was waiting with it. */
  lemma BestFirst(q: Mq, i: nat)
    requires Inv(q) && q.byPrio && i < |q.log| && q.log[i].Taken?
    requires forall j | 0 <= j < |q.log| && q.log[j].Linked? :: !q.log[j].urgent
    ensures var ls := Replay(q.log[..i], true);
      && ls != [] && ls[0] == q.log[i].letter
      && forall j | 1 <= j < |ls| :: Before(q.log[i].letter, ls[j])
  {
    assert TakenFirst(q.log, true, i);
    var less := q.log[..i];
    forall j | 0 <= j < |less| && less[j].Taken? ensures TakenFirst(less, true, j) {
      assert TakenFirst(q.log, true, j);
      assert less[..j] == q.log[..j];
    }
    forall j | 0 <= j < |less| && less[j].Linked? ensures less[j].letter.stamp == Stamps(less[..j]) {
      assert less[..j] == q.log[..j];
    }
    QueueInOrder(less);
  }

  // ----- the counter -----

  /**
   In every state of every run the counter is the length of the queue, and a message is only ever linked below
   the counter's limit, so that no send reports a full counter for a message it has linked.
   */
  lemma CounterExact(trace: seq<Mq>, xs: seq<Action>, k: nat)
    requires Run(trace, xs) && k <= |xs|
    ensures trace[k].entry == |trace[k].queue| <= trace[k].max <= ENTRY_MAX
    ensures k < |xs| && xs[k].Link? ==> trace[k].entry < ENTRY_MAX && trace[k + 1].entry == trace[k].entry + 1
  {
    hide Faithful, NoLostWakeUp;
    RunSafe(trace, xs, k);
    var q := trace[k];
    Pigeonhole(q.queue, q.max);
    if k < |xs| && xs[k].Link? {
      assert Follows(q, xs[k], trace[k + 1]);
      LinkCounts(q, xs[k].a);
    }
  }

  /** A held node is not among the queued ones. */
  lemma RoomToLink(q: Mq, a: nat)
    requires Partition(q) && Counted(q) && a < |q.pc| && Holding(q.pc[a]) && PcOk(q, a)
    ensures q.entry < q.max
  {
    Pigeonhole(q.queue + [q.pc[a].node], q.max);
  }

  lemma LinkCounts(q: Mq, a: nat)
    requires Inv(q) && a < |q.pc| && q.pc[a].Filled?
    ensures q.entry < ENTRY_MAX
  {
    assert PcOk(q, a);
    RoomToLink(q, a);
  }

  /** A pool is used whole exactly if it has room for fewer than 65536 messages; for 65536 there would be none. */
  lemma WholePool(msgSize: nat, poolSize: nat, byPrio: bool)
    ensures var fit := poolSize / NodeSize(msgSize, byPrio);
      && (MaxMsgs(msgSize, poolSize, byPrio) == fit <==> poolSize < (ENTRY_MAX + 1) * NodeSize(msgSize, byPrio))
      && (fit == ENTRY_MAX + 1 ==> MaxMsgs(msgSize, poolSize, byPrio) == 0)
  {
    var size := NodeSize(msgSize, byPrio);
    hide NodeSize;
    Quotient(poolSize, size);
  }

  lemma Quotient(n: nat, d: nat)
    requires d > 0
    ensures n / d < 0x1_0000 <==> n < 0x1_0000 * d
  {
    var q, r := n / d, n % d;
    assert n == d * q + r;
    if q < 0x1_0000 {
      assert d * q <= d * 0xffff by {
        Scaled(q, 0xffff, d);
      }
    } else {
      Scaled(0x1_0000, q, d);
    }
  }

  lemma Scaled(a: nat, b: nat, d: nat)
    requires a <= b
    ensures d * a <= d * b
  {
  }
}
