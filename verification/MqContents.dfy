/**
 What is linked, delivered and copied out is what was sent: every message that leaves the queue is traced
 back to one call of a send, whatever the actors do in between.
 */
module MqContents {
  import opened Common
  import opened MessageQueue
  import opened MqTheorems

  /** Where in `xs` actor `a` last called a send. */
  function LastSend(xs: seq<Action>, a: nat): (r: Option<nat>)
    ensures r.Some? ==> r.value < |xs| && xs[r.value].Send? && xs[r.value].a == a
    ensures r.Some? ==> forall i | r.value < i < |xs| :: !(xs[i].Send? && xs[i].a == a)
    ensures r.None? ==> forall i | 0 <= i < |xs| :: !(xs[i].Send? && xs[i].a == a)
  {
    if xs == [] then None
    else
      var i := |xs| - 1;
      if xs[i].Send? && xs[i].a == a then Some(i) else LastSend(xs[..i], a)
  }

  ghost predicate InSend(p: Pc) {
    p.Sending? || p.Filled? || p.AwaitRoom? || p.GotRoom?
  }

  /** Since its last send, actor `a` has not linked anything. */
  ghost predicate Unlinked(xs: seq<Action>, a: nat) {
    LastSend(xs, a).Some? && forall i | LastSend(xs, a).value < i < |xs| :: !(xs[i].Link? && xs[i].a == a)
  }

  /** An actor on its way through a send, asleep or awake, has the arguments of its last call with it and has yet to link it. */
  ghost predicate Carries(p: Pc, xs: seq<Action>, a: nat) {
    InSend(p) ==>
      && Unlinked(xs, a)
      && var s := xs[LastSend(xs, a).value];
         p.body == s.body && p.prio == s.prio && (s.urgent <==> (p.Sending? || p.Filled?) && p.urgent)
  }

  /** What a receiver holds has been logged as taken. */
  ghost predicate Logged(p: Pc, log: seq<Event>) {
    p.Receiving? || p.Copied? ==> Taken(p.due) in log
  }

  lemma NotASend(xs: seq<Action>, x: Action, a: nat)
    requires !(x.Send? && x.a == a)
    ensures LastSend(xs + [x], a) == LastSend(xs, a)
    ensures Unlinked(xs, a) && !(x.Link? && x.a == a) ==> Unlinked(xs + [x], a)
  {
    assert (xs + [x])[..|xs|] == xs;
  }

  // ----- one step -----

  lemma StepCarries(q: Mq, x: Action, xs: seq<Action>, b: nat)
    requires Inv(q) && Enabled(q, x) && b < |q.pc| && Carries(q.pc[b], xs, b)
    ensures b < |Step(q, x).pc| && Carries(Step(q, x).pc[b], xs + [x], b)
  {
    hide Inv, LastSend, Insert, Stamps, Unlinked;
    if x.Send? && x.a == b {
      LastIsThis(xs, x);
    } else {
      NotASend(xs, x, b);
      StepInSend(q, x, b);
    }
  }

  /** What a step of somebody else can do to an actor: wake it or send it home. */
  ghost predicate Roused(p: Pc, r: Pc) {
    || r == p || r == Idle
    || (p.AwaitRoom? && r == GotRoom(p.body, p.prio))
    || r == GotMessage
  }

  lemma StepOfOther(q: Mq, x: Action, b: nat)
    requires Inv(q) && Enabled(q, x) && b < |q.pc| && x.a != b
    ensures b < |Step(q, x).pc| && Roused(q.pc[b], Step(q, x).pc[b])
  {
    hide Partition, Faithful, NoLostWakeUp, Counted, Insert, Stamps;
  }

  /** Nobody gets on the way through a send but by calling it, and a link is the end of the way. */
  lemma StepInSend(q: Mq, x: Action, b: nat)
    requires Inv(q) && Enabled(q, x) && b < |q.pc| && !(x.Send? && x.a == b)
    ensures var r := Step(q, x);
      && b < |r.pc|
      && (InSend(r.pc[b]) ==>
            && InSend(q.pc[b]) && !(x.Link? && x.a == b)
            && r.pc[b].body == q.pc[b].body && r.pc[b].prio == q.pc[b].prio
            && ((r.pc[b].Sending? || r.pc[b].Filled?) && r.pc[b].urgent <==>
                (q.pc[b].Sending? || q.pc[b].Filled?) && q.pc[b].urgent))
  {
    hide Partition, Faithful, NoLostWakeUp, Counted, Insert, Stamps;
    if x.a != b {
      hide Inv, Step;
      StepOfOther(q, x, b);
    }
  }

  lemma LastIsThis(xs: seq<Action>, x: Action)
    requires x.Send?
    ensures LastSend(xs + [x], x.a) == Some(|xs|) && Unlinked(xs + [x], x.a)
  {
  }

  /** A step logs at most one event, and a linked message only in the second region of a send. */
  lemma StepLogs(q: Mq, x: Action)
    requires Inv(q) && Enabled(q, x)
    ensures var r := Step(q, x);
      && q.log <= r.log && |r.log| <= |q.log| + 1 && r.byPrio == q.byPrio
      && (x.Link? <==> |r.log| == |q.log| + 1 && r.log[|q.log|].Linked?)
  {
    hide Partition, Faithful, NoLostWakeUp, Counted, Insert, Stamps;
  }

  /** A link step adds the message its actor carries. */
  lemma LinkLogs(q: Mq, x: Action)
    requires Inv(q) && Enabled(q, x) && x.Link?
    ensures var p, r := q.pc[x.a], Step(q, x);
      exists l: Letter :: r.log == q.log + [Linked(l, p.urgent)] && l.body == p.body && l.stamp == Stamps(q.log)
        && (q.byPrio && !p.urgent ==> l.prio == p.prio)
  {
    hide Lists, Faithful, NoLostWakeUp, Counted, Insert, Stamps;
    assert PcOk(q, x.a);
    var l := Sealed(q, q.pc[x.a]);
    assert Step(q, x).log == q.log + [Linked(l, q.pc[x.a].urgent)];
  }

  lemma StepLogged(q: Mq, x: Action, b: nat)
    requires Inv(q) && Enabled(q, x) && b < |q.pc| && Logged(q.pc[b], q.log)
    ensures b < |Step(q, x).pc| && Logged(Step(q, x).pc[b], Step(q, x).log)
  {
    hide Partition, Faithful, NoLostWakeUp, Counted, Insert, Stamps;
    StepLogs(q, x);
    if x.a != b {
      hide Inv, Step;
      StepOfOther(q, x, b);
    }
  }

  // ----- every run -----

  /** A run in which nobody is in the middle of anything at first. */
  ghost predicate FromIdle(trace: seq<Mq>, xs: seq<Action>) {
    && Run(trace, xs)
    && forall a | 0 <= a < |trace[0].pc| :: trace[0].pc[a] == Idle
  }

  lemma {:induction false} RunCarries(trace: seq<Mq>, xs: seq<Action>, k: nat)
    requires FromIdle(trace, xs) && k <= |xs|
    ensures |trace[k].pc| == |trace[0].pc|
    ensures forall a: nat | a < |trace[k].pc| :: Carries(trace[k].pc[a], xs[..k], a) && Logged(trace[k].pc[a], trace[k].log)
    decreases k
  {
    hide Inv, Enabled, Carries, Logged, Step;
    if k == 0 {
      forall a: nat | a < |trace[0].pc| ensures Carries(trace[0].pc[a], xs[..0], a) && Logged(trace[0].pc[a], trace[0].log) {
        NothingYet(xs[..0], trace[0].log, a);
      }
    } else {
      var q, x, r := trace[k - 1], xs[k - 1], trace[k];
      RunCarries(trace, xs, k - 1);
      RunSafe(trace, xs, k - 1);
      assert Follows(q, x, r);
      assert xs[..k] == xs[..k - 1] + [x];
      SamePcs(q, x);
      forall a: nat | a < |r.pc| ensures Carries(r.pc[a], xs[..k], a) && Logged(r.pc[a], r.log) {
        StepCarries(q, x, xs[..k - 1], a);
        StepLogged(q, x, a);
      }
    }
  }

  lemma NothingYet(xs: seq<Action>, log: seq<Event>, a: nat)
    ensures Carries(Idle, xs, a) && Logged(Idle, log)
  {
  }

  lemma SamePcs(q: Mq, x: Action)
    requires Inv(q) && Enabled(q, x)
    ensures |Step(q, x).pc| == |q.pc|
  {
    hide Partition, Faithful, NoLostWakeUp, Counted, Insert, Stamps;
  }

  /** Letter `l` carries what the last send of the actor that links at step `i` was called with; that send is linked once. */
  ghost predicate WasSent(xs: seq<Action>, i: nat, l: Letter, byPrio: bool)
    requires i < |xs|
  {
    && xs[i].Link? && Unlinked(xs[..i], xs[i].a)
    && var s := xs[LastSend(xs[..i], xs[i].a).value];
       l.body == s.body && (byPrio && !s.urgent ==> l.prio == s.prio)
  }

  /**
   In every run, each link adds the message of its actor's last send, at the front if that was an urgent one,
   whether or not the sender had to wait for room first.
   */
  lemma LinkedWasSent(trace: seq<Mq>, xs: seq<Action>, i: nat)
    requires FromIdle(trace, xs) && i < |xs| && xs[i].Link?
    ensures var s := LastSend(xs[..i], xs[i].a);
      && s.Some?
      && exists l: Letter ::
           WasSent(xs, i, l, trace[i].byPrio) && trace[i + 1].log == trace[i].log + [Linked(l, xs[s.value].urgent)]
  {
    hide Inv, LastSend, Step;
    var q, x := trace[i], xs[i];
    RunCarries(trace, xs, i);
    RunSafe(trace, xs, i);
    assert Follows(q, x, trace[i + 1]);
    LinkLogs(q, x);
    assert Carries(q.pc[x.a], xs[..i], x.a);
    var l: Letter :| trace[i + 1].log == q.log + [Linked(l, q.pc[x.a].urgent)] && l.body == q.pc[x.a].body
      && (q.byPrio && !q.pc[x.a].urgent ==> l.prio == q.pc[x.a].prio);
    assert WasSent(xs, i, l, q.byPrio);
  }

  /** Every linked message of the log is the doing of one link step before. */
  lemma {:induction false} LinkStepOf(trace: seq<Mq>, xs: seq<Action>, k: nat, n: nat) returns (i: nat)
    requires FromIdle(trace, xs) && k <= |xs| && trace[0].log == [] && n < |trace[k].log| && trace[k].log[n].Linked?
    ensures i < k && xs[i].Link? && |trace[i].log| == n < |trace[i + 1].log| && trace[i + 1].log[n] == trace[k].log[n]
    ensures trace[i].byPrio == trace[0].byPrio
    decreases k
  {
    hide Inv, Step;
    RunSafe(trace, xs, k - 1);
    assert Follows(trace[k - 1], xs[k - 1], trace[k]);
    StepLogs(trace[k - 1], xs[k - 1]);
    if n < |trace[k - 1].log| {
      i := LinkStepOf(trace, xs, k - 1, n);
    } else {
      i := k - 1;
    }
  }

  lemma {:induction false} QueuedWasLinked(log: seq<Event>, byPrio: bool, l: Letter) returns (n: nat)
    requires l in Replay(log, byPrio)
    ensures n < |log| && log[n].Linked? && log[n].letter == l
  {
    var k := |log| - 1;
    var before := Replay(log[..k], byPrio);
    if l in before {
      n := QueuedWasLinked(log[..k], byPrio, l);
    } else {
      n := k;
      NewcomerIsLinked(before, log[k], byPrio, l);
    }
  }

  lemma NewcomerIsLinked(ls: seq<Letter>, e: Event, byPrio: bool, l: Letter)
    requires l in After(ls, e, byPrio) && l !in ls
    ensures e.Linked? && e.letter == l
  {
    if e.Linked? {
      PlaceAdds(ls, e.letter, l);
    }
  }

  lemma {:induction false} PlaceAdds(ls: seq<Letter>, m: Letter, l: Letter)
    ensures l in Place(ls, m) ==> l == m || l in ls
  {
    if ls == [] || ls[0].prio < m.prio {
    } else {
      PlaceAdds(ls[1..], m, l);
    }
  }

  /** In every run, each message taken out of the queue was sent. */
  lemma TakenWasSent(trace: seq<Mq>, xs: seq<Action>, k: nat, n: nat) returns (i: nat)
    requires FromIdle(trace, xs) && trace[0].log == [] && k <= |xs| && n < |trace[k].log| && trace[k].log[n].Taken?
    ensures i < k && WasSent(xs, i, trace[k].log[n].letter, trace[0].byPrio)
  {
    hide Partition, NoLostWakeUp, Counted, Step, LastSend;
    RunSafe(trace, xs, k);
    var log := trace[k].log;
    var m := TakenWasQueued(trace[k], n);
    i := LinkStepOf(trace, xs, k, m);
    LinkedWasSent(trace, xs, i);
  }

  lemma TakenWasQueued(q: Mq, n: nat) returns (m: nat)
    requires Inv(q) && n < |q.log| && q.log[n].Taken?
    ensures m < n && q.log[m].Linked? && q.log[m].letter == q.log[n].letter
  {
    hide Partition, NoLostWakeUp, Counted, Replay;
    assert TakenFirst(q.log, q.byPrio, n);
    m := QueuedWasLinked(q.log[..n], q.byPrio, q.log[n].letter);
  }

  /** End to end: in every run from a fresh queue, what a receiver has copied out is the body of an earlier send. */
  lemma ReceivedWasSent(max: nat, actors: nat, byPrio: bool, trace: seq<Mq>, xs: seq<Action>, k: nat, a: nat) returns (i: nat)
    requires 0 < max <= ENTRY_MAX && Run(trace, xs) && trace[0] == Init(max, actors, byPrio)
    requires k <= |xs| && a < |trace[k].pc| && trace[k].pc[a].Copied?
    ensures i < k && WasSent(xs, i, trace[k].pc[a].due, byPrio)
    ensures trace[k].pc[a].body == xs[LastSend(xs[..i], xs[i].a).value].body
  {
    hide Faithful, NoLostWakeUp, Counted, Step, LastSend, Lists;
    RunSafe(trace, xs, k);
    RunCarries(trace, xs, k);
    assert PcOk(trace[k], a);
    assert Logged(trace[k].pc[a], trace[k].log);
    var n: nat :| n < |trace[k].log| && trace[k].log[n] == Taken(trace[k].pc[a].due);
    i := TakenWasSent(trace, xs, k, n);
  }

  // ----- who gets through -----

  /** A send goes on at once exactly if a node is free; if not it waits or, urgent or unwilling to wait, comes back empty-handed. */
  lemma SendOutcome(q: Mq, x: Action)
    requires Inv(q) && Enabled(q, x) && (x.Send? || x.SendAgain?)
    ensures var r, urgent := Step(q, x), x.Send? && x.urgent;
      && |r.pc| == |q.pc|
      && (r.pc[x.a].Sending? <==> q.free != [])
      && (r.pc[x.a].Sending? ==> r.pc[x.a].node in q.free && r.free == q.free[1..] && r.pc[x.a].urgent == urgent)
      && (r.pc[x.a].AwaitRoom? <==> q.free == [] && !urgent && x.wait)
      && (r.pc[x.a] == Idle <==> q.free == [] && (urgent || !x.wait))
      && r == q.(free := r.free, senders := r.senders, pc := q.pc[x.a := r.pc[x.a]])
  {
    hide Faithful, NoLostWakeUp, Counted, Lists;
    assert PcOk(q, x.a);
  }

  /** A receive gets a message at once exactly if one is queued, the first one; if not it waits if it may. */
  lemma ReceiveOutcome(q: Mq, x: Action)
    requires Inv(q) && Enabled(q, x) && x.Receive?
    ensures var r := Step(q, x);
      && |r.pc| == |q.pc|
      && (r.pc[x.a].Receiving? <==> q.queue != [])
      && (r.pc[x.a].Receiving? ==> r.pc[x.a].node == q.queue[0] && r.queue == q.queue[1..])
      && (r.pc[x.a] == AwaitMessage <==> q.queue == [] && x.wait)
      && (r.pc[x.a] == Idle <==> q.queue == [] && !x.wait)
      && r.letter == q.letter && r.free == q.free && r.senders == q.senders
  {
    hide Faithful, NoLostWakeUp, PcOk, Somewhere, HoldApart;
  }

  /** A reset empties the queue into the free list and sends everybody home who sleeps; what is in somebody's hands stays there. */
  lemma ResetOutcome(q: Mq, x: Action)
    requires Inv(q) && Enabled(q, x) && x.Reset?
    ensures var r := Step(q, x);
      && r.queue == [] && r.entry == 0 && r.senders == [] && r.receivers == [] && |r.pc| == |q.pc|
      && (forall n :: n in r.free <==> n in q.free || n in q.queue)
      && (forall a: nat | a < |q.pc| :: r.pc[a] == if q.pc[a].AwaitRoom? || q.pc[a].AwaitMessage? then Idle else q.pc[a])
  {
    hide Partition, Faithful, NoLostWakeUp, Counted;
  }

  // ----- urgent messages -----

  /** Only ordinary messages are linked from event `i` on, up to event `j`. */
  ghost predicate OrdinaryBetween(log: seq<Event>, i: nat, j: nat)
    requires j <= |log|
  {
    forall m | i <= m < j :: log[m].Linked? && !log[m].urgent
  }

  ghost predicate Passes(log: seq<Event>, i: nat, j: nat, prio: int)
    requires j <= |log|
  {
    exists m | i <= m < j :: log[m].Linked? && log[m].letter.prio > prio
  }

  /** What stands first in the queue `j` events on: the urgent message, or one of higher priority that came after it. */
  lemma {:induction false} FirstSince(log: seq<Event>, byPrio: bool, i: nat, j: nat)
    requires i < j <= |log| && log[i].Linked? && log[i].urgent && OrdinaryBetween(log, i + 1, j)
    ensures var ls, l := Replay(log[..j], byPrio), log[i].letter;
      ls != [] && if byPrio && Passes(log, i + 1, j, l.prio) then ls[0].prio > l.prio else ls[0] == l
    decreases j
  {
    assert log[..j][..j - 1] == log[..j - 1];
    if i + 1 < j {
      FirstSince(log, byPrio, i, j - 1);
      var l := log[i].letter;
      assert Passes(log, i + 1, j, l.prio) <==> Passes(log, i + 1, j - 1, l.prio) || log[j - 1].letter.prio > l.prio;
    }
  }

  /**
   An urgent message is the next one taken, whatever ordinary ones are linked in between; in the priority build, exactly
   if none of those has a higher priority than the node of the urgent one happens to show.
   */
  lemma UrgentNext(log: seq<Event>, byPrio: bool, i: nat, j: nat)
    requires Legal(log, byPrio) && i < j < |log| && log[i].Linked? && log[i].urgent
    requires OrdinaryBetween(log, i + 1, j) && log[j].Taken?
    ensures log[j].letter == log[i].letter <==> !(byPrio && Passes(log, i + 1, j, log[i].letter.prio))
  {
    assert TakenFirst(log, byPrio, j);
    FirstSince(log, byPrio, i, j);
  }

  // ----- who is woken -----

  /** A queue of sleepers after a step of actor `a`: joined at the end, left at the front, left by `a` itself, or sent home. */
  ghost predicate InTurn(was: seq<nat>, now: seq<nat>, a: nat) {
    now == was || now == was + [a] || (was != [] && now == was[1..]) || now == Remove(was, a) || now == []
  }

  /** First asleep, first woken among the receivers, and each linked message wakes one of them. */
  lemma ReceiversInTurn(q: Mq, x: Action)
    requires Inv(q) && Enabled(q, x)
    ensures var r := Step(q, x);
      && InTurn(q.receivers, r.receivers, x.a) && |r.pc| == |q.pc|
      && (forall v: nat | v < |q.pc| && q.pc[v] == AwaitMessage && r.pc[v] == GotMessage ::
            x.Link? && q.receivers != [] && v == q.receivers[0])
      && (x.Link? && q.receivers != [] ==> q.receivers[0] < |q.pc| && r.pc[q.receivers[0]] == GotMessage)
  {
    hide Partition, Faithful, Insert, Stamps, Count, WakeSender, Reverse;
    assert q.receivers != [] ==> q.receivers[0] < |q.pc|;
    if x.Link? {
      LinkCounts(q, x.a);
    }
    if x.GiveBack? {
      WakesNoReceiver(q.(free := [q.pc[x.a].node] + q.free, pc := q.pc[x.a := Idle]));
    }
  }

  lemma WakesNoReceiver(q: Mq)
    ensures var r := WakeSender(q);
      && r.receivers == q.receivers && |r.pc| == |q.pc|
      && forall v: nat | v < |q.pc| :: r.pc[v] == q.pc[v] || r.pc[v].GotRoom?
  {
  }

  /** The same for the senders, of whom each node given back wakes one. */
  lemma SendersInTurn(q: Mq, x: Action)
    requires Inv(q) && Enabled(q, x)
    ensures var r := Step(q, x);
      && InTurn(q.senders, r.senders, x.a) && |r.pc| == |q.pc|
      && (forall v: nat | v < |q.pc| && q.pc[v].AwaitRoom? && r.pc[v].GotRoom? ::
            x.GiveBack? && q.senders != [] && v == q.senders[0])
      && (x.GiveBack? && q.senders != [] ==> q.senders[0] < |q.pc| && r.pc[q.senders[0]].GotRoom?)
  {
    hide Faithful, Insert, Stamps, NoDup, Somewhere, HoldApart, Count, WakeReceiver, Reverse;
    if q.senders != [] {
      assert q.senders[0] in q.senders && q.senders[0] < |q.pc|;
      assert PcOk(q, q.senders[0]);
    }
    if x.Link? {
      assert PcOk(q, x.a);
      LinkCounts(q, x.a);
      WakesNoSender(Joined(q, x.a).(entry := q.entry + 1));
    }
  }

  lemma WakesNoSender(q: Mq)
    ensures var r := WakeReceiver(q);
      && r.senders == q.senders && |r.pc| == |q.pc|
      && forall v: nat | v < |q.pc| :: r.pc[v] == q.pc[v] || r.pc[v] == GotMessage
  {
  }
}
