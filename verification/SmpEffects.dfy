/**
 What the steps of the multi-core scheduler do to the thread they are about, that they leave everybody
 else's turn alone, and for which reasons alone a schedule takes a CPU away.
 */
module SmpEffects {
  import opened Common
  import opened ThreadState
  import opened SmpSpec
  import opened SmpTheorems

  // ----- everybody else's turn -----

  /** Leaving `t` out, the queues are the same, in the same order. */
  ghost predicate OrderKept(s: Sched, r: Sched, t: nat)
    requires Shape(s) && Shape(r) && s.cpus == r.cpus && s.levels == r.levels
  {
    forall b, p | 0 <= b <= s.cpus && 0 <= p < s.levels :: Remove(r.ready[b][p], t) == Remove(s.ready[b][p], t)
  }

  lemma {:induction false} RemoveBack(q: seq<nat>, t: nat)
    requires t !in q
    ensures Remove(q + [t], t) == q
  {
    if q == [] {
    } else {
      assert (q + [t])[1..] == q[1..] + [t];
      RemoveBack(q[1..], t);
    }
  }

  lemma DelistOrder(s: Sched, t: nat, stat: Stat)
    requires Queues(s) && t < |s.stat|
    ensures Shape(Delist(s, t, stat)) && OrderKept(s, Delist(s, t, stat), t)
  {
    hide Placed;
    var b, p := s.bind[t], s.prio[t];
    assert Indexed(s, b, p);
    RemoveNoDup(s.ready[b][p], t);
  }

  lemma EnlistOrder(s: Sched, t: nat)
    requires Queues(s) && t < |s.stat| && s.stat[t] != Ready
    ensures Shape(Enlist(s, t)) && OrderKept(s, Enlist(s, t), t)
  {
    hide Indexed;
    var q := s.ready[s.bind[t]][s.prio[t]];
    assert Placed(s, t);
    RemoveBack(q, t);
    assert ([t] + q)[1..] == q;
  }

  /** Thread `t` stands in the queue of its binding and priority: in front, or behind if it had yielded. */
  ghost predicate StandsAt(s: Sched, t: nat, yielded: bool)
    requires Shape(s) && t < |s.stat|
  {
    var q := s.ready[s.bind[t]][s.prio[t]];
    q != [] && t == if yielded then q[|q| - 1] else q[0]
  }

  /** Everything but `t`'s own fields and its place in the queues. */
  ghost predicate OthersKept(s: Sched, r: Sched, t: nat) {
    Shape(s) && Shape(r) && Touches(s, r, t) && OrderKept(s, r, t) && r.oncpu == s.oncpu
    && |r.yielded| == |s.yielded| && forall u | 0 <= u < |s.stat| && u != t :: r.yielded[u] == s.yielded[u]
  }

  /** A sleeping thread becomes ready where its binding and priority say, or goes on if it has not left its CPU yet. */
  lemma ResumeDoes(s: Sched, t: nat)
    requires Inv(s) && t < |s.stat|
    ensures var r := SmpSpec.Resume(s, t);
      && OthersKept(s, r, t) && r.bind == s.bind && r.prio == s.prio && r.yielded == s.yielded
      && (s.stat[t] != Suspended ==> r == s)
      && (s.stat[t] == Suspended && s.oncpu[t] < s.cpus ==> r.stat[t] == Running && r.ready == s.ready)
      && (s.stat[t] == Suspended && s.oncpu[t] == s.cpus ==> r.stat[t] == Ready && StandsAt(r, t, s.yielded[t]))
  {
    hide Placed, Indexed, Seated, Manned;
    if s.stat[t] == Suspended && s.oncpu[t] == s.cpus {
      EnlistOrder(s, t);
    }
  }

  /** A new thread, started and resumed, is ready in front of its equals, unless it is an idle thread that is running already. */
  lemma NewThreadReady(s: Sched, t: nat)
    requires Inv(s) && Enabled(s, Op.Startup(t))
    ensures Inv(SmpSpec.Startup(s, t))
    ensures var r := SmpSpec.Resume(SmpSpec.Startup(s, t), t);
      && OthersKept(s, r, t) && r.bind == s.bind && r.prio == s.prio && !r.yielded[t]
      && (if s.oncpu[t] == s.cpus then r.stat[t] == Ready && StandsAt(r, t, false) else r.stat[t] == Running)
  {
    hide Placed, Indexed, Seated, Manned;
    StartupKeeps(s, t);
    ResumeDoes(SmpSpec.Startup(s, t), t);
  }

  /** The caller or a ready thread goes to sleep and is in no queue; anybody else is refused. */
  lemma SuspendDoes(s: Sched, c: nat, t: nat)
    requires Inv(s) && Enabled(s, Op.Suspend(c, t))
    ensures var r := SmpSpec.Suspend(s, c, t);
      && OthersKept(s, r, t) && r.bind == s.bind && r.prio == s.prio
      && (if s.stat[t] == Ready || s.stat[t] == Running then r.stat[t] == Suspended && !r.yielded[t] else r == s)
      && (r.stat[t] == Suspended ==> forall b, p | 0 <= b <= s.cpus && 0 <= p < s.levels :: t !in r.ready[b][p])
  {
    hide Indexed, Seated, Manned;
    SuspendKeeps(s, c, t);
    DelistOrder(s, t, Suspended);
    assert Placed(SmpSpec.Suspend(s, c, t), t);
  }

  /** A ready thread taken out of its queue and put back, possibly with another binding or priority. */
  lemma RequeueDoes(s: Sched, t: nat, stat: Stat, m: Sched)
    requires Inv(s) && t < |s.stat| && s.stat[t] == Ready && stat != Ready
    requires Shape(Delist(s, t, stat)) && Shape(m) && Touches(Delist(s, t, stat), m, t) && !m.yielded[t]
    requires m == Delist(s, t, stat).(bind := m.bind, prio := m.prio, yielded := m.yielded)
    ensures Insert(m, t) == Enlist(m, t)
    ensures var r := Enlist(m, t);
      && Shape(r) && r.cpus == s.cpus && r.levels == s.levels && OrderKept(s, r, t) && StandsAt(r, t, false)
      && r.bind == m.bind && r.prio == m.prio && r.yielded == m.yielded && r.oncpu == s.oncpu && r.stat == s.stat
      && r.current == s.current && r.idle == s.idle
  {
    hide Placed, Indexed, Manned;
    DelistOrder(s, t, stat);
    DelistQueues(s, t, stat);
    FrameQueues(Delist(s, t, stat), m, t);
    assert Seated(s, t);
    EnlistOrder(m, t);
  }

  /** The binding is the one asked for, whatever the thread is doing; a ready thread goes in front in its new table. */
  lemma BindDoes(s: Sched, t: nat, cpu: nat)
    requires Inv(s) && Enabled(s, Op.Bind(t, cpu))
    ensures var r := SmpSpec.Bind(s, t, cpu);
      && OthersKept(s, r, t) && r.bind == s.bind[t := Min(cpu, s.cpus)] && r.prio == s.prio && r.stat == s.stat
      && (if s.stat[t] == Ready then StandsAt(r, t, false) && !r.yielded[t] else r.ready == s.ready && r.yielded == s.yielded)
  {
    hide Placed, Indexed, Manned, Seated, StandsAt, Enlist;
    if s.stat[t] == Ready {
      var m := Delist(s, t, Suspended).(bind := s.bind[t := Min(cpu, s.cpus)], yielded := s.yielded[t := false]);
      RequeueDoes(s, t, Suspended, m);
    }
  }

  /** The priority is the one asked for, whatever the thread is doing; a ready thread goes in front of its new equals. */
  lemma SetPriorityDoes(s: Sched, t: nat, p: nat)
    requires Inv(s) && Enabled(s, Op.SetPriority(t, p))
    ensures var r := SmpSpec.SetPriority(s, t, p);
      && OthersKept(s, r, t) && r.prio == s.prio[t := p] && r.bind == s.bind && r.stat == s.stat
      && (if s.stat[t] == Ready then StandsAt(r, t, false) && !r.yielded[t] else r.ready == s.ready && r.yielded == s.yielded)
  {
    hide Placed, Indexed, Manned, Seated, StandsAt, Enlist;
    if s.stat[t] == Ready {
      var m := Delist(s, t, Initial).(prio := s.prio[t := p], yielded := s.yielded[t := false]);
      RequeueDoes(s, t, Initial, m);
    }
  }

  // ----- losing the CPU -----

  /** Thread `t` has a reason to take CPU `c`: its thread cannot go on there, is less urgent, or is as urgent and has yielded. */
  ghost predicate Ousts(s: Sched, c: nat, t: nat)
    requires Shape(s) && c < s.cpus
  {
    var cur := s.current[c];
    && WaitsFor(s, t, c)
    && (s.stat[cur] != Running || s.bind[cur] !in {c, s.cpus} || s.prio[t] < s.prio[cur]
        || (s.prio[t] == s.prio[cur] && s.yielded[cur]))
  }

  /** A schedule gives the CPU to another thread exactly if some waiting thread has such a reason. */
  lemma SwitchesOnlyFor(s: Sched, c: nat)
    requires Inv(s) && c < s.cpus
    ensures SmpSpec.Schedule(s, c).current[c] != s.current[c] <==> exists t: nat :: Ousts(s, c, t)
  {
    hide Placed, Indexed, Manned, Highest;
    if s.group[s.cpus] == {} && s.group[c] == {} {
      forall t: nat ensures !Ousts(s, c, t) {
        NobodyWaits(s, t, c);
      }
    } else {
      HighestIsReady(s, c);
      var (b, p) := Highest(s, c);
      var to := s.ready[b][p][0];
      ScheduleCases(s, c, to, p);
      if Stays(s, c, p) {
        forall t: nat ensures !Ousts(s, c, t) {
          if WaitsFor(s, t, c) {
            WaitingIsListed(s, t, c);
          }
        }
      } else {
        assert Ousts(s, c, to);
      }
    }
  }

  /** A schedule uses up a yield: the flag of a running thread goes unless nobody at all waits for the CPU, and no other changes. */
  lemma YieldSpent(s: Sched, c: nat)
    requires Inv(s) && c < s.cpus
    ensures var r, cur := SmpSpec.Schedule(s, c), s.current[c];
      && |r.yielded| == |s.yielded|
      && (r.yielded[cur] <==> s.yielded[cur] && (s.stat[cur] != Running || !exists t: nat :: WaitsFor(s, t, c)))
      && forall u | 0 <= u < |s.yielded| && u != cur :: r.yielded[u] == s.yielded[u]
  {
    hide Placed, Indexed, Manned, Highest;
    if s.group[s.cpus] == {} && s.group[c] == {} {
      forall t: nat ensures !WaitsFor(s, t, c) {
        NobodyWaits(s, t, c);
      }
    } else {
      HighestIsReady(s, c);
      var (b, p) := Highest(s, c);
      var to := s.ready[b][p][0];
      assert WaitsFor(s, to, c);
      ScheduleCases(s, c, to, p);
    }
  }
}
