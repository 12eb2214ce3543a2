/**
 How long a time slice lasts on a single core, and what the other steps do to the thread they are about, leaving
 everybody else's turn alone.
 */
module UpEffects {
  import opened Common
  import opened ThreadState
  import opened ReadyIndex
  import opened UpSpec
  import opened UpTheorems

  // ----- the length of a slice -----

  /** The ticks `ns` one after the other, with nothing in between. */
  function Ticks(s: Up, ns: seq<nat>): (r: Up)
    requires Inv(s) && Started(s)
    ensures Inv(r) && Started(r)
    decreases ns
  {
    if ns == [] then s
    else
      TickKeeps(s, ns[0]);
      TickStarted(s, ns[0]);
      Ticks(UpSpec.Tick(s, ns[0]), ns[1..])
  }

  lemma TickStarted(s: Up, n: nat)
    requires Inv(s) && Started(s)
    ensures Started(UpSpec.Tick(s, n))
  {
    hide Find, Queues, Mark, Unmark, Best;
    TickKeeps(s, n);
    if s.remaining[s.current] <= n {
      var y := UpSpec.Yield(Elapse(s, n));
      ScheduleKeeps(y);
      if y.index.group != {} && y.nest == 0 {
        BestIsReady(y);
      }
    }
  }

  /** Ticks that do not add up to what is left of the slice do nothing but take as much away from it. */
  lemma {:induction false} SliceLasts(s: Up, ns: seq<nat>)
    requires Inv(s) && Started(s) && Sum(ns) < s.remaining[s.current]
    ensures Ticks(s, ns) == s.(remaining := s.remaining[s.current := s.remaining[s.current] - Sum(ns)])
    decreases ns
  {
    hide Queues, UpSpec.Schedule;
    if ns == [] {
    } else {
      var cur := s.current;
      TickKeeps(s, ns[0]);
      TickStarted(s, ns[0]);
      var e := UpSpec.Tick(s, ns[0]);
      assert e == s.(remaining := s.remaining[cur := s.remaining[cur] - ns[0]]);
      SliceLasts(e, ns[1..]);
      assert e.remaining[cur := s.remaining[cur] - Sum(ns)] == s.remaining[cur := s.remaining[cur] - Sum(ns)];
    }
  }

  lemma {:induction false} TicksLast(s: Up, ns: seq<nat>, n: nat)
    requires Inv(s) && Started(s)
    ensures Ticks(s, ns + [n]) == UpSpec.Tick(Ticks(s, ns), n)
    decreases ns
  {
    hide Inv, UpSpec.Tick;
    if ns == [] {
      TickKeeps(s, n);
      TickStarted(s, n);
      assert [] + [n] == [n] && [n][1..] == [];
      assert Ticks(s, [n]) == Ticks(UpSpec.Tick(s, n), []);
    } else {
      TickKeeps(s, ns[0]);
      TickStarted(s, ns[0]);
      assert (ns + [n])[0] == ns[0] && (ns + [n])[1..] == ns[1..] + [n];
      TicksLast(UpSpec.Tick(s, ns[0]), ns[1..], n);
    }
  }

  /**
   A slice is over with exactly that tick with which the ticks come to add up to what was left of it, and not before:
   then the turn passes on by one and the slice is given back in full.
   */
  lemma SliceEnds(s: Up, ns: seq<nat>, n: nat)
    requires Inv(s) && Started(s) && s.nest == 0 && RunsTheBest(s) && Sum(ns) < s.remaining[s.current]
    ensures var r, cur := Ticks(s, ns + [n]), s.current;
      if Sum(ns) + n < s.remaining[cur] then
        Circle(r) == Circle(s) && r.remaining == s.remaining[cur := s.remaining[cur] - Sum(ns) - n]
      else Circle(r) == Circle(s)[1..] + [Circle(s)[0]] && r.remaining == s.remaining[cur := s.slice[cur]]
  {
    hide Queues, UpSpec.Tick, Ticks, Dispatched;
    var cur := s.current;
    if Sum(ns) + n < s.remaining[cur] {
      SumAppend(ns, n);
      SliceLasts(s, ns + [n]);
    } else {
      LastTick(s, ns, n);
    }
  }

  lemma LastTick(s: Up, ns: seq<nat>, n: nat)
    requires Inv(s) && Started(s) && s.nest == 0 && RunsTheBest(s) && Sum(ns) < s.remaining[s.current] <= Sum(ns) + n
    ensures var r, cur := Ticks(s, ns + [n]), s.current;
      Circle(r) == Circle(s)[1..] + [Circle(s)[0]] && r.remaining == s.remaining[cur := s.slice[cur]]
  {
    hide Queues, UpSpec.Tick, Ticks, Sum, Dispatched;
    SliceLasts(s, ns);
    TicksLast(s, ns, n);
    ExpiryRotates(Ticks(s, ns), n);
  }

  lemma {:induction false} SumAppend(ns: seq<nat>, n: nat)
    ensures Sum(ns + [n]) == Sum(ns) + n
  {
    if ns == [] {
    } else {
      assert (ns + [n])[1..] == ns[1..] + [n];
      SumAppend(ns[1..], n);
    }
  }

  // ----- everybody else's turn -----

  /** Leaving `t` out, the queues are the same, in the same order. */
  ghost predicate OrderKept(s: Up, r: Up, t: nat) {
    |r.ready| == |s.ready| && forall p | 0 <= p < |s.ready| :: Remove(r.ready[p], t) == Remove(s.ready[p], t)
  }

  /** Everything but `t`'s own fields and its place in the queues. */
  ghost predicate OthersKept(s: Up, r: Up, t: nat) {
    && OrderKept(s, r, t) && r.idle == s.idle && r.current == s.current && r.nest == s.nest && r.pending == s.pending
    && r.slice == s.slice && r.remaining == s.remaining && t < |s.stat|
    && |r.stat| == |s.stat| == |s.yielded| == |r.yielded| && |r.prio| == |s.prio| == |s.stat|
    && r.stat == s.stat[t := r.stat[t]] && r.prio == s.prio[t := r.prio[t]] && r.yielded == s.yielded[t := r.yielded[t]]
  }

  /** Thread `t` stands in front in the queue of its priority. */
  ghost predicate StandsFirst(s: Up, t: nat) {
    t < |s.prio| && s.prio[t] < |s.ready| && s.ready[s.prio[t]] != [] && s.ready[s.prio[t]][0] == t
  }

  lemma DelistOrder(s: Up, t: nat)
    requires Shape(s) && Queues(s.ready, s.index, s.stat, s.prio) && t < |s.stat|
    ensures OrderKept(s, Delist(s, t), t)
  {
    hide Agrees, Placed;
    var p := s.prio[t];
    assert Tidy(s.ready[p], |s.stat|);
    RemoveNoDup(s.ready[p], t);
  }

  lemma InsertOrder(s: Up, t: nat)
    requires Shape(s) && Queues(s.ready, s.index, s.stat, s.prio) && t < |s.stat| && s.stat[t] != Ready
    requires t != s.current && !s.yielded[t]
    ensures OrderKept(s, Insert(s, t), t) && StandsFirst(Insert(s, t), t)
  {
    hide Agrees, Tidy;
    assert Placed(s.ready, s.stat[t], s.prio[t], t);
    assert ([t] + s.ready[s.prio[t]])[1..] == s.ready[s.prio[t]];
  }

  /** A sleeping thread becomes ready in front of its equals; the current one, not switched out yet, just goes on. */
  lemma ResumeDoes(s: Up, t: nat)
    requires Inv(s) && t < |s.stat|
    ensures var r := UpSpec.Resume(s, t);
      && OthersKept(s, r, t) && r.prio == s.prio && r.yielded == s.yielded
      && (s.stat[t] != Suspended ==> r == s)
      && (s.stat[t] == Suspended && t == s.current ==> r.stat[t] == Running && r.ready == s.ready)
      && (s.stat[t] == Suspended && t != s.current ==> r.stat[t] == Ready && StandsFirst(r, t))
  {
    hide Queues, Mark;
    if s.stat[t] == Suspended && t != s.current {
      InsertOrder(s, t);
    }
  }

  /** A new thread, started and resumed, is ready in front of its equals. */
  lemma NewThreadReady(s: Up, t: nat)
    requires Inv(s) && t < |s.stat| && s.stat[t] == Initial
    ensures Inv(UpSpec.Startup(s, t))
    ensures var r := UpSpec.Resume(UpSpec.Startup(s, t), t);
      OthersKept(s, r, t) && r.prio == s.prio && !r.yielded[t] && r.stat[t] == Ready && StandsFirst(r, t)
  {
    hide Queues, Mark;
    StartupKeeps(s, t);
    ResumeDoes(UpSpec.Startup(s, t), t);
  }

  /** A ready or running thread goes to sleep and is in no queue; anybody else is refused. */
  lemma SuspendDoes(s: Up, t: nat)
    requires Inv(s) && t < |s.stat| && t != s.idle
    ensures var r := UpSpec.Suspend(s, t);
      && OthersKept(s, r, t) && r.prio == s.prio && r.yielded == s.yielded
      && (if s.stat[t] == Ready || s.stat[t] == Running then r.stat[t] == Suspended else r == s)
      && (r.stat[t] == Suspended ==> forall p | 0 <= p < |r.ready| :: t !in r.ready[p])
  {
    hide Agrees, Tidy, Unmark;
    SuspendKeeps(s, t);
    DelistOrder(s, t);
    var r := UpSpec.Suspend(s, t);
    assert Placed(r.ready, r.stat[t], r.prio[t], t);
  }

  /** The priority is the one asked for, whatever the thread is doing; a ready thread goes in front of its new equals. */
  lemma SetPriorityDoes(s: Up, t: nat, p: nat)
    requires Inv(s) && t < |s.stat| && p < |s.ready|
    ensures var r := UpSpec.SetPriority(s, t, p);
      && OthersKept(s, r, t) && r.prio == s.prio[t := p] && r.stat == s.stat
      && (if s.stat[t] == Ready then StandsFirst(r, t) && !r.yielded[t] else r.ready == s.ready && r.yielded == s.yielded)
  {
    hide Queues, Delist, Mark;
    if s.stat[t] == Ready {
      DelistOrder(s, t);
      DelistKeeps(s, t, Initial);
      KindKept(s, t);
      DelistFields(s, t);
      var d := Delist(s, t).(stat := s.stat[t := Initial], yielded := s.yielded[t := false]);
      PrioFree(d, t, p);
      InsertOrder(d.(prio := s.prio[t := p]), t);
    }
  }

  // ----- the first dispatch -----

  /** Starting the system puts a best thread on the CPU, the first of its equals, and leaves the others waiting in turn. */
  lemma StartDispatches(s: Up)
    requires Inv(s) && !Started(s) && s.stat[s.idle] == Ready
    ensures s.index.group != {}
    ensures var r := UpSpec.Start(s);
      && Inv(r) && Started(r) && RunsTheBest(r) && !r.pending && r.nest == s.nest && r.prio == s.prio
      && s.ready[s.prio[r.current]] != [] && s.ready[s.prio[r.current]][0] == r.current
      && OrderKept(s, r, r.current)
  {
    hide Find, Queues, Mark, Unmark, Best, OrderKept;
    ReadyMeansMarked(s, s.idle);
    StartKeeps(s);
    BestIsReady(s);
    var to := s.ready[Best(s)][0];
    DelistOrder(s, to);
    var c := s.(current := to, pending := false);
    assert Delist(c, to) == Delist(s, to).(current := to, pending := false);
    assert OrderKept(s, UpSpec.Start(s), to) by {
      SameOrder(s, Delist(s, to), UpSpec.Start(s), to);
    }
  }

  lemma SameOrder(s: Up, a: Up, r: Up, t: nat)
    requires OrderKept(s, a, t) && r.ready == a.ready
    ensures OrderKept(s, r, t)
  {
  }

  /** Losing the CPU uses up a yield; going on does not, and nobody else's flag changes. */
  lemma YieldSpent(s: Up)
    requires Inv(s) && Started(s)
    ensures var r := UpSpec.Schedule(s);
      r.yielded == if r.current == s.current then s.yielded else s.yielded[s.current := false]
  {
    hide Find, Queues, SwitchTo, Best, Mark, Unmark;
    if s.nest == 0 && s.index.group != {} {
      BestIsReady(s);
      if Stays(s, Best(s)) {
        DelistUnlisted(s, s.current);
      } else {
        SwitchQueues(s, s.ready[Best(s)][0]);
      }
    }
  }

  // ----- critical sections -----

  function Entered(s: Up, n: nat): Up {
    if n == 0 then s else UpSpec.Enter(Entered(s, n - 1))
  }

  function Left(s: Up, n: nat): Up {
    if n == 0 then s else UpSpec.Leave(Left(s, n - 1))
  }

  /** Sections nest: what has been entered `n` times has been left after as many exits and no fewer, with nothing else changed. */
  lemma {:induction false} SectionsNest(s: Up, n: nat, k: nat)
    requires k <= n
    ensures Left(Entered(s, n), k) == s.(nest := s.nest + n - k)
  {
    if k > 0 {
      SectionsNest(s, n, k - 1);
    } else if n > 0 {
      SectionsNest(s, n - 1, 0);
    }
  }
}
