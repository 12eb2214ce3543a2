/** What the single-core scheduler keeps over whole runs, what it dispatches, and in what order. */
module UpTheorems {
  import opened Common
  import opened ThreadState
  import opened ReadyIndex
  import opened UpSpec

  datatype Op =
    | Startup(t: nat) | Start | Schedule | Suspend(t: nat) | Resume(t: nat) | SetPriority(t: nat, p: nat)
    | Yield | Tick(ticks: nat) | Enter | Leave | Flush

  /** What the source demands of its callers: the idle thread is never suspended, a running thread suspends itself. */
  ghost predicate Enabled(s: Up, op: Op)
    requires Shape(s)
  {
    match op
    case Startup(t) => t < |s.stat| && s.stat[t] == Initial
    case Start => !Started(s) && s.stat[s.idle] == Ready
    case Schedule => Started(s)
    case Suspend(t) => t < |s.stat| && t != s.idle
    case Resume(t) => t < |s.stat|
    case SetPriority(t, p) => t < |s.stat| && p < |s.ready|
    case Yield => Started(s)
    case Tick(_) => Started(s)
    case Enter => true
    case Leave => true
    case Flush => true
  }

  function Step(s: Up, op: Op): Up
    requires Inv(s) && Enabled(s, op)
  {
    match op
    case Startup(t) => UpSpec.Startup(s, t)
    case Start =>
      ReadyMeansMarked(s, s.idle);
      UpSpec.Start(s)
    case Schedule => UpSpec.Schedule(s)
    case Suspend(t) => UpSpec.Suspend(s, t)
    case Resume(t) => UpSpec.Resume(s, t)
    case SetPriority(t, p) => UpSpec.SetPriority(s, t, p)
    case Yield => UpSpec.Yield(s)
    case Tick(n) => UpSpec.Tick(s, n)
    case Enter => UpSpec.Enter(s)
    case Leave => UpSpec.Leave(s)
    case Flush => UpSpec.Flush(s)
  }

  // ----- the best waiting thread -----

  lemma ReadyMeansMarked(s: Up, t: nat)
    requires Inv(s) && t < |s.stat| && s.stat[t] == Ready
    ensures s.index.group != {} && Best(s) <= s.prio[t] && t in s.ready[s.prio[t]]
  {
    hide Find;
    assert Placed(s.ready, s.stat[t], s.prio[t], t);
    assert s.ready[s.prio[t]] != [];
    LookupIsScan(s.index, s.ready);
  }

  /** The head of the best queue is ready, and nobody ready is better. */
  lemma BestIsReady(s: Up)
    requires Inv(s) && s.index.group != {}
    ensures var to := s.ready[Best(s)][0];
      && to < |s.stat| && s.stat[to] == Ready && s.prio[to] == Best(s) && to != s.current
      && forall t: nat | t < |s.stat| && s.stat[t] == Ready :: Best(s) <= s.prio[t]
  {
    hide Find, Agrees;
    var to := s.ready[Best(s)][0];
    assert to in s.ready[Best(s)];
    assert Placed(s.ready, s.stat[to], s.prio[to], to);
    forall t: nat | t < |s.stat| && s.stat[t] == Ready ensures Best(s) <= s.prio[t] {
      ReadyMeansMarked(s, t);
    }
  }

  // ----- every step keeps the invariant -----

  /** The state just after `from` has handed over to `to`, seen through what may have changed. */
  ghost predicate HandedOver(s: Up, r: Up, to: nat)
    requires Shape(s) && Started(s) && to < |s.stat|
  {
    && r.current == to && r.idle == s.idle && r.nest == s.nest && r.pending == s.pending
    && r.prio == s.prio && r.slice == s.slice && r.remaining == s.remaining && |r.stat| == |s.stat|
    && |r.ready| == |s.ready| && r.index.TwoLevel? == s.index.TwoLevel?
    && r.yielded == s.yielded[s.current := false]
    && r.stat == s.stat[s.current := if s.stat[s.current] == Running then Ready else s.stat[s.current]][to := Running]
  }

  lemma SwitchQueues(s: Up, to: nat)
    requires Inv(s) && Started(s) && to < |s.stat| && s.stat[to] == Ready && s.stat[s.current] != Ready
    ensures var r := SwitchTo(s, to); Shape(r) && Queues(r.ready, r.index, r.stat, r.prio) && HandedOver(s, r, to)
  {
    hide Find, Agrees, Placed, Tidy, Queues, Mark, Unmark, Remove;
    var cur := s.current;
    var a := s.(current := to);
    var b := if s.stat[cur] == Running then Insert(a, cur) else a;
    assert Queues(b.ready, b.index, b.stat, b.prio) by {
      if s.stat[cur] == Running {
        InsertKeeps(a, cur);
      }
    }
    KindKept(a, cur);
    var c := b.(yielded := b.yielded[cur := false]);
    KindKept(c, to);
    DelistKeeps(c, to, Running);
  }

  lemma KindKept(s: Up, t: nat)
    requires Shape(s) && t < |s.stat|
    ensures Insert(s, t).index.TwoLevel? == s.index.TwoLevel? && Delist(s, t).index.TwoLevel? == s.index.TwoLevel?
    ensures Shape(Insert(s, t)) && Shape(Delist(s, t))
  {
    hide Remove;
  }

  lemma ScheduleKeeps(s: Up)
    requires Inv(s) && Started(s)
    ensures Inv(UpSpec.Schedule(s))
  {
    hide Find, Queues, SwitchTo, Delist, Best;
    if s.nest == 0 && s.index.group != {} {
      BestIsReady(s);
      if Stays(s, Best(s)) {
        DelistUnlisted(s, s.current);
        assert s.stat[s.current := Running] == s.stat;
      } else {
        SwitchQueues(s, s.ready[Best(s)][0]);
      }
    }
  }

  lemma StartKeeps(s: Up)
    requires Inv(s) && !Started(s) && s.stat[s.idle] == Ready && s.index.group != {}
    ensures Inv(UpSpec.Start(s))
  {
    hide Find, Queues, Delist, Best;
    BestIsReady(s);
    var to := s.ready[Best(s)][0];
    var a := s.(current := to, pending := false);
    DelistKeeps(a, to, Running);
    KindKept(a, to);
    DelistFields(a, to);
  }

  lemma DelistFields(s: Up, t: nat)
    requires Shape(s) && t < |s.stat|
    ensures var d := Delist(s, t); d == s.(ready := d.ready, index := d.index) && |d.ready| == |s.ready|
  {
  }

  lemma StartupKeeps(s: Up, t: nat)
    requires Inv(s) && t < |s.stat| && s.stat[t] == Initial
    ensures Inv(UpSpec.Startup(s, t))
  {
    hide Queues;
    StatFree(s, t, Suspended);
  }

  lemma SuspendKeeps(s: Up, t: nat)
    requires Inv(s) && t < |s.stat| && t != s.idle
    ensures Inv(UpSpec.Suspend(s, t))
  {
    hide Queues, Delist;
    DelistKeeps(s, t, Suspended);
    KindKept(s, t);
    DelistFields(s, t);
  }

  lemma ResumeKeeps(s: Up, t: nat)
    requires Inv(s) && t < |s.stat|
    ensures Inv(UpSpec.Resume(s, t))
  {
    hide Queues;
    if s.stat[t] == Suspended {
      InsertKeeps(s, t);
      KindKept(s, t);
    }
  }

  lemma SetPriorityKeeps(s: Up, t: nat, p: nat)
    requires Inv(s) && t < |s.stat| && p < |s.ready|
    ensures Inv(UpSpec.SetPriority(s, t, p))
  {
    hide Queues, Delist;
    if s.stat[t] == Ready {
      DelistKeeps(s, t, Initial);
      KindKept(s, t);
      DelistFields(s, t);
      var d := Delist(s, t).(stat := s.stat[t := Initial], yielded := s.yielded[t := false]);
      PrioFree(d, t, p);
      var e := d.(prio := s.prio[t := p]);
      InsertKeeps(e, t);
      KindKept(e, t);
    } else {
      PrioFree(s, t, p);
    }
  }

  lemma TickKeeps(s: Up, ticks: nat)
    requires Inv(s) && Started(s)
    ensures Inv(UpSpec.Tick(s, ticks))
  {
    hide Queues, UpSpec.Schedule;
    var e := Elapse(s, ticks);
    if e.remaining[s.current] == 0 {
      ScheduleKeeps(UpSpec.Yield(e));
    }
  }

  lemma StepKeeps(s: Up, op: Op)
    requires Inv(s) && Enabled(s, op)
    ensures Inv(Step(s, op))
  {
    hide Queues, UpSpec.Schedule, UpSpec.Tick, UpSpec.Start, UpSpec.SetPriority, UpSpec.Suspend, UpSpec.Resume;
    match op
    case Startup(t) => StartupKeeps(s, t);
    case Start =>
      ReadyMeansMarked(s, s.idle);
      StartKeeps(s);
    case Schedule => ScheduleKeeps(s);
    case Suspend(t) => SuspendKeeps(s, t);
    case Resume(t) => ResumeKeeps(s, t);
    case SetPriority(t, p) => SetPriorityKeeps(s, t, p);
    case Yield =>
    case Tick(n) => TickKeeps(s, n);
    case Enter =>
    case Leave =>
    case Flush =>
      if s.pending {
        ScheduleKeeps(s.(pending := false));
      }
  }

  // ----- runs -----

  ghost predicate Follows(s: Up, op: Op, r: Up) {
    Inv(s) ==> Enabled(s, op) && r == Step(s, op)
  }

  ghost predicate Run(trace: seq<Up>, ops: seq<Op>) {
    && |trace| == |ops| + 1 && Inv(trace[0])
    && forall i | 0 <= i < |ops| :: Follows(trace[i], ops[i], trace[i + 1])
  }

  /** Both forms of the bitmap agree with the queues, and all else in `Inv`, whatever interrupts do in between. */
  lemma {:induction false} RunSafe(trace: seq<Up>, ops: seq<Op>, k: nat)
    requires Run(trace, ops) && k <= |ops|
    ensures Inv(trace[k])
    decreases k
  {
    hide Inv, Step, Enabled;
    if k > 0 {
      RunSafe(trace, ops, k - 1);
      assert Follows(trace[k - 1], ops[k - 1], trace[k]);
      StepKeeps(trace[k - 1], ops[k - 1]);
    }
  }

  // ----- dispatch -----

  /** The current thread runs, and nobody ready is better. */
  ghost predicate RunsTheBest(s: Up)
    requires Shape(s) && Started(s)
  {
    && s.stat[s.current] == Running
    && forall t: nat | t < |s.stat| && s.stat[t] == Ready :: s.prio[s.current] <= s.prio[t]
  }

  /** With the scheduler unlocked, a schedule leaves nobody ready who is better than the running thread. */
  lemma ScheduleRunsTheBest(s: Up)
    requires Inv(s) && Started(s) && s.nest == 0
    ensures var r := UpSpec.Schedule(s); Inv(r) && Started(r) && RunsTheBest(r)
  {
    hide Find, Queues, SwitchTo, Best;
    ScheduleKeeps(s);
    if s.index.group == {} {
      NobodyReady(s);
    } else {
      BestIsReady(s);
      if Stays(s, Best(s)) {
        DelistUnlisted(s, s.current);
      } else {
        SwitchQueues(s, s.ready[Best(s)][0]);
      }
    }
  }

  /** Then the idle thread, which is always there to run, must be running itself. */
  lemma NobodyReady(s: Up)
    requires Inv(s) && s.index.group == {}
    ensures forall t: nat | t < |s.stat| :: s.stat[t] != Ready
  {
    hide Find, Queues;
    forall t: nat | t < |s.stat| ensures s.stat[t] != Ready {
      if s.stat[t] == Ready {
        ReadyMeansMarked(s, t);
      }
    }
  }

  /** A schedule changes the running thread only for a better one, an equal one after a yield, or when it no longer runs. */
  lemma SwitchesOnlyFor(s: Up)
    requires Inv(s) && Started(s)
    ensures var r := UpSpec.Schedule(s);
      r.current != s.current ==>
        && s.nest == 0 && r.current < |s.stat| && s.stat[r.current] == Ready
        && (s.stat[s.current] == Running ==>
              s.prio[r.current] < s.prio[s.current] || (s.prio[r.current] == s.prio[s.current] && s.yielded[s.current]))
  {
    hide Find, Queues, SwitchTo, Best;
    if s.nest == 0 && s.index.group != {} {
      BestIsReady(s);
      if Stays(s, Best(s)) {
        DelistUnlisted(s, s.current);
      } else {
        SwitchQueues(s, s.ready[Best(s)][0]);
      }
    }
  }

  // ----- schedules refused inside critical sections -----

  predicate IsRefusal(s: Up, op: Op) {
    s.nest > 0 && op.Schedule?
  }

  /** What happens before the section's end has been dealt with: anything but that, and the start of the system. */
  predicate Unflushed(op: Op) {
    !op.Flush? && !op.Start?
  }

  lemma SchedulePending(s: Up)
    requires Inv(s) && Started(s)
    ensures var r := UpSpec.Schedule(s);
      && r.nest == s.nest && r.pending == (s.pending || s.nest > 0) && Started(r) && (s.nest > 0 ==> r.current == s.current)
  {
    hide Find, Queues, SwitchTo, Best;
    if s.nest == 0 && s.index.group != {} {
      BestIsReady(s);
      if Stays(s, Best(s)) {
        DelistUnlisted(s, s.current);
      } else {
        SwitchQueues(s, s.ready[Best(s)][0]);
      }
    }
  }

  lemma RequestKept(s: Up, op: Op)
    requires Inv(s) && Enabled(s, op) && Unflushed(op)
    ensures s.pending || IsRefusal(s, op) ==> Step(s, op).pending
    ensures Started(s) ==> Started(Step(s, op)) && (s.nest > 0 ==> Step(s, op).current == s.current)
  {
    hide Queues, Best, UpSpec.Schedule;
    if op.Schedule? {
      SchedulePending(s);
    } else if op.Tick? {
      SchedulePending(UpSpec.Yield(Elapse(s, op.ticks)));
    }
  }

  /**
   Once refused, a schedule stays asked for until it is made up for: nested sections, ticks, resumed and
   suspended threads, even other schedules after the section has been left, do not lose it.
   */
  lemma {:induction false} RefusalRemembered(trace: seq<Up>, ops: seq<Op>, i: nat, j: nat)
    requires Run(trace, ops) && i < j <= |ops| && IsRefusal(trace[i], ops[i])
    requires forall k | i <= k < j :: Unflushed(ops[k])
    ensures Inv(trace[j]) && Started(trace[j]) && trace[j].pending
    ensures (forall k | i <= k < j :: trace[k].nest > 0) ==> trace[j].current == trace[i].current
    decreases j
  {
    hide Inv, Step, Enabled, Unflushed;
    RunSafe(trace, ops, j - 1);
    RunSafe(trace, ops, j);
    assert Follows(trace[j - 1], ops[j - 1], trace[j]);
    if i < j - 1 {
      RefusalRemembered(trace, ops, i, j - 1);
    } else {
      RefusedWhileStarted(trace[i], ops[i]);
    }
    RequestKept(trace[j - 1], ops[j - 1]);
  }

  lemma RefusedWhileStarted(s: Up, op: Op)
    requires Inv(s) && Enabled(s, op) && IsRefusal(s, op)
    ensures Started(s)
  {
    hide Queues;
  }

  /**
   And it is made up for where the outermost section is left: nobody ready is better than the one running
   then. That holds for the exit as a whole, and also when interrupts get in after the count has reached zero.
   */
  lemma RefusalPerformed(trace: seq<Up>, ops: seq<Op>, i: nat, j: nat)
    requires Run(trace, ops) && i < j <= |ops| && IsRefusal(trace[i], ops[i])
    requires forall k | i <= k < j :: Unflushed(ops[k])
    requires trace[j].nest <= 1
    ensures Inv(trace[j])
    ensures var e := if trace[j].nest == 0 then UpSpec.Flush(trace[j]) else Exit(trace[j]);
      Inv(e) && Started(e) && RunsTheBest(e) && !e.pending && e.nest == 0
  {
    hide Queues, UpSpec.Schedule;
    RefusalRemembered(trace, ops, i, j);
    var s := trace[j].(nest := 0, pending := false);
    ScheduleRunsTheBest(s);
    SchedulePending(s);
  }

  // ----- time slices -----

  /** The running thread followed by its waiting equals. */
  function Circle(s: Up): seq<nat>
    requires Shape(s) && Started(s)
  {
    [s.current] + s.ready[s.prio[s.current]]
  }

  /** What the schedule at the end of a slice finds: the yielding thread's own queue, unless that is empty. */
  lemma BestOfEquals(s: Up)
    requires Inv(s) && Started(s) && RunsTheBest(s)
    ensures s.ready[s.prio[s.current]] != [] ==> s.index.group != {} && Best(s) == s.prio[s.current]
    ensures s.ready[s.prio[s.current]] == [] && s.index.group != {} ==> s.prio[s.current] < Best(s)
  {
    hide Find;
    var p := s.prio[s.current];
    if s.ready[p] != [] {
      var t := s.ready[p][0];
      assert Tidy(s.ready[p], |s.stat|) && t in s.ready[p];
      assert Placed(s.ready, s.stat[t], s.prio[t], t);
      ReadyMeansMarked(s, t);
      BestIsReady(s);
    } else if s.index.group != {} {
      BestIsReady(s);
    }
  }

  lemma SwitchQueueOf(s: Up, to: nat)
    requires Inv(s) && Started(s) && to != s.current && to < |s.stat| && s.stat[s.current] == Running
    requires var p := s.prio[s.current]; s.prio[to] == p && s.ready[p] != [] && s.ready[p][0] == to
    ensures var p := s.prio[s.current];
      SwitchTo(s, to).ready ==
        if s.yielded[s.current] then s.ready[p := s.ready[p][1..] + [s.current]]
        else s.ready[p := Remove([s.current] + s.ready[p], to)]
  {
    hide Queues, Mark, Unmark;
    var q := s.ready[s.prio[s.current]];
    assert (q + [s.current])[1..] == q[1..] + [s.current];
  }

  /** The end of a slice passes the turn on by one place, nobody losing or gaining one, and gives the slice back in full. */
  lemma ExpiryRotates(s: Up, ticks: nat)
    requires Inv(s) && Started(s) && s.nest == 0 && RunsTheBest(s) && s.remaining[s.current] <= ticks
    ensures var r := UpSpec.Tick(s, ticks);
      && Inv(r) && Started(r) && RunsTheBest(r) && r.nest == 0 && r.prio == s.prio && r.slice == s.slice
      && Circle(r) == Circle(s)[1..] + [Circle(s)[0]]
      && r.remaining == s.remaining[s.current := s.slice[s.current]]
  {
    hide Find, Queues, Best, SwitchTo;
    var cur := s.current;
    var y := UpSpec.Yield(Elapse(s, ticks));
    assert y.remaining == s.remaining[cur := s.slice[cur]];
    ScheduleRunsTheBest(y);
    BestOfEquals(y);
    if s.ready[s.prio[cur]] == [] {
      if y.index.group != {} {
        DelistUnlisted(y, cur);
      }
    } else {
      BestIsReady(y);
      var to := y.ready[Best(y)][0];
      SwitchQueues(y, to);
      SwitchQueueOf(y, to);
    }
  }

  /** `k` slices used up one after the other. */
  function Expiries(s: Up, k: nat): (r: Up)
    requires Inv(s) && Started(s) && s.nest == 0 && RunsTheBest(s)
    ensures Inv(r) && Started(r) && r.nest == 0 && RunsTheBest(r)
  {
    if k == 0 then s
    else
      var a := Expiries(s, k - 1);
      ExpiryRotates(a, a.remaining[a.current]);
      UpSpec.Tick(a, a.remaining[a.current])
  }

  lemma RotateOnce<T>(q: seq<T>, x: seq<T>, k: nat)
    requires 0 < k <= |q| && x == q[k - 1..] + q[..k - 1]
    ensures x[1..] + [x[0]] == q[k..] + q[..k]
  {
    assert q[k - 1..] == [q[k - 1]] + q[k..];
    assert q[..k - 1] + [q[k - 1]] == q[..k];
  }

  /** Round robin: each of the equals has the CPU for one slice, in turn, and then the turn starts over. */
  lemma {:induction false} RoundRobin(s: Up, k: nat)
    requires Inv(s) && Started(s) && s.nest == 0 && RunsTheBest(s) && k <= |Circle(s)|
    ensures Circle(Expiries(s, k)) == Circle(s)[k..] + Circle(s)[..k]
    decreases k
  {
    hide Queues, RunsTheBest, UpSpec.Tick, UpSpec.Schedule;
    var q := Circle(s);
    if k > 0 {
      RoundRobin(s, k - 1);
      var a := Expiries(s, k - 1);
      ExpiryRotates(a, a.remaining[a.current]);
      RotateOnce(q, Circle(a), k);
    }
  }

  // ----- preemption -----

  /** Thread `t` sleeps and is better than the running one. */
  ghost predicate Wakes(s: Up, t: nat)
    requires Shape(s) && Started(s)
  {
    t < |s.stat| && t != s.current && t != s.idle && s.stat[t] == Suspended && s.prio[t] < s.prio[s.current]
  }

  /** Where the running thread goes when it makes room. */
  function PutBack(s: Up): seq<nat>
    requires Shape(s) && Started(s)
  {
    var q := s.ready[s.prio[s.current]];
    if s.yielded[s.current] then q + [s.current] else [s.current] + q
  }

  lemma PreemptedQueue(s: Up, t: nat)
    requires Inv(s) && Started(s) && s.stat[s.current] == Running && Wakes(s, t)
    ensures Shape(Insert(s, t))
    ensures var q := SwitchTo(Insert(s, t), t).ready; var p := s.prio[s.current];
      |q| == |s.ready| && q[p] == PutBack(s)
  {
    hide Queues, Mark, Unmark, Remove;
    KindKept(s, t);
  }

  /** Resuming a better thread and scheduling hands the CPU to it, the preempted one going back to its queue. */
  lemma Preempted(s: Up, t: nat)
    requires Inv(s) && Started(s) && s.nest == 0 && RunsTheBest(s) && Wakes(s, t)
    ensures Inv(UpSpec.Resume(s, t)) && UpSpec.Resume(s, t) == Insert(s, t)
    ensures var a := UpSpec.Schedule(UpSpec.Resume(s, t));
      && Inv(a) && a.nest == 0 && HandedOver(Insert(s, t), a, t)
      && a.ready[s.prio[s.current]] == PutBack(s)
  {
    hide Find, Queues, Best, SwitchTo;
    ResumeKeeps(s, t);
    var i := Insert(s, t);
    ReadyMeansMarked(i, t);
    BestIsReady(i);
    ScheduleKeeps(i);
    PreemptedQueue(s, t);
    FirstOfBest(i, t);
    SwitchQueues(i, t);
  }

  lemma FirstOfBest(s: Up, t: nat)
    requires Inv(s) && t < |s.stat| && s.stat[t] == Ready && s.index.group != {}
    requires forall u: nat | u < |s.stat| && s.stat[u] == Ready && u != t :: s.prio[t] < s.prio[u]
    ensures s.ready[Best(s)][0] == t
  {
    hide Queues, Best;
    BestIsReady(s);
  }

  lemma WokenQueue(a: Up, t: nat, to: nat, p: nat)
    requires Inv(a) && t == a.current && t < |a.stat| && p < |a.ready| && to < |a.stat| && to != t
    requires a.stat[t] == Suspended && a.prio[to] == p && a.ready[p] != [] && a.ready[p][0] == to
    ensures SwitchTo(a, to).ready == a.ready[p := a.ready[p][1..]]
  {
    hide Queues, Mark, Unmark;
  }

  /**
   Being preempted does not cost a thread its turn: after the better thread has gone to sleep again the
   same thread runs, with the same equals behind it and the same slice left. Only if its slice was already
   over does the turn pass on.
   */
  lemma TurnKept(s: Up, t: nat)
    requires Inv(s) && Started(s) && s.nest == 0 && RunsTheBest(s) && Wakes(s, t)
    ensures Inv(UpSpec.Resume(s, t)) && Started(UpSpec.Resume(s, t))
    ensures var a := UpSpec.Schedule(UpSpec.Resume(s, t));
      && Inv(a) && a.current == t && t < |a.stat| && Inv(UpSpec.Suspend(a, t)) && Started(UpSpec.Suspend(a, t))
    ensures var b := UpSpec.Schedule(UpSpec.Suspend(UpSpec.Schedule(UpSpec.Resume(s, t)), t));
      && Inv(b) && Started(b) && b.remaining == s.remaining && b.prio == s.prio
      && Circle(b) == if s.yielded[s.current] then Circle(s)[1..] + [Circle(s)[0]] else Circle(s)
  {
    hide Find, Queues, Best, SwitchTo, Delist;
    Preempted(s, t);
    var p := s.prio[s.current];
    var a := UpSpec.Schedule(Insert(s, t));
    SuspendKeeps(a, t);
    DelistUnlisted(a, t);
    var z := UpSpec.Suspend(a, t);
    assert z == a.(stat := a.stat[t := Suspended]);
    assert z.stat[s.current] == Ready;
    ReadyMeansMarked(z, s.current);
    BestIsReady(z);
    var to := z.ready[Best(z)][0];
    assert Best(z) == p;
    SwitchQueues(z, to);
    WokenQueue(z, t, to, p);
    ScheduleKeeps(z);
    assert PutBack(s) == [to] + PutBack(s)[1..];
  }
}
