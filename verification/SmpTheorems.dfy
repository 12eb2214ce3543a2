/** What every step of the multi-core scheduler keeps, and what a schedule step achieves. */
module SmpTheorems {
  import opened Common
  import opened ThreadState
  import opened SmpSpec

  ghost predicate IsIdle(s: Sched, t: nat) {
    t in s.idle
  }

  datatype Op = Startup(t: nat) | Suspend(c: nat, t: nat) | Resume(t: nat) | Bind(t: nat, cpu: nat)
    | SetPriority(t: nat, p: nat) | Yield(c: nat) | Schedule(c: nat)

  /**
   What the source demands of callers: a running thread is suspended only by itself, only a new thread is
   started, and nobody suspends or re-binds an idle thread.
   */
  ghost predicate Enabled(s: Sched, op: Op)
    requires Shape(s)
  {
    match op
    case Startup(t) => t < |s.stat| && s.stat[t] == Initial
    case Suspend(c, t) =>
      c < s.cpus && t < |s.stat| && !IsIdle(s, t) && (s.stat[t] == Running ==> t == s.current[c])
    case Resume(t) => t < |s.stat|
    case Bind(t, _) => t < |s.stat| && !IsIdle(s, t)
    case SetPriority(t, p) => t < |s.stat| && p < s.levels
    case Yield(c) => c < s.cpus
    case Schedule(c) => c < s.cpus
  }

  function Step(s: Sched, op: Op): Sched
    requires Inv(s) && Enabled(s, op)
  {
    match op
    case Startup(t) => SmpSpec.Startup(s, t)
    case Suspend(c, t) => SmpSpec.Suspend(s, c, t)
    case Resume(t) => SmpSpec.Resume(s, t)
    case Bind(t, cpu) => SmpSpec.Bind(s, t, cpu)
    case SetPriority(t, p) => SmpSpec.SetPriority(s, t, p)
    case Yield(c) => SmpSpec.Yield(s, c)
    case Schedule(c) => SmpSpec.Schedule(s, c)
  }

  /** Everything but thread `t`'s own fields and the ready tables. */
  ghost predicate Touches(s: Sched, r: Sched, t: nat) {
    && r.cpus == s.cpus && r.levels == s.levels && r.idle == s.idle && r.current == s.current
    && |r.stat| == |s.stat| == |s.oncpu| == |r.oncpu| == |s.bind| == |r.bind| == |r.prio| == |s.prio|
    && forall u | 0 <= u < |s.stat| && u != t ::
         r.stat[u] == s.stat[u] && r.oncpu[u] == s.oncpu[u] && r.bind[u] == s.bind[u] && r.prio[u] == s.prio[u]
  }

  /** A step that leaves every thread on its CPU only has to keep one thread's status sensible. */
  lemma TouchKeeps(s: Sched, r: Sched, t: nat)
    requires Inv(s) && Queues(r) && t < |s.stat| && Touches(s, r, t)
    requires r.oncpu == s.oncpu && Seated(r, t)
    requires IsIdle(s, t) ==> r.bind[t] == s.bind[t] && r.stat[t] in {Ready, Running}
    ensures Inv(r)
  {
    forall u | 0 <= u < |s.stat| ensures Seated(r, u) {
      assert Seated(s, u);
    }
    forall c | 0 <= c < s.cpus ensures Manned(r, c) {
      assert Manned(s, c);
    }
  }

  lemma IdleRuns(s: Sched, t: nat)
    requires Inv(s) && t < |s.stat|
    ensures IsIdle(s, t) ==> s.stat[t] in {Ready, Running}
  {
    forall c | 0 <= c < s.cpus ensures s.stat[s.idle[c]] in {Ready, Running} {
      assert Manned(s, c);
    }
  }

  lemma InsertQueues(s: Sched, t: nat)
    requires Queues(s) && t < |s.stat|
    ensures Queues(Insert(s, t))
  {
    if s.stat[t] == Ready {
    } else if s.oncpu[t] != s.cpus {
      FrameQueues(s, Insert(s, t), t);
    } else {
      EnlistQueues(s, t);
    }
  }

  /** Taking a ready thread out of its queue, changing where it belongs, and putting it back. */
  lemma RequeueKeeps(s: Sched, t: nat, mid: Sched, stat: Stat)
    requires Inv(s) && t < |s.stat| && s.stat[t] == Ready && stat != Ready
    requires var d := Delist(s, t, stat);
      mid == d.(bind := mid.bind, prio := mid.prio, yielded := mid.yielded) && Shape(mid) && Touches(d, mid, t)
    requires IsIdle(s, t) ==> mid.bind[t] == s.bind[t]
    ensures Inv(Insert(mid, t)) && Insert(mid, t).stat[t] == Ready
  {
    var d := Delist(s, t, stat);
    DelistQueues(s, t, stat);
    FrameQueues(d, mid, t);
    InsertQueues(mid, t);
    assert Seated(s, t);
    TouchKeeps(s, Insert(mid, t), t);
  }

  lemma StartupKeeps(s: Sched, t: nat)
    requires Inv(s) && Enabled(s, Op.Startup(t))
    ensures Inv(SmpSpec.Startup(s, t))
  {
    var r := SmpSpec.Startup(s, t);
    FrameQueues(s, r, t);
    assert Seated(s, t);
    IdleRuns(s, t);
    TouchKeeps(s, r, t);
  }

  lemma SuspendKeeps(s: Sched, c: nat, t: nat)
    requires Inv(s) && Enabled(s, Op.Suspend(c, t))
    ensures Inv(SmpSpec.Suspend(s, c, t))
  {
    var r := SmpSpec.Suspend(s, c, t);
    if r != s {
      DelistQueues(s, t, Suspended);
      SameQueues(Delist(s, t, Suspended), r);
      assert Seated(s, t);
      TouchKeeps(s, r, t);
    }
  }

  lemma ResumeKeeps(s: Sched, t: nat)
    requires Inv(s) && t < |s.stat|
    ensures Inv(SmpSpec.Resume(s, t))
  {
    var r := SmpSpec.Resume(s, t);
    if s.stat[t] == Suspended {
      InsertQueues(s, t);
      assert Seated(s, t);
      TouchKeeps(s, r, t);
    }
  }

  lemma BindKeeps(s: Sched, t: nat, cpu: nat)
    requires Inv(s) && Enabled(s, Op.Bind(t, cpu))
    ensures Inv(SmpSpec.Bind(s, t, cpu))
  {
    var r := SmpSpec.Bind(s, t, cpu);
    var b := if cpu >= s.cpus then s.cpus else cpu;
    if s.stat[t] == Ready {
      var mid := Delist(s, t, Suspended).(bind := s.bind[t := b], yielded := s.yielded[t := false]);
      RequeueKeeps(s, t, mid, Suspended);
    } else {
      FrameQueues(s, r, t);
      assert Seated(s, t);
      TouchKeeps(s, r, t);
    }
  }

  lemma SetPriorityKeeps(s: Sched, t: nat, p: nat)
    requires Inv(s) && Enabled(s, Op.SetPriority(t, p))
    ensures Inv(SmpSpec.SetPriority(s, t, p))
  {
    var r := SmpSpec.SetPriority(s, t, p);
    if s.stat[t] == Ready {
      var mid := Delist(s, t, Initial).(prio := s.prio[t := p], yielded := s.yielded[t := false]);
      RequeueKeeps(s, t, mid, Initial);
    } else {
      FrameQueues(s, r, t);
      assert Seated(s, t);
      IdleRuns(s, t);
      TouchKeeps(s, r, t);
    }
  }

  lemma YieldKeeps(s: Sched, c: nat)
    requires Inv(s) && c < s.cpus
    ensures Inv(SmpSpec.Yield(s, c))
  {
    var r := SmpSpec.Yield(s, c);
    SameQueues(s, r);
    forall u | 0 <= u < |s.stat| ensures Seated(r, u) {
      assert Seated(s, u);
    }
    forall d | 0 <= d < s.cpus ensures Manned(r, d) {
      assert Manned(s, d);
    }
  }

  // ----- schedule -----

  /** The current thread may go on: it runs, may run here, and is better, or as good with time left. */
  ghost predicate Stays(s: Sched, c: nat, best: nat)
    requires Shape(s) && c < s.cpus
  {
    var cur := s.current[c];
    && s.stat[cur] == Running && (s.bind[cur] == s.cpus || s.bind[cur] == c)
    && (s.prio[cur] < best || (s.prio[cur] == best && !s.yielded[cur]))
  }

  /** After the old thread of CPU `c` has been put away. */
  ghost predicate PutAway(s: Sched, e: Sched, c: nat)
    requires Inv(s) && c < s.cpus
  {
    var cur := s.current[c];
    && Queues(e) && Touches(s, e, cur) && e.oncpu == s.oncpu[cur := s.cpus]
    && e.bind == s.bind && e.prio == s.prio
    && e.stat == s.stat[cur := if s.stat[cur] == Running then Ready else s.stat[cur]]
  }

  function Vacated(s: Sched, c: nat): Sched
    requires Shape(s) && c < s.cpus
  {
    var cur := s.current[c];
    var d := s.(oncpu := s.oncpu[cur := s.cpus]);
    if s.stat[cur] == Running then Insert(d, cur).(yielded := s.yielded[cur := false]) else d
  }

  lemma VacatedPutAway(s: Sched, c: nat)
    requires Inv(s) && c < s.cpus
    ensures PutAway(s, Vacated(s, c), c)
  {
    var cur := s.current[c];
    var d := s.(oncpu := s.oncpu[cur := s.cpus]);
    assert Manned(s, c) && Seated(s, cur);
    SameQueues(s, d);
    if s.stat[cur] == Running {
      EnlistQueues(d, cur);
      SameQueues(Enlist(d, cur), Vacated(s, c));
    }
  }

  /** Who sits where after the switch. */
  ghost predicate Switched(s: Sched, r: Sched, c: nat, to: nat)
    requires Inv(s) && c < s.cpus && to < |s.stat|
  {
    var cur := s.current[c];
    && r.cpus == s.cpus && r.levels == s.levels && r.idle == s.idle && r.current == s.current[c := to]
    && r.bind == s.bind && r.prio == s.prio && Shape(r)
    && r.oncpu == s.oncpu[cur := s.cpus][to := c]
    && r.stat == s.stat[cur := if s.stat[cur] == Running then Ready else s.stat[cur]][to := Running]
  }

  lemma SwitchQueues(s: Sched, c: nat, to: nat)
    requires Inv(s) && c < s.cpus && to < |s.stat| && s.stat[to] == Ready
    ensures Queues(SwitchTo(s, c, to)) && Switched(s, SwitchTo(s, c, to), c, to)
  {
    var e := Vacated(s, c);
    VacatedPutAway(s, c);
    var f := e.(oncpu := e.oncpu[to := c]);
    SameQueues(e, f);
    DelistQueues(f, to, Running);
    SameQueues(Delist(f, to, Running), SwitchTo(s, c, to));
  }

  lemma SwitchKeeps(s: Sched, c: nat, to: nat)
    requires Inv(s) && c < s.cpus && to < |s.stat| && s.stat[to] == Ready && s.bind[to] in {c, s.cpus}
    ensures Inv(SwitchTo(s, c, to))
  {
    hide Lowest, SwitchTo;
    var r := SwitchTo(s, c, to);
    SwitchQueues(s, c, to);
    var cur := s.current[c];
    assert Manned(s, c) && Seated(s, cur) && Seated(s, to);
    forall u | 0 <= u < |s.stat| ensures Seated(r, u) {
      assert Seated(s, u);
    }
    forall d | 0 <= d < s.cpus ensures Manned(r, d) {
      assert Manned(s, d);
      assert Seated(s, s.current[d]);
    }
  }

  /** The best entry of the two tables CPU `c` looks at is a ready thread it may run. */
  lemma HighestIsReady(s: Sched, c: nat)
    requires Inv(s) && c < s.cpus && (s.group[s.cpus] != {} || s.group[c] != {})
    ensures var h := Highest(s, c);
      && h.1 < s.levels && s.ready[h.0][h.1] != []
      && var t := s.ready[h.0][h.1][0];
         t < |s.stat| && s.stat[t] == Ready && s.bind[t] == h.0 && s.prio[t] == h.1
  {
    var (b, p) := Highest(s, c);
    assert Indexed(s, b, p);
    var t := s.ready[b][p][0];
    assert Placed(s, t);
  }

  lemma ScheduleKeeps(s: Sched, c: nat)
    requires Inv(s) && c < s.cpus
    ensures Inv(SmpSpec.Schedule(s, c))
  {
    var r := SmpSpec.Schedule(s, c);
    if s.group[s.cpus] != {} || s.group[c] != {} {
      var (b, p) := Highest(s, c);
      HighestIsReady(s, c);
      if Stays(s, c, p) {
        SameQueues(s, r);
        forall u | 0 <= u < |s.stat| ensures Seated(r, u) {
          assert Seated(s, u);
        }
        forall d | 0 <= d < s.cpus ensures Manned(r, d) {
          assert Manned(s, d);
        }
      } else {
        SwitchKeeps(s, c, s.ready[b][p][0]);
      }
    }
  }

  /** Every step, on any CPU, keeps the scheduler consistent. */
  lemma StepKeeps(s: Sched, op: Op)
    requires Inv(s) && Enabled(s, op)
    ensures Inv(Step(s, op))
  {
    match op
    case Startup(t) => StartupKeeps(s, t);
    case Suspend(c, t) => SuspendKeeps(s, c, t);
    case Resume(t) => ResumeKeeps(s, t);
    case Bind(t, cpu) => BindKeeps(s, t, cpu);
    case SetPriority(t, p) => SetPriorityKeeps(s, t, p);
    case Yield(c) => YieldKeeps(s, c);
    case Schedule(c) => ScheduleKeeps(s, c);
  }

  // ----- the dispatcher -----

  /** `t` waits in a table that CPU `c` looks at. */
  ghost predicate WaitsFor(s: Sched, t: nat, c: nat)
    requires Shape(s) && c < s.cpus
  {
    t < |s.stat| && s.stat[t] == Ready && s.bind[t] in {c, s.cpus}
  }

  lemma WaitingIsListed(s: Sched, t: nat, c: nat)
    requires Inv(s) && c < s.cpus && WaitsFor(s, t, c)
    ensures s.prio[t] in s.group[s.bind[t]]
    ensures Highest(s, c).1 <= s.prio[t]
  {
    assert Placed(s, t);
    var b, p := s.bind[t], s.prio[t];
    assert t in s.ready[b][p];
    assert Indexed(s, b, p);
  }

  lemma NobodyWaits(s: Sched, t: nat, c: nat)
    requires Inv(s) && c < s.cpus && s.group[s.cpus] == {} && s.group[c] == {}
    ensures !WaitsFor(s, t, c)
  {
    if t < |s.stat| {
      assert Placed(s, t);
      assert Indexed(s, s.bind[t], s.prio[t]);
    }
  }

  /** CPU `c` runs a thread that is allowed there and that no waiting thread beats. */
  ghost predicate RunsTheBest(s: Sched, c: nat)
    requires Shape(s) && c < s.cpus
  {
    var cur := s.current[c];
    && s.stat[cur] == Running && s.bind[cur] in {c, s.cpus}
    && forall t: nat | WaitsFor(s, t, c) :: s.prio[cur] <= s.prio[t]
  }

  lemma NothingReady(s: Sched, c: nat)
    requires Inv(s) && c < s.cpus && s.group[s.cpus] == {} && s.group[c] == {}
    ensures RunsTheBest(s, c)
  {
    forall t: nat ensures !WaitsFor(s, t, c) {
      NobodyWaits(s, t, c);
    }
    var i := s.idle[c];
    assert Manned(s, c) && Seated(s, i);
    assert !WaitsFor(s, i, c);
  }

  lemma SwitchRunsTheBest(s: Sched, c: nat, best: nat, to: nat)
    requires Inv(s) && c < s.cpus && WaitsFor(s, to, c) && s.prio[to] == best && !Stays(s, c, best)
    requires forall t: nat | WaitsFor(s, t, c) :: best <= s.prio[t]
    ensures RunsTheBest(SwitchTo(s, c, to), c)
  {
    SwitchQueues(s, c, to);
    var r := SwitchTo(s, c, to);
    forall t: nat | WaitsFor(r, t, c) ensures best <= r.prio[t] {
      if t != s.current[c] {
        assert WaitsFor(s, t, c);
      }
    }
  }

  /**
   A schedule always leaves the CPU with a best thread it is allowed to run, even when the thread it had
   was suspended or re-bound to another CPU.
   */
  lemma ScheduleRunsTheBest(s: Sched, c: nat)
    requires Inv(s) && c < s.cpus
    ensures Inv(SmpSpec.Schedule(s, c)) && RunsTheBest(SmpSpec.Schedule(s, c), c)
  {
    ScheduleKeeps(s, c);
    if s.group[s.cpus] == {} && s.group[c] == {} {
      NothingReady(s, c);
    } else {
      var (b, p) := Highest(s, c);
      HighestIsReady(s, c);
      forall t: nat | WaitsFor(s, t, c) ensures p <= s.prio[t] {
        WaitingIsListed(s, t, c);
      }
      if Stays(s, c, p) {
        var r := SmpSpec.Schedule(s, c);
        forall t: nat | WaitsFor(r, t, c) ensures p <= r.prio[t] {
          assert WaitsFor(s, t, c);
        }
      } else {
        SwitchRunsTheBest(s, c, p, s.ready[b][p][0]);
      }
    }
  }

  /** What a schedule amounts to once the best waiting thread `to` is known. */
  lemma ScheduleCases(s: Sched, c: nat, to: nat, best: nat)
    requires Inv(s) && c < s.cpus && (s.group[s.cpus] != {} || s.group[c] != {})
    requires var h := Highest(s, c); best == h.1 && h.1 < s.levels && s.ready[h.0][h.1] != [] && to == s.ready[h.0][h.1][0]
    ensures var cur := s.current[c];
      && to != cur && to < |s.stat| && s.stat[cur] != Ready && Shape(Vacated(s, c)) && |s.oncpu| == |s.stat|
      && s.oncpu[cur := s.cpus][cur := c] == s.oncpu
      && SmpSpec.Schedule(s, c) ==
           if Stays(s, c, best) then s.(yielded := s.yielded[cur := false])
           else
             var v := Vacated(s, c);
             Delist(v.(oncpu := v.oncpu[to := c]), to, Running).(current := s.current[c := to])
  {
    HighestIsReady(s, c);
    VacatedPutAway(s, c);
    assert Manned(s, c) && Seated(s, s.current[c]) && Seated(s, to);
  }

  /** A schedule on one CPU leaves the other CPUs' current threads alone. */
  lemma ScheduleCurrent(s: Sched, c: nat)
    requires Inv(s) && c < s.cpus
    ensures var r := SmpSpec.Schedule(s, c); |r.current| == s.cpus && r.current == s.current[c := r.current[c]]
  {
    if s.group[s.cpus] != {} || s.group[c] != {} {
      HighestIsReady(s, c);
    }
  }

  // ----- runs -----

  /**
   `trace` starts consistent, and each state comes from the one before by one step of `ops`: any
   interleaving of steps on any CPUs that the source allows.
   */
  ghost predicate Run(trace: seq<Sched>, ops: seq<Op>) {
    && |trace| == |ops| + 1 && Inv(trace[0])
    && forall i | 0 <= i < |ops| :: Follows(trace[i], ops[i], trace[i + 1])
  }

  ghost predicate Follows(s: Sched, op: Op, r: Sched) {
    Inv(s) ==> Enabled(s, op) && r == Step(s, op)
  }

  /** Safety over all interleavings. */
  lemma {:induction false} RunSafe(trace: seq<Sched>, ops: seq<Op>, k: nat)
    requires Run(trace, ops) && k <= |ops|
    ensures Inv(trace[k])
    decreases k
  {
    if k > 0 {
      RunSafe(trace, ops, k - 1);
      assert Follows(trace[k - 1], ops[k - 1], trace[k]);
      StepKeeps(trace[k - 1], ops[k - 1]);
    }
  }

  /** Thread `t` is in no ready queue at all. */
  ghost predicate Unqueued(s: Sched, t: nat)
    requires Shape(s)
  {
    forall b, p | 0 <= b <= s.cpus && 0 <= p < s.levels :: t !in s.ready[b][p]
  }

  lemma OnCpuUnqueued(s: Sched, t: nat)
    requires Inv(s) && t < |s.stat| && s.oncpu[t] != s.cpus
    ensures Unqueued(s, t)
  {
    assert Seated(s, t) && Placed(s, t);
  }

  /** A step taken while CPU `c` does not schedule leaves its thread there. */
  lemma StaysOnCpu(s: Sched, op: Op, c: nat)
    requires Inv(s) && Enabled(s, op) && c < s.cpus && op != Op.Schedule(c)
    ensures var r := Step(s, op);
      r.cpus == s.cpus && |r.current| == |s.current| && r.current[c] == s.current[c] && |r.stat| == |s.stat|
  {
    hide Seated, Manned, SmpSpec.Schedule, Lowest, Remove;
    if op.Schedule? {
      assert op.c != c;
      ScheduleCurrent(s, op.c);
      ScheduleSizes(s, op.c);
    }
  }

  lemma ScheduleSizes(s: Sched, c: nat)
    requires Inv(s) && c < s.cpus
    ensures var r := SmpSpec.Schedule(s, c); r.cpus == s.cpus && |r.stat| == |s.stat|
  {
    if s.group[s.cpus] != {} || s.group[c] != {} {
      HighestIsReady(s, c);
    }
  }

  lemma ResumedOnCpu(s: Sched, t: nat)
    requires Inv(s) && t < |s.stat| && s.oncpu[t] != s.cpus && s.stat[t] == Suspended
    ensures SmpSpec.Resume(s, t).stat == s.stat[t := Running]
  {
  }

  /**
   The suspend/resume race: a thread that suspends itself and is resumed before its CPU has scheduled it
   away never enters a ready queue, whatever the other CPUs do meanwhile, and is simply running again.
   */
  lemma {:induction false} ResumedBeforeLeaving(trace: seq<Sched>, ops: seq<Op>, c: nat, k: nat)
    requires Run(trace, ops) && c < trace[0].cpus && k <= |ops|
    requires forall i | 0 <= i < k :: ops[i] != Op.Schedule(c)
    ensures Inv(trace[k]) && trace[k].cpus == trace[0].cpus && |trace[k].stat| == |trace[0].stat|
    ensures k > 0 ==> |trace[k - 1].stat| == |trace[0].stat|
    ensures var t := trace[0].current[c];
      trace[k].current[c] == t && trace[k].oncpu[t] == c && Unqueued(trace[k], t)
    ensures var t := trace[0].current[c];
      k > 0 && ops[k - 1] == Op.Resume(t) && trace[k - 1].stat[t] == Suspended ==> trace[k].stat[t] == Running
    decreases k
  {
    hide Placed, Indexed, Seated, Unqueued, Enabled, SmpSpec.Resume;
    if k > 0 {
      ResumedBeforeLeaving(trace, ops, c, k - 1);
      assert Follows(trace[k - 1], ops[k - 1], trace[k]);
      StepKeeps(trace[k - 1], ops[k - 1]);
      StaysOnCpu(trace[k - 1], ops[k - 1], c);
      var t := trace[0].current[c];
      if ops[k - 1] == Op.Resume(t) && trace[k - 1].stat[t] == Suspended {
        ResumedOnCpu(trace[k - 1], t);
      }
    }
    var t := trace[0].current[c];
    assert Manned(trace[k], c);
    OnCpuUnqueued(trace[k], t);
  }

  /** One seat each: two CPUs never have the same current thread, and no thread is in two queues. */
  lemma OneSeatEach(s: Sched, c: nat, d: nat, t: nat)
    requires Inv(s) && c < s.cpus && d < s.cpus && t < |s.stat|
    ensures s.current[c] == s.current[d] ==> c == d
    ensures forall b, p, b', p' | 0 <= b <= s.cpus && 0 <= p < s.levels && 0 <= b' <= s.cpus && 0 <= p' < s.levels
      && t in s.ready[b][p] && t in s.ready[b'][p'] :: b == b' && p == p'
    ensures s.stat[t] == Running <==> t in s.current && s.stat[t] != Suspended && s.stat[t] != Initial
  {
    assert Manned(s, c) && Manned(s, d) && Placed(s, t) && Seated(s, t);
    forall e | 0 <= e < s.cpus ensures s.oncpu[s.current[e]] == e {
      assert Manned(s, e);
    }
  }

  // ----- time slices -----

  /** The end of a time slice on CPU `c`: yield, then schedule. */
  function Slice(s: Sched, c: nat): Sched
    requires Inv(s) && c < s.cpus
  {
    YieldKeeps(s, c);
    SmpSpec.Schedule(SmpSpec.Yield(s, c), c)
  }

  /** The running thread followed by its waiting equals. */
  function Circle(s: Sched, c: nat): seq<nat>
    requires Shape(s) && c < s.cpus
  {
    var cur := s.current[c];
    [cur] + s.ready[s.bind[cur]][s.prio[cur]]
  }

  /** CPU `c` runs a best thread, and all that are as good wait in that thread's own table. */
  ghost predicate Sharing(s: Sched, c: nat)
    requires Shape(s) && c < s.cpus
  {
    && RunsTheBest(s, c)
    && forall t: nat | WaitsFor(s, t, c) && s.prio[t] == s.prio[s.current[c]] :: s.bind[t] == s.bind[s.current[c]]
  }

  /** What `Highest` finds when the best waiting thread is of priority `p` in table `b`. */
  lemma HighestOf(s: Sched, c: nat, b: nat, p: nat)
    requires Inv(s) && c < s.cpus && b in {c, s.cpus} && p < s.levels && s.ready[b][p] != []
    requires forall t: nat | WaitsFor(s, t, c) :: p < s.prio[t] || (p == s.prio[t] && s.bind[t] == b)
    ensures Highest(s, c) == (b, p)
  {
    assert Indexed(s, b, p);
    HighestIsReady(s, c);
    var h := Highest(s, c);
    assert WaitsFor(s, s.ready[h.0][h.1][0], c);
  }

  lemma SliceRotates(s: Sched, c: nat)
    requires Inv(s) && c < s.cpus && Sharing(s, c)
    ensures var r := Slice(s, c);
      && Inv(r) && r.cpus == s.cpus && Sharing(r, c)
      && Circle(r, c) == Circle(s, c)[1..] + [Circle(s, c)[0]]
  {
    var cur := s.current[c];
    var b, p := s.bind[cur], s.prio[cur];
    var y := SmpSpec.Yield(s, c);
    YieldKeeps(s, c);
    ScheduleRunsTheBest(y, c);
    forall t: nat ensures WaitsFor(y, t, c) == WaitsFor(s, t, c) {
    }
    if s.ready[b][p] == [] {
      AloneStays(y, c);
    } else {
      HighestOf(y, c, b, p);
      SwitchRotates(y, c);
    }
  }

  lemma AloneStays(s: Sched, c: nat)
    requires Inv(s) && c < s.cpus && Sharing(s, c) && Circle(s, c) == [s.current[c]]
    ensures var r := SmpSpec.Schedule(s, c);
      r == s || r == s.(yielded := s.yielded[s.current[c] := false])
    ensures Shape(SmpSpec.Schedule(s, c)) && Sharing(SmpSpec.Schedule(s, c), c)
  {
    if s.group[s.cpus] != {} || s.group[c] != {} {
      HighestIsReady(s, c);
      var h := Highest(s, c);
      var t := s.ready[h.0][h.1][0];
      assert WaitsFor(s, t, c);
      assert Placed(s, t);
    }
    var r := SmpSpec.Schedule(s, c);
    forall t: nat ensures WaitsFor(r, t, c) == WaitsFor(s, t, c) {
    }
  }

  lemma SwitchQueueRotates(s: Sched, c: nat, b: nat, p: nat)
    requires Inv(s) && c < s.cpus && b in {c, s.cpus} && p < s.levels
    requires s.ready[b][p] != [] && s.ready[b][p][0] < |s.stat|
    requires var cur := s.current[c]; s.yielded[cur] && s.stat[cur] == Running && s.bind[cur] == b && s.prio[cur] == p
    requires var to := s.ready[b][p][0]; s.stat[to] == Ready && s.bind[to] == b && s.prio[to] == p
    ensures SwitchTo(s, c, s.ready[b][p][0]).ready == s.ready[b := s.ready[b][p := s.ready[b][p][1..] + [s.current[c]]]]
  {
    hide Lowest, PutAway;
    var cur := s.current[c];
    var q := s.ready[b][p];
    assert Manned(s, c) && Seated(s, cur);
    VacatedPutAway(s, c);
    var v := Vacated(s, c).ready;
    assert v == s.ready[b := s.ready[b][p := q + [cur]]];
    assert Remove(q + [cur], q[0]) == (q + [cur])[1..] == q[1..] + [cur];
    assert SwitchTo(s, c, q[0]).ready == v[b := v[b][p := Remove(v[b][p], q[0])]];
    assert v[b][p := q[1..] + [cur]] == s.ready[b][p := q[1..] + [cur]];
  }

  lemma SwitchSharing(s: Sched, c: nat, to: nat)
    requires Inv(s) && c < s.cpus && Sharing(s, c) && WaitsFor(s, to, c)
    requires s.prio[to] == s.prio[s.current[c]]
    ensures Shape(SwitchTo(s, c, to)) && Sharing(SwitchTo(s, c, to), c)
  {
    var cur := s.current[c];
    var r := SwitchTo(s, c, to);
    SwitchQueues(s, c, to);
    assert s.bind[to] == s.bind[cur];
    forall t: nat | WaitsFor(r, t, c)
      ensures s.prio[to] <= r.prio[t] && (s.prio[to] == r.prio[t] ==> r.bind[t] == s.bind[to])
    {
      assert t == cur || WaitsFor(s, t, c);
    }
  }

  lemma SwitchRotates(s: Sched, c: nat)
    requires Inv(s) && c < s.cpus && Sharing(s, c)
    requires var cur := s.current[c]; var b, p := s.bind[cur], s.prio[cur];
      s.yielded[cur] && s.ready[b][p] != [] && Highest(s, c) == (b, p)
    ensures var r := SmpSpec.Schedule(s, c);
      && Shape(r) && Sharing(r, c)
      && Circle(r, c) == Circle(s, c)[1..] + [Circle(s, c)[0]]
  {
    hide Highest, SwitchTo;
    var cur := s.current[c];
    var b, p := s.bind[cur], s.prio[cur];
    assert Indexed(s, b, p);
    var to := s.ready[b][p][0];
    HighestIsReady(s, c);
    SwitchQueueRotates(s, c, b, p);
    SwitchSharing(s, c, to);
    SwitchQueues(s, c, to);
    assert SmpSpec.Schedule(s, c) == SwitchTo(s, c, to);
  }

  function Slices(s: Sched, c: nat, k: nat): Sched
    requires Inv(s) && c < s.cpus && Sharing(s, c)
    ensures Inv(Slices(s, c, k)) && Slices(s, c, k).cpus == s.cpus && Sharing(Slices(s, c, k), c)
  {
    if k == 0 then s
    else
      SliceRotates(Slices(s, c, k - 1), c);
      Slice(Slices(s, c, k - 1), c)
  }

  lemma RotateOnce<T>(q: seq<T>, x: seq<T>, k: nat)
    requires 0 < k <= |q| && x == q[k - 1..] + q[..k - 1]
    ensures x[1..] + [x[0]] == q[k..] + q[..k]
  {
    assert q[k - 1..] == [q[k - 1]] + q[k..];
    assert q[..k - 1] + [q[k - 1]] == q[..k];
  }

  /** Round robin: each of the equals sharing a CPU has it for one slice, in turn, and then the turn starts over. */
  lemma {:induction false} RoundRobin(s: Sched, c: nat, k: nat)
    requires Inv(s) && c < s.cpus && Sharing(s, c) && k <= |Circle(s, c)|
    ensures Circle(Slices(s, c, k), c) == Circle(s, c)[k..] + Circle(s, c)[..k]
    decreases k
  {
    var q := Circle(s, c);
    if k > 0 {
      RoundRobin(s, c, k - 1);
      SliceRotates(Slices(s, c, k - 1), c);
      RotateOnce(q, Circle(Slices(s, c, k - 1), c), k);
      assert Slices(s, c, k) == Slice(Slices(s, c, k - 1), c);
    }
  }
}
