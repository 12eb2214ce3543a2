/** Whole runs of the timer code: operations between ticks, ticks that pass, and an expiry pass after each. */
module TimerRuns {
  import opened Common
  import opened TimerSpec
  import opened TimerTheorems

  /** An operation from outside, or `d` ticks and then a pass in which timer `t`'s function does `calls[t]`. */
  datatype Event = Operate(c: Command) | Elapse(d: Tick, calls: seq<seq<Command>>)

  /** The rows are in order in the window that starts now, and nothing linked is due. */
  ghost predicate Settled(w: Wheel) {
    Ready(w, w.tick) && ExpiredOf(w) == []
  }

  function Ticked(w: Wheel, d: Tick): Wheel {
    w.(tick := Plus(w.tick, d))
  }

  /** Where the window of a pass starts: at the first timeout if that is due, else now. */
  function WindowStart(w: Wheel): Tick
    requires Shape(w)
  {
    if Bottom(w) == [] then w.tick
    else
      assert InRange(Bottom(w), |w.timeout|);
      if Due(w, Bottom(w)[0]) then w.timeout[Bottom(w)[0]] else w.tick
  }

  /**
   Periods are positive and below half the range. By as much as a pass is late for the first timer, the
   periods in use must be shorter.
   */
  ghost predicate Legal(w: Wheel, e: Event)
    requires Settled(w)
  {
    match e
    case Operate(c) => c.u < |w.timeout| && (c.SetTime? ==> 1 <= c.time < HALF)
    case Elapse(d, calls) =>
      var v := Ticked(w, d);
      d < HALF && Paced(v, WindowStart(v)) && AllTame(calls, v, WindowStart(v))
  }

  /** The wheel after an event, and the timers that ran in it. */
  function Step(w: Wheel, e: Event): (r: (Wheel, seq<nat>))
    requires Settled(w) && Legal(w, e)
  {
    match e
    case Operate(c) => (Do(w, c), [])
    case Elapse(d, calls) =>
      TickReady(w, d);
      Pass(Ticked(w, d), calls, WindowStart(Ticked(w, d)))
  }

  // ----- moving the window -----

  lemma RebaseRow(row: seq<nat>, timeout: seq<Tick>, base: Tick, to: Tick)
    requires InRange(row, |timeout|) && Sorted(row, timeout, base)
    requires forall i | 0 <= i < |row| :: Key(base, to) <= Key(base, timeout[row[i]])
    ensures Sorted(row, timeout, to)
  {
    forall i, j | 0 <= i < j < |row| ensures Ordered(timeout, to, row[i], row[j]) {
      assert Ordered(timeout, base, row[i], row[j]);
    }
  }

  /** The window may start anywhere up to the earliest timeout. */
  lemma Rebase(w: Wheel, base: Tick, to: Tick)
    requires Inv(w, base)
    requires forall t | t in Bottom(w) :: t < |w.timeout| && Key(base, to) <= Key(base, w.timeout[t])
    ensures Inv(w, to)
  {
    hide Sorted, Stacked;
    forall r | 0 <= r < |w.rows| ensures Sorted(w.rows[r], w.timeout, to) {
      var row := w.rows[r];
      forall i | 0 <= i < |row| ensures Key(base, to) <= Key(base, w.timeout[row[i]]) {
        LinkedAtBottom(w, base, r, row[i]);
      }
      RebaseRow(row, w.timeout, base, to);
    }
  }

  /** After `d` ticks exactly the timers are due whose timeouts lie within those ticks. */
  lemma DueExactly(w: Wheel, d: Tick, t: nat)
    requires Settled(w) && d < HALF && t in Bottom(w)
    ensures t < |w.timeout| && (Due(Ticked(w, d), t) <==> Key(w.tick, w.timeout[t]) <= d)
  {
    var i :| 0 <= i < |Bottom(w)| && Bottom(w)[i] == t;
    assert Sorted(Bottom(w), w.timeout, w.tick);
  }

  /** In order: all timeouts from the first one on, or from now on if that one is in the future. */
  lemma StartIsFirst(w: Wheel, d: Tick, t: nat)
    requires Settled(w) && d < HALF && t in Bottom(w)
    ensures t < |w.timeout| && Key(w.tick, WindowStart(Ticked(w, d))) <= Key(w.tick, w.timeout[t])
    ensures Key(WindowStart(Ticked(w, d)), Plus(w.tick, d)) <= d
  {
    var row := Bottom(w);
    assert Sorted(row, w.timeout, w.tick);
    var i :| 0 <= i < |row| && row[i] == t;
    DueExactly(w, d, row[0]);
    DueExactly(w, d, t);
    if i > 0 {
      assert Ordered(w.timeout, w.tick, row[0], row[i]);
    }
  }

  /** Whatever number of ticks has passed, the rows are in order in the window that starts at the first timeout. */
  lemma TickReady(w: Wheel, d: Tick)
    requires Settled(w) && d < HALF && Paced(Ticked(w, d), WindowStart(Ticked(w, d)))
    ensures Ready(Ticked(w, d), WindowStart(Ticked(w, d)))
  {
    hide Due, InOrder, Paced;
    var v := Ticked(w, d);
    forall t | t in Bottom(w) ensures t < |w.timeout| && Key(w.tick, WindowStart(v)) <= Key(w.tick, w.timeout[t]) {
      StartIsFirst(w, d, t);
    }
    Rebase(w, w.tick, WindowStart(v));
    SameRows(w, v, WindowStart(v));
    if Bottom(w) != [] {
      StartIsFirst(w, d, Bottom(w)[0]);
    }
  }

  lemma {:induction false} PassTick(w: Wheel, calls: seq<seq<Command>>, base: Tick)
    requires Ready(w, base) && AllTame(calls, w, base)
    ensures var r := Pass(w, calls, base).0; r.tick == w.tick && |r.timeout| == |w.timeout|
    decreases |ExpiredOf(w)|
  {
    hide InOrder, Paced;
    HeadDecides(w, base);
    if Bottom(w) != [] && Due(w, Bottom(w)[0]) {
      var t := Bottom(w)[0];
      ExpireStep(w, t, calls[t], base);
      PassTick(Expire(w, t, calls[t]), calls, base);
    }
  }

  /** With nothing due, the window may start now. */
  lemma SettleNow(w: Wheel, base: Tick)
    requires Ready(w, base) && forall t | t in Bottom(w) :: t < |w.timeout| && !Due(w, t)
    ensures Settled(w)
  {
    hide InOrder;
    forall t | t in Bottom(w) ensures t < |w.timeout| && Key(base, w.tick) <= Key(base, w.timeout[t]) {
      InWindowNow(w, base, t);
    }
    Rebase(w, base, w.tick);
    NoneExpired(w, Bottom(w));
  }

  lemma InWindowNow(w: Wheel, base: Tick, t: nat)
    requires Ready(w, base) && t in Bottom(w) && t < |w.timeout| && !Due(w, t)
    ensures Key(base, w.tick) <= Key(base, w.timeout[t])
  {
    assert Sorted(Bottom(w), w.timeout, base);
    var i :| 0 <= i < |Bottom(w)| && Bottom(w)[i] == t;
  }

  // ----- runs -----

  lemma StepSettled(w: Wheel, e: Event)
    requires Settled(w) && Legal(w, e)
    ensures Settled(Step(w, e).0) && |Step(w, e).0.timeout| == |w.timeout|
  {
    hide Due, Paced, InOrder;
    match e
    case Operate(c) => OperateSettled(w, c);
    case Elapse(d, calls) =>
      var v := Ticked(w, d);
      TickReady(w, d);
      PassRuns(v, calls, WindowStart(v));
      PassTick(v, calls, WindowStart(v));
      SettleNow(Pass(v, calls, WindowStart(v)).0, WindowStart(v));
  }

  lemma OperateSettled(w: Wheel, c: Command)
    requires Settled(w) && c.u < |w.timeout| && (c.SetTime? ==> 1 <= c.time < HALF)
    ensures Settled(Do(w, c)) && Do(w, c).tick == w.tick
  {
    hide Ready, Do;
    assert Key(w.tick, w.tick) == 0;
    DoExpired(w, c, w.tick);
  }

  ghost predicate LegalRun(w: Wheel, es: seq<Event>)
    requires Settled(w)
    decreases |es|
  {
    es == [] || (Legal(w, es[0]) && (StepSettled(w, es[0]); LegalRun(Step(w, es[0]).0, es[1..])))
  }

  function Run(w: Wheel, es: seq<Event>): (r: Wheel)
    requires Settled(w) && LegalRun(w, es)
    decreases |es|
  {
    if es == [] then w
    else
      StepSettled(w, es[0]);
      Run(Step(w, es[0]).0, es[1..])
  }

  /**
   However operations, ticks and passes follow each other, after every pass the rows are in order in the window
   that starts at the present tick, and nothing that is linked is due: the window moves with the clock.
   */
  lemma {:induction false} RunSettled(w: Wheel, es: seq<Event>)
    requires Settled(w) && LegalRun(w, es)
    ensures Settled(Run(w, es)) && |Run(w, es).timeout| == |w.timeout|
    decreases |es|
  {
    hide Settled, Legal, Step;
    if es == [] {
    } else {
      StepSettled(w, es[0]);
      RunSettled(Step(w, es[0]).0, es[1..]);
    }
  }

  // ----- every timer on time -----

  function Elapsed(es: seq<Event>): nat {
    if es == [] then 0 else (if es[0].Elapse? then es[0].d else 0) + Elapsed(es[1..])
  }

  /** How many ticks are left until timer `t` is due. */
  function Remaining(w: Wheel, t: nat): nat
    requires t < |w.timeout|
  {
    Key(w.tick, w.timeout[t])
  }

  /** None of the functions that run touches timer `t`. */
  ghost predicate Spared(fired: seq<nat>, calls: seq<seq<Command>>, t: nat) {
    forall v | v in fired && v < |calls| :: !TouchesAny(calls[v], t)
  }

  /** Neither the operation nor a function that runs in the pass touches timer `t`. */
  ghost predicate Leaves(w: Wheel, e: Event, t: nat)
    requires Settled(w) && Legal(w, e)
  {
    match e
    case Operate(c) => !Touches(c, t)
    case Elapse(_, calls) => Spared(Step(w, e).1, calls, t)
  }

  ghost predicate LeavesAll(w: Wheel, es: seq<Event>, t: nat)
    requires Settled(w) && LegalRun(w, es)
    decreases |es|
  {
    es == [] || (Leaves(w, es[0], t) && (StepSettled(w, es[0]); LeavesAll(Step(w, es[0]).0, es[1..], t)))
  }

  /** Timer `t` is linked in both, with the same timeout. */
  ghost predicate SamePlace(w: Wheel, v: Wheel, t: nat)
    requires Shape(w) && Shape(v)
  {
    && t < |w.timeout| == |v.timeout| && v.tick == w.tick
    && t in Bottom(w) && t in Bottom(v) && v.timeout[t] == w.timeout[t]
  }

  lemma {:induction false} RemoveOther(row: seq<nat>, t: nat, u: nat)
    requires t in row && t != u
    ensures t in Remove(row, u)
  {
    if row[0] != u && row[0] != t {
      RemoveOther(row[1..], t, u);
    }
  }

  lemma UnlinkSpares(w: Wheel, u: nat, t: nat)
    requires Shape(w) && t < |w.timeout| && t in Bottom(w) && t != u
    ensures Shape(Unlink(w, u)) && SamePlace(w, Unlink(w, u), t)
  {
    UnlinkShape(w, u);
    RemoveOther(Bottom(w), t, u);
  }

  lemma StartSpares(w: Wheel, u: nat, t: nat)
    requires Shape(w) && t < |w.timeout| && u < |w.timeout| && t in Bottom(w) && t != u
    ensures SamePlace(w, StartTimer(w, u), t)
  {
    hide Link, Height;
    StartBottom(w, u);
    RemoveOther(Bottom(w), t, u);
    ScanMembers(Remove(Bottom(w), u), StartTimer(w, u).timeout, u);
  }

  lemma DoSpares(w: Wheel, c: Command, t: nat)
    requires Shape(w) && t < |w.timeout| && c.u < |w.timeout| && t in Bottom(w) && !Touches(c, t)
    ensures SamePlace(w, Do(w, c), t)
  {
    hide StartTimer, NoDup;
    match c
    case Start(u) => StartSpares(w, u, t);
    case Stop(u) => StopSpares(w, u, t);
    case SetTime(u, time) => StopSpares(w, u, t);
    case SetOneShot(u) =>
    case SetPeriodic(u) =>
  }

  lemma StopSpares(w: Wheel, u: nat, t: nat)
    requires Shape(w) && t < |w.timeout| && u < |w.timeout| && t in Bottom(w) && t != u
    ensures SamePlace(w, StopTimer(w, u), t)
  {
    UnlinkSpares(w, u, t);
  }

  lemma {:induction false} DoAllSpares(w: Wheel, cs: seq<Command>, t: nat)
    requires Shape(w) && t < |w.timeout| && Callable(cs, |w.timeout|) && t in Bottom(w) && !TouchesAny(cs, t)
    ensures SamePlace(w, DoAll(w, cs), t)
    decreases |cs|
  {
    hide Do, TouchesAny;
    if cs == [] {
    } else {
      TouchesStep(cs, t);
      DoSpares(w, cs[0], t);
      DoAllSpares(Do(w, cs[0]), cs[1..], t);
    }
  }

  lemma RearmSpares(w: Wheel, u: nat, t: nat)
    requires Shape(w) && t < |w.timeout| && u < |w.timeout| && t in Bottom(w) && t != u
    ensures SamePlace(w, Rearm(w, u), t)
  {
    hide StartTimer;
    if w.firing.Some? {
      StartSpares(w.(firing := None), u, t);
    }
  }

  lemma ExpireSpares(w: Wheel, u: nat, cs: seq<Command>, t: nat)
    requires Shape(w) && t < |w.timeout| && u < |w.timeout| && t in Bottom(w) && t != u
    requires Callable(cs, |w.timeout|) && !TouchesAny(cs, t)
    ensures SamePlace(w, Expire(w, u, cs), t)
  {
    hide DoAll, TouchesAny, Rearm;
    UnlinkSpares(w, u, t);
    DoAllSpares(Fire(w, u), cs, t);
    RearmSpares(DoAll(Fire(w, u), cs), u, t);
  }

  lemma {:induction false} PassSpares(w: Wheel, calls: seq<seq<Command>>, base: Tick, t: nat)
    requires Ready(w, base) && AllTame(calls, w, base) && t < |w.timeout| && t in Bottom(w) && !Due(w, t)
    requires Spared(Pass(w, calls, base).1, calls, t)
    ensures Shape(Pass(w, calls, base).0) && SamePlace(w, Pass(w, calls, base).0, t)
    decreases |ExpiredOf(w)|
  {
    hide Expire, TouchesAny;
    HeadDecides(w, base);
    if Due(w, Bottom(w)[0]) {
      var u := Bottom(w)[0];
      ExpireStep(w, u, calls[u], base);
      var rest := Pass(Expire(w, u, calls[u]), calls, base);
      assert Pass(w, calls, base).1 == [u] + rest.1;
      assert u in [u] + rest.1 && forall v | v in rest.1 :: v in [u] + rest.1;
      ExpireSpares(w, u, calls[u], t);
      PassSpares(Expire(w, u, calls[u]), calls, base, t);
    }
  }

  /** An event that leaves timer `t` alone brings it nearer by the ticks that pass, and no further. */
  lemma Waits(w: Wheel, e: Event, t: nat)
    requires Settled(w) && Legal(w, e) && t < |w.timeout| && t in Bottom(w) && Leaves(w, e, t)
    requires Elapsed([e]) < Remaining(w, t)
    ensures var r := Step(w, e).0;
      Shape(r) && t < |r.timeout| && t in Bottom(r) && Remaining(r, t) == Remaining(w, t) - Elapsed([e])
  {
    match e
    case Operate(c) =>
      SettledShape(w);
      DoSpares(w, c, t);
    case Elapse(d, calls) => WaitsInPass(w, d, calls, t);
  }

  lemma WaitsInPass(w: Wheel, d: Tick, calls: seq<seq<Command>>, t: nat)
    requires Settled(w) && Legal(w, Elapse(d, calls)) && t < |w.timeout| && t in Bottom(w)
    requires Leaves(w, Elapse(d, calls), t) && d < Remaining(w, t)
    ensures var r := Step(w, Elapse(d, calls)).0;
      Shape(r) && t < |r.timeout| && t in Bottom(r) && Remaining(r, t) == Remaining(w, t) - d
  {
    hide Due, Paced;
    var v := Ticked(w, d);
    TickReady(w, d);
    DueExactly(w, d, t);
    PassSpares(v, calls, WindowStart(v), t);
    Nearer(w, d, t);
  }

  lemma Nearer(w: Wheel, d: Tick, t: nat)
    requires t < |w.timeout| && d < Remaining(w, t) < HALF
    ensures Remaining(Ticked(w, d), t) == Remaining(w, t) - d
  {
  }

  /** As long as fewer ticks pass than a timer has left, it stays linked and comes nearer by just those ticks. */
  lemma {:induction false} StillWaiting(w: Wheel, es: seq<Event>, t: nat)
    requires Settled(w) && LegalRun(w, es) && t < |w.timeout| && t in Bottom(w) && LeavesAll(w, es, t)
    requires Elapsed(es) < Remaining(w, t)
    ensures var r := Run(w, es);
      Shape(r) && t < |r.timeout| && t in Bottom(r) && Remaining(r, t) == Remaining(w, t) - Elapsed(es)
    decreases |es|
  {
    hide Settled, Legal, Step, Leaves;
    if es == [] {
      assert Shape(w) by {
        SettledShape(w);
      }
    } else {
      assert Elapsed([es[0]]) == if es[0].Elapse? then es[0].d else 0;
      Waits(w, es[0], t);
      StepSettled(w, es[0]);
      StillWaiting(Step(w, es[0]).0, es[1..], t);
    }
  }

  lemma SettledShape(w: Wheel)
    requires Settled(w)
    ensures Shape(w)
  {
  }

  /**
   A timer that is started runs on time, whatever else the system does: left alone through a run of fewer
   ticks than its period, it is due in the next pass exactly if that brings the ticks since its start to the
   period, and it then runs exactly if no timer that runs before it takes it off the list. (That the wheel is
   settled in between is RunSettled.)
   */
  lemma OnTime(w: Wheel, t: nat, es: seq<Event>, d: Tick, calls: seq<seq<Command>>)
    requires Settled(w) && t < |w.timeout|
    requires var s := StartTimer(w, t); Settled(s) && LegalRun(s, es) && LeavesAll(s, es, t)
    requires Elapsed(es) < w.init[t]
    requires var r := Run(StartTimer(w, t), es); Settled(r) && Legal(r, Elapse(d, calls))
    ensures var r := Run(StartTimer(w, t), es); var v := Ticked(r, d);
      && Shape(v) && InRange(ExpiredOf(v), |calls|)
      && (t in ExpiredOf(v) <==> w.init[t] <= Elapsed(es) + d)
      && (t in Step(r, Elapse(d, calls)).1 <==>
            t in ExpiredOf(v) && !Prevented(ExpiredOf(v), Step(r, Elapse(d, calls)).1, calls, t))
  {
    hide Settled, LegalRun, Legal, LeavesAll, StartTimer, Due, Paced;
    SettledShape(w);
    StartRemaining(w, t);
    var r := Run(StartTimer(w, t), es);
    StillWaiting(StartTimer(w, t), es, t);
    PassOnTime(r, d, calls, t);
  }

  lemma StartRemaining(w: Wheel, t: nat)
    requires Settled(w) && t < |w.timeout|
    ensures var s := StartTimer(w, t); t < |s.timeout| && t in Bottom(s) && Remaining(s, t) == w.init[t]
  {
    hide Link, Height;
    StartBottom(w, t);
    ScanMembers(Remove(Bottom(w), t), StartTimer(w, t).timeout, t);
  }

  /** What an operation does to its timer, and that it does nothing to any other. */
  ghost predicate Done(w: Wheel, c: Command, r: Wheel)
    requires Shape(w) && Shape(r) && c.u < |w.timeout| == |r.timeout|
  {
    var t := c.u;
    && r.tick == w.tick && r.random == (if c.Start? then Plus(w.random, 1) else w.random)
    && r.init == (if c.SetTime? then w.init[t := c.time] else w.init)
    && r.periodic == (if c.SetPeriodic? then w.periodic[t := true] else if c.SetOneShot? then w.periodic[t := false] else w.periodic)
    && (c.Start? ==> r.active[t] && t in Bottom(r) && Remaining(r, t) == w.init[t])
    && (c.Stop? || c.SetTime? ==> !r.active[t] && Nowhere(r.rows, t))
    && (c.SetOneShot? || c.SetPeriodic? ==> r.rows == w.rows && r.active == w.active && r.timeout == w.timeout)
    && forall u: nat | u < |w.timeout| && u != t ::
         r.active[u] == w.active[u] && r.timeout[u] == w.timeout[u] && (u in Bottom(r) <==> u in Bottom(w))
  }

  /**
   A start links its timer for as many ticks as its period, a stop and a change of the period take it out, the period
   and the kind are those asked for, and no other timer is started, stopped or put off.
   */
  lemma CommandDoes(w: Wheel, c: Command)
    requires Settled(w) && c.u < |w.timeout|
    ensures Done(w, c, Do(w, c))
  {
    hide Settled, StartTimer, StopTimer, AllInRange;
    SettledShape(w);
    match c
    case Start(t) => StartDoes(w, t);
    case Stop(t) => StopDoes(w, t);
    case SetTime(t, _) => StopDoes(w, t);
    case _ =>
  }

  lemma StartDoes(w: Wheel, t: nat)
    requires Settled(w) && Shape(w) && t < |w.timeout|
    ensures Done(w, Command.Start(t), StartTimer(w, t))
  {
    hide Settled, Height, Link, Scan, AllInRange;
    BottomNoDup(w);
    RemoveNoDup(Bottom(w), t);
    StartRemaining(w, t);
    StartBottom(w, t);
    ScanMembers(Remove(Bottom(w), t), StartTimer(w, t).timeout, t);
  }

  lemma StopDoes(w: Wheel, t: nat)
    requires Settled(w) && Shape(w) && t < |w.timeout|
    ensures Done(w, Command.Stop(t), StopTimer(w, t))
    ensures StopTimer(w, t).init == w.init
  {
    hide InOrder, Paced, Lively, ExpiredOf, AllInRange, Nowhere;
    BottomNoDup(w);
    RemoveNoDup(Bottom(w), t);
    StopKeeps(w, t, w.tick);
  }

  lemma BottomNoDup(w: Wheel)
    requires Settled(w)
    ensures NoDup(Bottom(w))
  {
    hide Paced, Lively, ExpiredOf;
    assert Sorted(Bottom(w), w.timeout, w.tick);
  }

  lemma PassOnTime(r: Wheel, d: Tick, calls: seq<seq<Command>>, t: nat)
    requires Settled(r) && Legal(r, Elapse(d, calls)) && t < |r.timeout| && t in Bottom(r)
    ensures var v := Ticked(r, d);
      && Shape(v) && InRange(ExpiredOf(v), |calls|)
      && (t in ExpiredOf(v) <==> Remaining(r, t) <= d)
    ensures var v, fired := Ticked(r, d), Step(r, Elapse(d, calls)).1;
      t in fired <==> t in ExpiredOf(v) && !Prevented(ExpiredOf(v), fired, calls, t)
  {
    hide Due, Paced, InOrder;
    var v := Ticked(r, d);
    TickReady(r, d);
    PassRuns(v, calls, WindowStart(v));
    ReadyNoDup(v, WindowStart(v));
    FiresExactly(ExpiredOf(v), calls);
    ExpiredMembers(v, Bottom(v));
    DueExactly(r, d, t);
  }

  // ----- runs that are not legal -----

  lemma FreshSettled(times: seq<Tick>, flags: seq<bool>)
    requires |times| == |flags| && forall t | 0 <= t < |times| :: 1 <= times[t] < HALF
    ensures Settled(Fresh(1, times, flags))
  {
    assert Bottom(Fresh(1, times, flags)) == [];
  }

  /** Starting a timer of a wheel that has only a bottom row. */
  lemma StartFlat(w: Wheel, t: nat, row: seq<nat>)
    requires Shape(w) && t < |w.timeout| && w.rows == [row] && t !in row
    ensures InRange(row, |w.timeout|)
    ensures var timeout := w.timeout[t := Plus(w.tick, w.init[t])];
      StartTimer(w, t) == w.(rows := [Scan(row, timeout, t)], timeout := timeout, active := w.active[t := true],
                             random := Plus(w.random, 1), firing := if w.firing == Some(t) then None else w.firing)
  {
    hide Scan;
    assert InRange(w.rows[0], |w.timeout|);
    StartBottom(w, t);
    assert Unlink(w, t).rows == [row];
  }

  /** Two timers of period 1, one of a quarter of the range, and one of just under half of it. */
  function LateWheel(): Wheel {
    Fresh(1, [1, 1, 0x4000_0000, 0x7fff_fffe], [false, false, false, false])
  }

  /** The first two are started at once, and the pass comes at tick 5, four ticks late. */
  function LateState(): Wheel {
    LateWheel().(rows := [[0, 1]], timeout := [1, 1, 0, 0], active := [true, true, false, false], random := 2, tick := 5)
  }

  lemma LateReached(w: Wheel, late: Wheel)
    requires w == LateWheel() && late == LateState()
    ensures Settled(w) && |w.timeout| == 4 && w.tick == 0
    ensures Settled(StartTimer(w, 0)) && |StartTimer(w, 0).timeout| == 4
    ensures Settled(StartTimer(StartTimer(w, 0), 1)) && Ticked(StartTimer(StartTimer(w, 0), 1), 5) == late
  {
    hide Settled, Scan, StartTimer;
    FreshSettled(w.init, w.periodic);
    SettledShape(w);
    OperateSettled(w, Command.Start(0));
    StartFlat(w, 0, []);
    LateScans();
    var one := StartTimer(w, 0);
    assert one.timeout == [1, 0, 0, 0] && one.active == [true, false, false, false] && one.rows == [[0]];
    SettledShape(one);
    OperateSettled(one, Command.Start(1));
    StartFlat(one, 1, [0]);
    assert StartTimer(one, 1).timeout == [1, 1, 0, 0] && StartTimer(one, 1).active == [true, true, false, false];
  }

  lemma LateScans()
    ensures Scan([], [1, 0, 0, 0], 0) == [0]
    ensures InRange([0], 4) && Scan([0], [1, 1, 0, 0], 1) == [0, 1]
  {
  }

  /** After timer 0 has fired and its function has started timers 2 and 3. */
  function LateResult(): Wheel {
    LateState().(rows := [[3, 1, 2]], timeout := [1, 1, 0x4000_0005, 0x8000_0003], active := [false, true, true, true], random := 4)
  }

  lemma LateFired(w: Wheel, cs: seq<Command>, r: Wheel)
    requires w == LateState() && cs == [Command.Start(2), Command.Start(3)] && r == LateResult()
    ensures Shape(w) && Callable(cs, |w.timeout|) && 0 < |w.timeout| && Expire(w, 0, cs) == r
  {
    hide Scan, StartTimer, Unlink;
    assert AllInRange(w.rows, 4);
    assert Remove([0, 1], 0) == [1];
    var f := Fire(w, 0);
    FireFlat(w, 0, [1]);
    assert w.active[0 := false] == [false, true, false, false];
    StartFlat(f, 2, [1]);
    LateInserts();
    var g := StartTimer(f, 2);
    assert g.timeout == [1, 1, 0x4000_0005, 0] && g.active == [false, true, true, false] && g.rows == [[1, 2]];
    StartFlat(g, 3, [1, 2]);
    var h := StartTimer(g, 3);
    assert h.timeout == [1, 1, 0x4000_0005, 0x8000_0003] && h.active == [false, true, true, true];
    TwoStarts(f, 2, 3);
  }

  lemma FireFlat(w: Wheel, t: nat, rest: seq<nat>)
    requires Shape(w) && t < |w.timeout| && |w.rows| == 1 && Remove(w.rows[0], t) == rest
    ensures Fire(w, t) == w.(rows := [rest], active := if w.periodic[t] then w.active else w.active[t := false], firing := Some(t))
  {
    assert Unlink(w, t).rows == [rest];
  }

  lemma TwoStarts(f: Wheel, t: nat, u: nat)
    requires Shape(f) && t < |f.timeout| && u < |f.timeout|
    ensures Callable([Command.Start(t), Command.Start(u)], |f.timeout|)
    ensures |StartTimer(f, t).timeout| == |f.timeout|
    ensures DoAll(f, [Command.Start(t), Command.Start(u)]) == StartTimer(StartTimer(f, t), u)
  {
    hide StartTimer;
    var cs := [Command.Start(t), Command.Start(u)];
    var g := Do(f, cs[0]);
    assert cs[1..] == [Command.Start(u)] && cs[1..][1..] == [];
    assert DoAll(g, cs[1..]) == DoAll(Do(g, cs[1]), cs[1..][1..]);
  }

  lemma LateInserts()
    ensures InRange([1], 4) && InRange([1, 2], 4)
    ensures Scan([1], [1, 1, 0x4000_0005, 0], 2) == [1, 2]
    ensures Scan([1, 2], [1, 1, 0x4000_0005, 0x8000_0003], 3) == [3, 1, 2]
  {
    assert Scan([], [1, 1, 0x4000_0005, 0], 2) == [2];
    assert [1][1..] == [];
  }

  /** `late` is five ticks after timers 0 and 1 of the settled wheel `w` were started. */
  ghost predicate StartedLate(w: Wheel, late: Wheel) {
    && Settled(w) && |w.timeout| > 1
    && var a := StartTimer(w, 0);
       && Settled(a) && |a.timeout| > 1
       && var b := StartTimer(a, 1);
          Settled(b) && late == Ticked(b, 5)
  }

  /** The turn for timer 0 leaves timer 1 behind one that is not due, and three timeouts in a circle. */
  ghost predicate Misses(late: Wheel, cs: seq<Command>, r: Wheel) {
    && Shape(late) && |late.timeout| == 4 && Bottom(late) == [0, 1] && Due(late, 0) && Due(late, 1) && Callable(cs, 4)
    && Expire(late, 0, cs) == r && |r.timeout| == 4 && Bottom(r) == [3, 1, 2] && !Due(r, 3) && Due(r, 1)
    && Later(r.timeout[1], r.timeout[3]) && Later(r.timeout[3], r.timeout[2]) && Later(r.timeout[2], r.timeout[1])
  }

  /**
   A late pass can miss a timer, from freshly initialised timers all with periods the code allows: timers 0 and 1 are
   both due, the function of timer 0 starts one whose period is just under half the range, and that one goes to
   the head of the list, in front of timer 1: the pass ends with timer 1 linked and due. The three timeouts that
   are linked then have no order at all, each being later than the next by the source's test.
   */
  lemma LatePassMisses(w: Wheel, late: Wheel, cs: seq<Command>, r: Wheel)
    requires w == LateWheel() && late == LateState() && cs == [Command.Start(2), Command.Start(3)] && r == LateResult()
    ensures StartedLate(w, late) && Misses(late, cs, r)
  {
    hide Settled, StartTimer, Expire;
    LateReached(w, late);
    LateFired(late, cs, r);
  }

  /** One periodic timer of the given period, started, and then `d` ticks. */
  function Lone(period: Tick, d: Tick): Wheel {
    Ticked(StartTimer(Fresh(1, [period], [true]), 0), d)
  }

  lemma LoneFields(period: Tick, d: Tick)
    requires d <= period
    ensures Lone(period, d) == Fresh(1, [period], [true]).(rows := [[0]], timeout := [period], active := [true], random := 1, tick := d)
  {
    var w := Fresh(1, [period], [true]);
    assert AllInRange(w.rows, 1);
    StartFlat(w, 0, []);
    assert [false][0 := true] == [true];
    var zero: Tick := 0;
    assert [zero][0 := period] == [period];
  }

  /** A period of zero is accepted, and then no pass over that timer ends. */
  lemma ZeroPeriodReached(period: Tick, w: Wheel)
    requires period == 0 && w == Lone(period, period)
    ensures Inv(w, period) && Paced(w, period) && Key(period, w.tick) < HALF
    ensures |w.timeout| == 1 && Bottom(w) == [0] && Due(w, 0) && w.periodic[0] && w.init[0] == 0
  {
    hide Lone, Inv;
    LoneFields(period, period);
    LoneInv(period, period, w);
  }

  lemma LoneInv(period: Tick, d: Tick, w: Wheel)
    requires d <= period && w == Lone(period, d)
    ensures Inv(w, period)
  {
    hide Lone;
    LoneFields(period, d);
    assert InRange(w.rows[0], 1);
  }

  /** A periodic timer of period 1 whose function makes it a one-shot: started by its mark, and linked nowhere. */
  lemma MarkStranded(period: Tick, w: Wheel, cs: seq<Command>)
    requires period == 1 && w == Lone(period, period) && cs == [SetOneShot(0)]
    ensures Ready(w, period) && |w.timeout| == 1 && Bottom(w) == [0] && Due(w, 0) && Callable(cs, |w.timeout|)
    ensures var r := Expire(w, 0, cs); |r.active| == 1 && r.active[0] && Bottom(r) == []
  {
    hide Lone;
    LoneFields(period, period);
    LoneInv(period, period, w);
    assert Remove([0], 0) == [];
    FireFlat(w, 0, []);
    OneCommand(Fire(w, 0), cs[0]);
  }

  lemma OneCommand(f: Wheel, c: Command)
    requires Shape(f) && c.u < |f.timeout|
    ensures Callable([c], |f.timeout|) && DoAll(f, [c]) == Do(f, c)
  {
    hide Do;
    var cs := [c];
    assert cs[1..] == [];
    assert DoAll(Do(f, c), []) == Do(f, c);
  }
}
