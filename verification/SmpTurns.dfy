/**
 What a preemption on one of several CPUs costs the thread it displaces. A more urgent thread wakes
 up, gets the CPU and goes to sleep again; in between the displaced thread has stood in a ready table.
 */
module SmpTurns {
  import opened Common
  import opened ThreadState
  import opened SmpSpec
  import opened SmpTheorems
  import opened SmpSharing

  /** Sleeping thread `t` may run on CPU `c` and is more urgent than the thread there. */
  ghost predicate Wakes(s: Sched, c: nat, t: nat)
    requires Shape(s) && c < s.cpus
  {
    && t < |s.stat| && s.stat[t] == Suspended && s.oncpu[t] == s.cpus && s.bind[t] in {c, s.cpus}
    && s.prio[t] < s.prio[s.current[c]]
  }

  /** The equals of the thread on CPU `c`, with that thread back in its place: in front if it has time left, behind if not. */
  function PutBack(s: Sched, c: nat): seq<nat>
    requires Shape(s) && c < s.cpus
  {
    var cur := s.current[c];
    if s.yielded[cur] then Waiting(s, c, s.bind[cur]) + [cur] else [cur] + Waiting(s, c, s.bind[cur])
  }

  /** The tables with queue `p` of table `b` replaced. */
  function Put(ready: seq<seq<seq<nat>>>, b: nat, p: nat, q: seq<nat>): seq<seq<seq<nat>>>
    requires b < |ready| && p < |ready[b]|
  {
    ready[b := ready[b][p := q]]
  }

  function Displaced(s: Sched, c: nat): seq<seq<seq<nat>>>
    requires Shape(s) && c < s.cpus
  {
    Put(s.ready, s.bind[s.current[c]], s.prio[s.current[c]], PutBack(s, c))
  }

  // ----- the more urgent thread gets the CPU -----

  lemma NobodyBetter(s: Sched, c: nat, b: nat, q: nat)
    requires Inv(s) && c < s.cpus && RunsTheBest(s, c) && b in {c, s.cpus} && q < s.prio[s.current[c]]
    ensures s.ready[b][q] == []
  {
    if s.ready[b][q] != [] {
      FirstWaits(s, b, q);
      assert WaitsFor(s, s.ready[b][q][0], c);
    }
  }

  /** Awake, `t` is the only thread of its priority in the tables of CPU `c`, and the best one there. */
  lemma WokenBest(s: Sched, c: nat, t: nat)
    requires Inv(s) && c < s.cpus && RunsTheBest(s, c) && Wakes(s, c, t)
    ensures var a := SmpSpec.Resume(s, t);
      && Inv(a) && a.cpus == s.cpus && a.ready == s.ready[s.bind[t] := s.ready[s.bind[t]][s.prio[t] := [t]]]
      && Highest(a, c) == (s.bind[t], s.prio[t])
      && a == s.(ready := a.ready, group := a.group, stat := s.stat[t := Ready])
  {
    hide Placed, Indexed, Seated, Manned, Highest;
    ResumeKeeps(s, t);
    NobodyBetter(s, c, s.bind[t], s.prio[t]);
    var a := SmpSpec.Resume(s, t);
    assert [] + [t] == [t] == [t] + [];
    assert a == Enlist(s, t);
    forall u: nat | WaitsFor(a, u, c)
      ensures s.prio[t] < a.prio[u] || (s.prio[t] == a.prio[u] && a.bind[u] == s.bind[t])
    {
      if u != t {
        assert WaitsFor(s, u, c);
      }
    }
    HighestOf(a, c, s.bind[t], s.prio[t]);
  }

  /** Where CPU `c` and its tables are while the more urgent thread runs. */
  ghost predicate Preempted(s: Sched, a: Sched, c: nat, t: nat)
    requires Shape(s) && c < s.cpus && t < |s.stat|
  {
    var cur := s.current[c];
    && a.cpus == s.cpus && a.levels == s.levels && a.idle == s.idle && a.bind == s.bind && a.prio == s.prio
    && a.current == s.current[c := t] && a.oncpu == s.oncpu[cur := s.cpus][t := c]
    && a.stat == s.stat[cur := Ready][t := Running] && a.ready == Displaced(s, c)
  }

  lemma Preempt(s: Sched, c: nat, t: nat)
    requires Inv(s) && c < s.cpus && RunsTheBest(s, c) && Wakes(s, c, t)
    ensures Inv(SmpSpec.Resume(s, t)) && SmpSpec.Resume(s, t).cpus == s.cpus
    ensures var a := SmpSpec.Schedule(SmpSpec.Resume(s, t), c); Inv(a) && Preempted(s, a, c, t)
  {
    hide Placed, Indexed, Seated, Manned, Highest, SwitchTo, Remove;
    WokenBest(s, c, t);
    var e := SmpSpec.Resume(s, t);
    ScheduleRunsTheBest(e, c);
    assert !Stays(e, c, s.prio[t]);
    SwitchQueues(e, c, t);
    PreemptTables(s, c, t);
  }

  lemma PreemptTables(s: Sched, c: nat, t: nat)
    requires Inv(s) && c < s.cpus && RunsTheBest(s, c) && Wakes(s, c, t)
    requires Inv(SmpSpec.Resume(s, t)) && SmpSpec.Resume(s, t).cpus == s.cpus
    ensures SwitchTo(SmpSpec.Resume(s, t), c, t).ready == Displaced(s, c)
  {
    hide Placed, Indexed, Highest;
    var e := SmpSpec.Resume(s, t);
    WokenBest(s, c, t);
    var cur := s.current[c];
    var b, p, bt, q := s.bind[cur], s.prio[cur], s.bind[t], s.prio[t];
    assert cur != t;
    var v := Vacated(e, c).ready;
    assert e.ready[b][p] == s.ready[b][p];
    assert v == Put(e.ready, b, p, PutBack(s, c));
    NobodyBetter(s, c, bt, q);
    assert v[bt][q] == [t];
    assert Remove([t], t) == [];
    assert SwitchTo(e, c, t).ready == Put(v, bt, q, []);
    PutOver(s.ready, bt, q, [t], b, p, PutBack(s, c));
  }

  /** Replacing a queue, then another, then undoing the first replacement. */
  lemma PutOver(ready: seq<seq<seq<nat>>>, b: nat, p: nat, x: seq<nat>, d: nat, r: nat, y: seq<nat>)
    requires b < |ready| && p < |ready[b]| && d < |ready| && r < |ready[d]| && (b != d || p != r)
    ensures r < |Put(ready, b, p, x)[d]| && p < |Put(Put(ready, b, p, x), d, r, y)[b]|
    ensures Put(Put(Put(ready, b, p, x), d, r, y), b, p, ready[b][p]) == Put(ready, d, r, y)
  {
    var l := Put(Put(Put(ready, b, p, x), d, r, y), b, p, ready[b][p]);
    var w := Put(ready, d, r, y);
    forall i | 0 <= i < |ready| ensures l[i] == w[i] {
      assert |l[i]| == |w[i]|;
    }
  }

  // ----- and goes to sleep again -----

  lemma Rest(s: Sched, a: Sched, c: nat, t: nat)
    requires Inv(s) && c < s.cpus && t < |s.stat| && s.stat[t] == Suspended && Inv(a) && Preempted(s, a, c, t)
    ensures var z := SmpSpec.Suspend(a, c, t);
      && Inv(z) && z == a.(stat := a.stat[t := Suspended], yielded := z.yielded, group := z.group)
  {
    hide Indexed, Seated, Manned;
    IdleRuns(s, t);
    SuspendKeeps(a, c, t);
    assert Placed(a, t);
    var b, p := a.bind[t], a.prio[t];
    assert a.ready[b][p := a.ready[b][p]] == a.ready[b];
    assert SmpSpec.Suspend(a, c, t).ready == Put(a.ready, b, p, a.ready[b][p]) == a.ready;
  }

  /** The table of CPU `c` from which the next thread comes. */
  function From(s: Sched, c: nat): nat
    requires Shape(s) && c < s.cpus
  {
    if Displaced(s, c)[c][s.prio[s.current[c]]] != [] then c else s.cpus
  }

  /** The displaced thread is back in its table and the first of the equals has got the CPU. */
  ghost predicate Settled(s: Sched, d: Sched, c: nat)
    requires Shape(s) && c < s.cpus
  {
    var p, x := s.prio[s.current[c]], From(s, c);
    var q := Displaced(s, c)[x][p];
    && q != [] && d.current == s.current[c := q[0]] && d.ready == Put(Displaced(s, c), x, p, q[1..])
    && d.cpus == s.cpus && d.levels == s.levels && d.bind == s.bind && d.prio == s.prio
  }

  lemma NotEmpty(s: Sched, u: nat)
    requires Inv(s) && u < |s.stat| && s.stat[u] == Ready
    ensures s.ready[s.bind[u]][s.prio[u]] != []
  {
    hide Indexed, Seated, Manned;
    assert Placed(s, u);
  }

  lemma NextOne(s: Sched, z: Sched, c: nat, t: nat)
    requires Inv(s) && c < s.cpus && RunsTheBest(s, c) && Wakes(s, c, t) && Inv(z) && z.cpus == s.cpus
    requires z.levels == s.levels && z.bind == s.bind && z.prio == s.prio && z.ready == Displaced(s, c)
    requires z.stat == s.stat[s.current[c] := Ready][t := Running][t := Suspended]
    ensures Displaced(s, c)[From(s, c)][s.prio[s.current[c]]] != []
    ensures Highest(z, c) == (From(s, c), s.prio[s.current[c]])
    ensures z.group[c] != {} || z.group[s.cpus] != {}
  {
    hide Placed, Indexed, Seated, Manned, Highest;
    var cur := s.current[c];
    var p := s.prio[cur];
    assert z.ready[s.bind[cur]][p] == PutBack(s, c) != [];
    FirstWaits(z, s.bind[cur], p);
    forall u: nat | WaitsFor(z, u, c) ensures p <= z.prio[u] {
      if u != cur {
        assert WaitsFor(s, u, c);
      }
    }
    if z.ready[c][p] != [] {
      LocalFirst(z, c, p);
    } else {
      forall u: nat | WaitsFor(z, u, c) ensures p < z.prio[u] || (p == z.prio[u] && z.bind[u] == s.cpus) {
        NotEmpty(z, u);
      }
      HighestOf(z, c, s.cpus, p);
    }
  }

  lemma Settle(s: Sched, a: Sched, c: nat, t: nat)
    requires Inv(s) && c < s.cpus && RunsTheBest(s, c) && Wakes(s, c, t) && Inv(a) && Preempted(s, a, c, t)
    ensures var z := SmpSpec.Suspend(a, c, t);
      Inv(z) && z.cpus == s.cpus && Inv(SmpSpec.Schedule(z, c)) && RunsTheBest(SmpSpec.Schedule(z, c), c)
      && Settled(s, SmpSpec.Schedule(z, c), c)
  {
    hide Placed, Indexed, Seated, Manned, Highest, From, Displaced;
    Rest(s, a, c, t);
    var z := SmpSpec.Suspend(a, c, t);
    NextOne(s, z, c, t);
    ScheduleRunsTheBest(z, c);
    var p, x := s.prio[s.current[c]], From(s, c);
    var q := Displaced(s, c)[x][p];
    FirstWaits(z, x, p);
    assert SmpSpec.Schedule(z, c) == SwitchTo(z, c, q[0]);
    SwitchQueues(z, c, q[0]);
    RemoveFirst(q, q[0]);
  }

  // ----- the whole preemption -----

  /**
   The displaced thread is the next one again: alone in the CPU's own table, or in front of it, or of the
   global one with the other empty.
   */
  predicate NextAgain(s: Sched, c: nat)
    requires Shape(s) && c < s.cpus
  {
    var own := s.bind[s.current[c]] == c;
    if s.yielded[s.current[c]] then own && Waiting(s, c, c) == [] else own || Waiting(s, c, c) == []
  }

  /** Thread `t` wakes up, CPU `c` schedules, `t` suspends itself and the CPU schedules again. */
  function Interlude(s: Sched, c: nat, t: nat): (d: Sched)
    requires Inv(s) && c < s.cpus && RunsTheBest(s, c) && Wakes(s, c, t)
    ensures Inv(d) && d.cpus == s.cpus && RunsTheBest(d, c) && Settled(s, d, c)
  {
    Preempt(s, c, t);
    var a := SmpSpec.Schedule(SmpSpec.Resume(s, t), c);
    Settle(s, a, c, t);
    SmpSpec.Schedule(SmpSpec.Suspend(a, c, t), c)
  }

  /** The two queues of CPU `c` that matter, while its thread is displaced and once the next one has left them. */
  lemma QueuesThen(s: Sched, d: Sched, c: nat, y: nat)
    requires Shape(s) && c < s.cpus && s.bind[s.current[c]] in {c, s.cpus} && Settled(s, d, c) && y in {c, s.cpus}
    ensures var cur, p := s.current[c], s.prio[s.current[c]];
      var q := if y == s.bind[cur] then PutBack(s, c) else Waiting(s, c, y);
      && Displaced(s, c)[y][p] == q && y < |d.ready| && p < |d.ready[y]|
      && d.ready[y][p] == if y == From(s, c) && q != [] then q[1..] else q
  {
  }

  lemma NextThen(s: Sched, d: Sched, c: nat)
    requires Shape(s) && c < s.cpus && s.bind[s.current[c]] in {c, s.cpus} && Settled(s, d, c)
    ensures var cur := s.current[c];
      && From(s, c) == (if s.bind[cur] == c || Waiting(s, c, c) != [] then c else s.cpus)
      && |d.current| == |s.current|
      && d.current[c] == (if s.bind[cur] == From(s, c) then PutBack(s, c) else Waiting(s, c, c))[0]
  {
  }

  lemma GoesAhead(s: Sched, d: Sched, c: nat)
    requires Inv(s) && Shape(d) && c < s.cpus && s.bind[s.current[c]] == s.cpus && Settled(s, d, c)
    requires !s.yielded[s.current[c]] && Waiting(s, c, c) != []
    ensures d.current[c] == Waiting(s, c, c)[0] && Waiting(d, c, c) == Waiting(s, c, c)[1..]
    ensures Waiting(d, c, s.cpus) == [s.current[c]] + Waiting(s, c, s.cpus)
  {
    hide Settled, From, Displaced;
    QueuesThen(s, d, c, c);
    QueuesThen(s, d, c, s.cpus);
    NextThen(s, d, c);
    SamePrio(s, d, c);
  }

  lemma SamePrio(s: Sched, d: Sched, c: nat)
    requires Inv(s) && Shape(d) && c < s.cpus && s.bind[s.current[c]] in {c, s.cpus} && Settled(s, d, c)
    ensures d.prio[d.current[c]] == s.prio[s.current[c]]
  {
    var x, p := From(s, c), s.prio[s.current[c]];
    QueuesThen(s, d, c, x);
    if s.ready[x][p] != [] {
      FirstWaits(s, x, p);
    }
  }

  lemma NothingMoved(s: Sched, d: Sched, c: nat)
    requires Shape(s) && c < s.cpus && Settled(s, d, c) && NextAgain(s, c)
    requires s.bind[s.current[c]] in {c, s.cpus}
    ensures d.current == s.current && d.ready == s.ready
  {
    var cur := s.current[c];
    var b, p := s.bind[cur], s.prio[cur];
    assert From(s, c) == b;
    assert PutBack(s, c)[0] == cur && PutBack(s, c)[1..] == s.ready[b][p];
    PutTwice(s.ready, b, p, PutBack(s, c));
  }

  lemma PutTwice(ready: seq<seq<seq<nat>>>, b: nat, p: nat, q: seq<nat>)
    requires b < |ready| && p < |ready[b]|
    ensures Put(Put(ready, b, p, q), b, p, ready[b][p]) == ready
  {
    var l := Put(Put(ready, b, p, q), b, p, ready[b][p]);
    forall i | 0 <= i < |ready| ensures l[i] == ready[i] {
      assert |l[i]| == |ready[i]|;
    }
  }

  lemma SliceJustEnds(s: Sched, d: Sched, c: nat)
    requires Inv(s) && Shape(d) && c < s.cpus && RunsTheBest(s, c) && Settled(s, d, c)
    requires s.yielded[s.current[c]] && !NextAgain(s, c)
    ensures var r := Slice(s, c);
      && r.cpus == s.cpus && Shape(r) && d.current == r.current
      && Waiting(d, c, c) == Waiting(r, c, c) && Waiting(d, c, s.cpus) == Waiting(r, c, s.cpus)
  {
    hide Placed, Indexed, Seated, Manned, Slice, Settled, From, Displaced, RunsTheBest, Turned;
    var r := Slice(s, c);
    SliceCases(s, c);
    SliceCurrent(s, c);
    OnlyHere(s, d, c);
    if Waiting(s, c, c) != [] {
      SameTurn(s, d, r, c, c);
    } else if Waiting(s, c, s.cpus) != [] {
      SameTurn(s, d, r, c, s.cpus);
    } else {
      AloneAgain(s, d, c);
    }
  }

  lemma WaitingThen(s: Sched, d: Sched, c: nat, y: nat)
    requires Inv(s) && Shape(d) && c < s.cpus == d.cpus && s.bind[s.current[c]] in {c, s.cpus} && Settled(s, d, c)
    requires y in {c, s.cpus}
    ensures var q := if y == s.bind[s.current[c]] then PutBack(s, c) else Waiting(s, c, y);
      Waiting(d, c, y) == if y == From(s, c) && q != [] then q[1..] else q
  {
    hide Placed, Indexed, Seated, Manned, Settled, From, Displaced, PutBack;
    QueuesThen(s, d, c, y);
    SamePrio(s, d, c);
  }

  lemma SameTurn(s: Sched, d: Sched, r: Sched, c: nat, b: nat)
    requires Inv(s) && Shape(d) && Shape(r) && c < s.cpus == r.cpus == d.cpus && RunsTheBest(s, c) && Settled(s, d, c)
    requires s.yielded[s.current[c]] && !NextAgain(s, c) && b in {c, s.cpus} && Turned(s, r, c, b)
    requires b == c <==> Waiting(s, c, c) != []
    ensures d.current[c] == r.current[c]
    ensures Waiting(d, c, c) == Waiting(r, c, c) && Waiting(d, c, s.cpus) == Waiting(r, c, s.cpus)
  {
    hide Placed, Indexed, Seated, Manned, Settled, From, Displaced, Waiting;
    var cur := s.current[c];
    WaitingThen(s, d, c, c);
    WaitingThen(s, d, c, s.cpus);
    NextThen(s, d, c);
    assert From(s, c) == b;
    assert Waiting(s, c, b) != [];
    assert (Waiting(s, c, b) + [cur])[1..] == Waiting(s, c, b)[1..] + [cur];
  }

  lemma AloneAgain(s: Sched, d: Sched, c: nat)
    requires Inv(s) && Shape(d) && c < s.cpus && RunsTheBest(s, c) && Settled(s, d, c)
    requires Waiting(s, c, c) == [] && Waiting(s, c, s.cpus) == []
    ensures d.current[c] == s.current[c] && Waiting(d, c, c) == [] && Waiting(d, c, s.cpus) == []
  {
    hide Placed, Indexed, Seated, Manned, Settled, From, Displaced;
    QueuesThen(s, d, c, c);
    QueuesThen(s, d, c, s.cpus);
    NextThen(s, d, c);
    SamePrio(s, d, c);
  }

  lemma OnlyHere(s: Sched, d: Sched, c: nat)
    requires Shape(s) && c < s.cpus && Settled(s, d, c)
    ensures |d.current| == |s.current| && d.current == s.current[c := d.current[c]]
    ensures d.cpus == s.cpus && d.bind == s.bind && d.prio == s.prio
  {
  }

  lemma SliceCurrent(s: Sched, c: nat)
    requires Inv(s) && c < s.cpus
    ensures var r := Slice(s, c); |r.current| == s.cpus && r.current == s.current[c := r.current[c]]
  {
    hide Placed, Indexed, Seated, Manned;
    YieldKeeps(s, c);
    ScheduleCurrent(SmpSpec.Yield(s, c), c);
  }

  /**
   What a preemption costs. A thread with time left goes on, with everything waiting as before, if it is bound
   to the CPU or nobody as good is; otherwise the first of those bound there goes ahead of it, and it is the
   first in the global table. A slice that was over just ends, unless the thread is alone in the CPU's own
   table: it then goes on in front of the global ones.
   */
  lemma TurnKept(s: Sched, c: nat, t: nat)
    requires Inv(s) && c < s.cpus && RunsTheBest(s, c) && Wakes(s, c, t)
    ensures var d, cur := Interlude(s, c, t), s.current[c];
      && d.cpus == s.cpus && d.bind == s.bind && d.prio == s.prio && d.current == s.current[c := d.current[c]]
      && if NextAgain(s, c) then d.current == s.current && d.ready == s.ready
         else if !s.yielded[cur] then
           && d.current[c] == Waiting(s, c, c)[0] && Waiting(d, c, c) == Waiting(s, c, c)[1..]
           && Waiting(d, c, s.cpus) == [cur] + Waiting(s, c, s.cpus)
         else
           var r := Slice(s, c);
           && r.cpus == s.cpus && Shape(r) && d.current == r.current
           && Waiting(d, c, c) == Waiting(r, c, c) && Waiting(d, c, s.cpus) == Waiting(r, c, s.cpus)
  {
    hide Placed, Indexed, Seated, Manned, Interlude, Slice, From, Displaced, Settled;
    var d := Interlude(s, c, t);
    OnlyHere(s, d, c);
    if NextAgain(s, c) {
      NothingMoved(s, d, c);
    } else if s.yielded[s.current[c]] {
      SliceJustEnds(s, d, c);
    } else {
      GoesAhead(s, d, c);
    }
  }

  /** A displaced thread with time left goes on exactly if it is bound to the CPU or nobody as good is. */
  lemma TurnKeptExactly(s: Sched, c: nat, t: nat)
    requires Inv(s) && c < s.cpus && RunsTheBest(s, c) && Wakes(s, c, t) && !s.yielded[s.current[c]]
    ensures Interlude(s, c, t).current[c] == s.current[c] <==> s.bind[s.current[c]] == c || Waiting(s, c, c) == []
  {
    hide Placed, Indexed, Seated, Manned, Interlude;
    TurnKept(s, c, t);
    if Waiting(s, c, c) != [] {
      FirstWaits(s, c, s.prio[s.current[c]]);
    }
  }

  /** Among equals that share a table, own or global, a preemption changes nobody's turn unless the slice was over. */
  lemma CircleKept(s: Sched, c: nat, t: nat)
    requires Inv(s) && c < s.cpus && Sharing(s, c) && Wakes(s, c, t)
    ensures Circle(Interlude(s, c, t), c) ==
      if s.yielded[s.current[c]] then Circle(s, c)[1..] + [Circle(s, c)[0]] else Circle(s, c)
  {
    hide Placed, Indexed, Seated, Manned, Interlude, Slice;
    TurnKept(s, c, t);
    OneTable(s, c);
    if NextAgain(s, c) {
      assert Circle(s, c) == [s.current[c]] + Waiting(s, c, s.bind[s.current[c]]);
    } else {
      SliceRotates(s, c);
      SliceCases(s, c);
    }
  }

  lemma OneTable(s: Sched, c: nat)
    requires Inv(s) && c < s.cpus && Sharing(s, c)
    ensures s.bind[s.current[c]] == s.cpus ==> Waiting(s, c, c) == []
    ensures s.bind[s.current[c]] == c ==> Waiting(s, c, s.cpus) == []
  {
    hide Placed, Indexed, Seated, Manned;
    var p := s.prio[s.current[c]];
    forall b | b in {c, s.cpus} && Waiting(s, c, b) != [] ensures b == s.bind[s.current[c]] {
      FirstWaits(s, b, p);
      assert WaitsFor(s, s.ready[b][p][0], c);
    }
  }
}
