/**
 Time slices among threads of one priority that wait in two tables, a CPU's own and the global one. The lookup
 prefers its own table in a tie, so how many of the equals are bound to the CPU decides who gets a turn there.
 */
module SmpSharing {
  import opened Common
  import opened ThreadState
  import opened SmpSpec
  import opened SmpTheorems

  /** Those waiting in table `b` that are as good as the thread on CPU `c`. */
  function Waiting(s: Sched, c: nat, b: nat): seq<nat>
    requires Shape(s) && c < s.cpus && b <= s.cpus
  {
    s.ready[b][s.prio[s.current[c]]]
  }

  /** The thread on CPU `c`, if table `b` is the one it waits in. */
  function Runner(s: Sched, c: nat, b: nat): seq<nat>
    requires Shape(s) && c < s.cpus
  {
    if s.bind[s.current[c]] == b then [s.current[c]] else []
  }

  /** The first of table `b` has got the CPU, and the thread it had has gone to the end of its own table. */
  ghost predicate Turned(s: Sched, r: Sched, c: nat, b: nat)
    requires Shape(s) && Shape(r) && c < s.cpus == r.cpus && b in {c, s.cpus}
  {
    && Waiting(s, c, b) != [] && r.current[c] == Waiting(s, c, b)[0] && s.bind == r.bind
    && forall d | d in {c, s.cpus} ::
         Waiting(r, c, d) == (if d == b then Waiting(s, c, d)[1..] else Waiting(s, c, d)) + Runner(s, c, d)
  }

  // ----- one slice -----

  lemma FirstWaits(s: Sched, b: nat, p: nat)
    requires Inv(s) && b <= s.cpus && p < s.levels && s.ready[b][p] != []
    ensures var t := s.ready[b][p][0]; t < |s.stat| && s.stat[t] == Ready && s.bind[t] == b && s.prio[t] == p
    ensures p in s.group[b]
  {
    assert Indexed(s, b, p);
    assert Placed(s, s.ready[b][p][0]);
  }

  /** In a tie the CPU's own table is looked at first. */
  lemma LocalFirst(s: Sched, c: nat, p: nat)
    requires Inv(s) && c < s.cpus && p < s.levels && s.ready[c][p] != []
    requires forall t: nat | WaitsFor(s, t, c) :: p <= s.prio[t]
    ensures Highest(s, c) == (c, p)
  {
    FirstWaits(s, c, p);
    var g, l := Lowest(s.group[s.cpus], s.levels), Lowest(s.group[c], s.levels);
    assert Indexed(s, c, l);
    FirstWaits(s, c, l);
    assert WaitsFor(s, s.ready[c][l][0], c);
    if g < l {
      assert Indexed(s, s.cpus, g);
      FirstWaits(s, s.cpus, g);
      assert WaitsFor(s, s.ready[s.cpus][g][0], c);
    }
  }

  lemma TieGoesLocal(s: Sched, c: nat)
    requires Inv(s) && c < s.cpus && RunsTheBest(s, c) && Waiting(s, c, c) != []
    ensures Highest(s, c) == (c, s.prio[s.current[c]])
  {
    LocalFirst(s, c, s.prio[s.current[c]]);
  }

  lemma GlobalNext(s: Sched, c: nat)
    requires Inv(s) && c < s.cpus && RunsTheBest(s, c) && Waiting(s, c, c) == [] && Waiting(s, c, s.cpus) != []
    ensures Highest(s, c) == (s.cpus, s.prio[s.current[c]])
  {
    var p := s.prio[s.current[c]];
    forall t: nat | WaitsFor(s, t, c) ensures p < s.prio[t] || (p == s.prio[t] && s.bind[t] == s.cpus) {
      assert Placed(s, t);
    }
    HighestOf(s, c, s.cpus, p);
  }

  /** Giving the CPU to the first of table `b`. */
  lemma SwitchTurns(s: Sched, c: nat, b: nat)
    requires Inv(s) && c < s.cpus && b in {c, s.cpus} && RunsTheBest(s, c) && s.yielded[s.current[c]]
    requires Waiting(s, c, b) != [] && Waiting(s, c, b)[0] < |s.stat|
    ensures var r := SwitchTo(s, c, Waiting(s, c, b)[0]);
      Shape(r) && r.cpus == s.cpus && Turned(s, r, c, b)
  {
    hide NoDup, Indexed, Remove;
    var cur, p := s.current[c], s.prio[s.current[c]];
    var to := s.ready[b][p][0];
    FirstWaits(s, b, p);
    assert Manned(s, c) && Seated(s, cur);
    SwitchQueues(s, c, to);
    VacatedPutAway(s, c);
    var v := Vacated(s, c).ready;
    assert v == Behind(s.ready, s.bind[cur], p, cur);
    assert SwitchTo(s, c, to).ready == v[b := v[b][p := Remove(v[b][p], to)]];
    RemoveFirst(v[b][p], to);
    assert SwitchTo(s, c, to).ready == FirstGone(v, b, p);
    forall x | x in {c, s.cpus}
      ensures SwitchTo(s, c, to).ready[x][p] == (if x == b then s.ready[x][p][1..] else s.ready[x][p]) + Runner(s, c, x)
    {
      TableAfter(s.ready, s.bind[cur], b, p, cur, x);
    }
  }

  function Behind(ready: seq<seq<seq<nat>>>, d: nat, p: nat, t: nat): seq<seq<seq<nat>>>
    requires d < |ready| && p < |ready[d]|
  {
    ready[d := ready[d][p := ready[d][p] + [t]]]
  }

  function FirstGone(ready: seq<seq<seq<nat>>>, b: nat, p: nat): seq<seq<seq<nat>>>
    requires b < |ready| && p < |ready[b]| && ready[b][p] != []
  {
    ready[b := ready[b][p := ready[b][p][1..]]]
  }

  lemma TableAfter(ready: seq<seq<seq<nat>>>, d: nat, b: nat, p: nat, t: nat, x: nat)
    requires d < |ready| && b < |ready| && x < |ready| && p < |ready[d]| && p < |ready[b]| && p < |ready[x]|
    requires ready[b][p] != []
    ensures var v := Behind(ready, d, p, t);
      && p < |v[b]| && v[b][p] != [] && p < |FirstGone(v, b, p)[x]|
      && FirstGone(v, b, p)[x][p] == (if x == b then ready[x][p][1..] else ready[x][p]) + if x == d then [t] else []
  {
  }

  lemma RemoveFirst(q: seq<nat>, t: nat)
    requires q != [] && q[0] == t
    ensures Remove(q, t) == q[1..]
  {
  }

  lemma YieldSame(s: Sched, c: nat)
    requires Inv(s) && c < s.cpus && RunsTheBest(s, c)
    ensures var y := SmpSpec.Yield(s, c); Inv(y) && RunsTheBest(y, c) && y.yielded[y.current[c]]
  {
    YieldKeeps(s, c);
    var y := SmpSpec.Yield(s, c);
    forall t: nat ensures WaitsFor(y, t, c) == WaitsFor(s, t, c) {
    }
  }

  lemma SwitchedNow(s: Sched, c: nat, b: nat)
    requires Inv(s) && c < s.cpus && b in {c, s.cpus} && RunsTheBest(s, c) && s.yielded[s.current[c]]
    requires Waiting(s, c, b) != [] && Highest(s, c) == (b, s.prio[s.current[c]])
    ensures Waiting(s, c, b)[0] < |s.stat| && SmpSpec.Schedule(s, c) == SwitchTo(s, c, Waiting(s, c, b)[0])
  {
    FirstWaits(s, b, s.prio[s.current[c]]);
  }

  /** Who gets the CPU when a slice ends: its own first equal, else the first global one, else nobody else. */
  lemma SliceCases(s: Sched, c: nat)
    requires Inv(s) && c < s.cpus && RunsTheBest(s, c)
    ensures var r := Slice(s, c);
      && Inv(r) && r.cpus == s.cpus && RunsTheBest(r, c)
      && (if Waiting(s, c, c) != [] then Turned(s, r, c, c)
          else if Waiting(s, c, s.cpus) != [] then Turned(s, r, c, s.cpus)
          else r.current[c] == s.current[c] && r.bind == s.bind && r.ready == s.ready && r.prio == s.prio)
  {
    hide Placed, Indexed, Seated, Manned, Turned, SwitchTo, Highest;
    var y := SmpSpec.Yield(s, c);
    YieldSame(s, c);
    ScheduleRunsTheBest(y, c);
    if Waiting(s, c, c) != [] {
      TieGoesLocal(y, c);
      SwitchedNow(y, c, c);
      SwitchTurns(y, c, c);
      TurnedSame(s, y, Slice(s, c), c, c);
    } else if Waiting(s, c, s.cpus) != [] {
      GlobalNext(y, c);
      SwitchedNow(y, c, s.cpus);
      SwitchTurns(y, c, s.cpus);
      TurnedSame(s, y, Slice(s, c), c, s.cpus);
    } else {
      NobodyElse(y, c);
    }
  }

  lemma TurnedSame(s: Sched, y: Sched, r: Sched, c: nat, b: nat)
    requires Shape(s) && Shape(r) && c < s.cpus == r.cpus && b in {c, s.cpus} && y == s.(yielded := y.yielded)
    requires Shape(y) && Turned(y, r, c, b)
    ensures Turned(s, r, c, b)
  {
  }

  lemma NobodyElse(s: Sched, c: nat)
    requires Inv(s) && c < s.cpus && RunsTheBest(s, c) && Waiting(s, c, c) == [] && Waiting(s, c, s.cpus) == []
    ensures var r := SmpSpec.Schedule(s, c);
      r.cpus == s.cpus && r.current == s.current && r.bind == s.bind && r.ready == s.ready && r.prio == s.prio
  {
    if s.group[s.cpus] != {} || s.group[c] != {} {
      HighestIsReady(s, c);
      var h := Highest(s, c);
      assert WaitsFor(s, s.ready[h.0][h.1][0], c);
    }
  }

  // ----- any number of slices -----

  /** `k` ends of a slice on CPU `c`, with nobody else doing anything. */
  function SlicesOn(s: Sched, c: nat, k: nat): (r: Sched)
    requires Inv(s) && c < s.cpus && RunsTheBest(s, c)
    ensures Inv(r) && r.cpus == s.cpus && RunsTheBest(r, c)
  {
    if k == 0 then s
    else
      SliceCases(SlicesOn(s, c, k - 1), c);
      Slice(SlicesOn(s, c, k - 1), c)
  }

  /** After `k` slices CPU `c` has a thread that is bound to no CPU. */
  ghost predicate GlobalTurn(s: Sched, c: nat, k: nat)
    requires Inv(s) && c < s.cpus && RunsTheBest(s, c)
  {
    var r := SlicesOn(s, c, k);
    r.bind[r.current[c]] == r.cpus
  }

  /** A thread of its own runs and another one waits. */
  ghost predicate Occupied(s: Sched, c: nat)
    requires Shape(s) && c < s.cpus
  {
    s.bind[s.current[c]] == c && Waiting(s, c, c) != []
  }

  lemma OccupiedStays(s: Sched, c: nat)
    requires Inv(s) && c < s.cpus && RunsTheBest(s, c) && (Occupied(s, c) || |Waiting(s, c, c)| > 1)
    ensures var r := Slice(s, c); Inv(r) && r.cpus == s.cpus && Occupied(r, c)
    ensures Waiting(s, c, s.cpus) <= Waiting(Slice(s, c), c, s.cpus)
  {
    hide Placed, Indexed, Seated, Manned, Slice, RunsTheBest;
    SliceCases(s, c);
    TurnBind(s, Slice(s, c), c, c);
  }

  lemma TurnBind(s: Sched, r: Sched, c: nat, b: nat)
    requires Inv(s) && Shape(r) && c < s.cpus == r.cpus && b in {c, s.cpus} && Turned(s, r, c, b)
    ensures r.bind[r.current[c]] == b
  {
    FirstWaits(s, b, s.prio[s.current[c]]);
  }

  /** With two of its own among the equals, a CPU never comes to a global one. */
  lemma {:induction false} Starves(s: Sched, c: nat, k: nat)
    requires Inv(s) && c < s.cpus && RunsTheBest(s, c) && k > 0
    requires |Runner(s, c, c) + Waiting(s, c, c)| > 1
    ensures Occupied(SlicesOn(s, c, k), c) && !GlobalTurn(s, c, k)
    decreases k
  {
    hide Placed, Indexed, Seated, Manned, Slice, RunsTheBest;
    if k > 1 {
      Starves(s, c, k - 1);
    }
    OccupiedStays(SlicesOn(s, c, k - 1), c);
  }

  /** With at most one, a global one has its turn within two slices. */
  lemma SoonGlobal(s: Sched, c: nat) returns (k: nat)
    requires Inv(s) && c < s.cpus && RunsTheBest(s, c)
    requires |Runner(s, c, c) + Waiting(s, c, c)| <= 1 && Runner(s, c, s.cpus) + Waiting(s, c, s.cpus) != []
    ensures 1 <= k <= 2 && GlobalTurn(s, c, k)
  {
    hide Placed, Indexed, Seated, Manned, Slice, RunsTheBest;
    SliceCases(s, c);
    var r := Slice(s, c);
    if Waiting(s, c, c) == [] {
      k := 1;
      if Waiting(s, c, s.cpus) != [] {
        TurnBind(s, r, c, s.cpus);
      }
    } else {
      k := 2;
      TurnBind(s, r, c, c);
      SliceCases(r, c);
      TurnBind(r, Slice(r, c), c, s.cpus);
    }
    Unrolled(s, c);
  }

  lemma Unrolled(s: Sched, c: nat)
    requires Inv(s) && c < s.cpus && RunsTheBest(s, c)
    ensures SlicesOn(s, c, 1) == Slice(s, c)
    ensures Inv(Slice(s, c)) && Slice(s, c).cpus == s.cpus && SlicesOn(s, c, 2) == Slice(Slice(s, c), c)
  {
    hide Placed, Indexed, Seated, Manned, Slice, RunsTheBest;
    SliceCases(s, c);
    assert SlicesOn(s, c, 0) == s;
    assert SlicesOn(s, c, 1) == Slice(SlicesOn(s, c, 0), c);
    assert SlicesOn(s, c, 2) == Slice(SlicesOn(s, c, 1), c);
  }

  /**
   Among equals of which some are bound to CPU `c` and some to none, with nobody else doing anything, the unbound
   ones ever get that CPU exactly if at most one of the equals is bound to it.
   */
  lemma GlobalGetsTurn(s: Sched, c: nat)
    requires Inv(s) && c < s.cpus && RunsTheBest(s, c) && Runner(s, c, s.cpus) + Waiting(s, c, s.cpus) != []
    ensures (exists k: nat :: k > 0 && GlobalTurn(s, c, k)) <==> |Runner(s, c, c) + Waiting(s, c, c)| <= 1
  {
    hide Placed, Indexed, Seated, Manned, RunsTheBest, GlobalTurn;
    if |Runner(s, c, c) + Waiting(s, c, c)| <= 1 {
      var k := SoonGlobal(s, c);
      assert k > 0 && GlobalTurn(s, c, k);
    } else {
      forall k: nat | k > 0 ensures !GlobalTurn(s, c, k) {
        Starves(s, c, k);
      }
    }
  }
}
