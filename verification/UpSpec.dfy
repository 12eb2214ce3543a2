/**
 The single-core scheduler as a state machine; each step is a region with interrupts disabled. Before the
 system starts there is no current thread, and `current` is the number of threads, which is none of them.
 */
module UpSpec {
  import opened Common
  import opened ThreadState
  import opened ReadyIndex

  datatype Up = Up(
    idle: nat,
    stat: seq<Stat>, yielded: seq<bool>, prio: seq<nat>, slice: seq<nat>, remaining: seq<nat>,
    ready: seq<seq<nat>>, index: Index,
    current: nat, nest: nat, pending: bool)

  ghost predicate Shape(s: Up) {
    && |s.stat| == |s.yielded| == |s.prio| == |s.slice| == |s.remaining|
    && s.idle < |s.stat| && s.current <= |s.stat|
    && (forall t | 0 <= t < |s.prio| :: s.prio[t] < |s.ready|)
    && |s.ready| <= (if s.index.TwoLevel? then 256 else 32)
    && (s.index.TwoLevel? ==> |s.index.table| == 32)
  }

  predicate Started(s: Up) {
    s.current < |s.stat|
  }

  /** A thread is in a ready queue exactly when it is READY, and then in that of its priority. */
  ghost predicate Placed(ready: seq<seq<nat>>, stat: Stat, prio: nat, t: nat) {
    forall p | 0 <= p < |ready| :: t in ready[p] <==> stat == Ready && p == prio
  }

  ghost predicate Tidy(q: seq<nat>, n: nat) {
    NoDup(q) && forall i | 0 <= i < |q| :: q[i] < n
  }

  ghost predicate Queues(ready: seq<seq<nat>>, index: Index, stat: seq<Stat>, prio: seq<nat>) {
    && |prio| == |stat| && (forall t | 0 <= t < |prio| :: prio[t] < |ready|)
    && Agrees(index, ready)
    && (forall p | 0 <= p < |ready| :: Tidy(ready[p], |stat|))
    && (forall t | 0 <= t < |stat| :: Placed(ready, stat[t], prio[t], t))
  }

  /** One thread at most runs or has given up its slice, the current one; idle is always there to run. */
  ghost predicate Dispatched(s: Up)
    requires Shape(s)
  {
    && (forall t | 0 <= t < |s.stat| :: s.stat[t] == Running || s.yielded[t] ==> t == s.current)
    && (Started(s) ==> s.stat[s.current] in {Running, Suspended} && s.stat[s.idle] in {Ready, Running})
    && (s.pending ==> Started(s))
  }

  ghost predicate Inv(s: Up) {
    Shape(s) && Queues(s.ready, s.index, s.stat, s.prio) && Dispatched(s)
  }

  // ----- the ready queues -----

  /** `rt_sched_insert_thread`: the current thread is running again; others go behind their equals after a yield only. */
  function Insert(s: Up, t: nat): Up
    requires Shape(s) && t < |s.stat|
  {
    if t == s.current then s.(stat := s.stat[t := Running])
    else
      var p := s.prio[t];
      var q := if s.yielded[t] then s.ready[p] + [t] else [t] + s.ready[p];
      s.(stat := s.stat[t := Ready], ready := s.ready[p := q], index := Mark(s.index, p))
  }

  /** `rt_sched_remove_thread` */
  function Delist(s: Up, t: nat): Up
    requires Shape(s) && t < |s.stat|
  {
    var p := s.prio[t];
    var q := Remove(s.ready[p], t);
    s.(ready := s.ready[p := q], index := if q == [] then Unmark(s.index, p) else s.index)
  }

  /** The queue `_scheduler_get_highest_priority_thread` comes to. */
  function Best(s: Up): (p: nat)
    requires Shape(s) && Queues(s.ready, s.index, s.stat, s.prio) && s.index.group != {}
    ensures p < |s.ready| && s.ready[p] != [] && s.ready[p][0] < |s.stat|
    ensures forall q | 0 <= q < p :: s.ready[q] == []
  {
    LookupIsScan(s.index, s.ready);
    var p := Find(s.index);
    assert Tidy(s.ready[p], |s.stat|);
    p
  }

  // ----- steps -----

  predicate Stays(s: Up, best: nat)
    requires |s.yielded| == |s.prio| == |s.stat| && Started(s)
  {
    && s.stat[s.current] == Running
    && (s.prio[s.current] < best || (s.prio[s.current] == best && !s.yielded[s.current]))
  }

  /** `rt_schedule` */
  function Schedule(s: Up): Up
    requires Inv(s) && Started(s)
  {
    if s.nest != 0 then s.(pending := true)
    else if s.index.group == {} then s
    else if Stays(s, Best(s)) then Delist(s, s.current).(stat := s.stat[s.current := Running])
    else SwitchTo(s, s.ready[Best(s)][0])
  }

  function SwitchTo(s: Up, to: nat): Up
    requires Shape(s) && Started(s) && to < |s.stat|
  {
    var cur := s.current;
    var a := s.(current := to);
    var b := if s.stat[cur] == Running then Insert(a, cur) else a;
    var c := Delist(b.(yielded := b.yielded[cur := false]), to);
    c.(stat := c.stat[to := Running])
  }

  /** `rt_system_scheduler_start` */
  function Start(s: Up): Up
    requires Inv(s) && s.index.group != {}
  {
    var to := s.ready[Best(s)][0];
    var d := Delist(s.(current := to, pending := false), to);
    d.(stat := d.stat[to := Running], yielded := d.yielded[to := false])
  }

  /** `rt_sched_thread_startup` */
  function Startup(s: Up, t: nat): Up
    requires Shape(s) && t < |s.stat|
  {
    s.(stat := s.stat[t := Suspended], yielded := s.yielded[t := false])
  }

  /** `rt_thread_suspend_to_list`; unlike on several cores the yield flag stays. */
  function Suspend(s: Up, t: nat): Up
    requires Shape(s) && t < |s.stat|
  {
    if s.stat[t] == Ready || s.stat[t] == Running then Delist(s, t).(stat := s.stat[t := Suspended]) else s
  }

  /** `rt_sched_thread_ready` */
  function Resume(s: Up, t: nat): Up
    requires Shape(s) && t < |s.stat|
  {
    if s.stat[t] == Suspended then Insert(s, t) else s
  }

  /** `_rt_sched_update_priority` */
  function SetPriority(s: Up, t: nat, p: nat): Up
    requires Shape(s) && t < |s.stat| && p < |s.ready|
  {
    if s.stat[t] == Ready then
      var d := Delist(s, t);
      Insert(d.(prio := s.prio[t := p], stat := s.stat[t := Initial], yielded := s.yielded[t := false]), t)
    else s.(prio := s.prio[t := p])
  }

  /** `rt_sched_thread_yield` of the current thread. */
  function Yield(s: Up): Up
    requires Shape(s) && Started(s)
  {
    s.(remaining := s.remaining[s.current := s.slice[s.current]], yielded := s.yielded[s.current := true])
  }

  function Elapse(s: Up, ticks: nat): Up
    requires Shape(s) && Started(s)
  {
    var left := s.remaining[s.current];
    s.(remaining := s.remaining[s.current := if left > ticks then left - ticks else 0])
  }

  /** `rt_sched_tick_increase`: when nothing is left of the slice, yield and schedule. */
  function Tick(s: Up, ticks: nat): Up
    requires Inv(s) && Started(s)
  {
    var e := Elapse(s, ticks);
    if e.remaining[s.current] > 0 then e else Schedule(Yield(e))
  }

  /** `rt_enter_critical` */
  function Enter(s: Up): Up {
    s.(nest := s.nest + 1)
  }

  /** The part of `rt_exit_critical` that runs with interrupts disabled. */
  function Leave(s: Up): Up {
    s.(nest := if s.nest <= 1 then 0 else s.nest - 1)
  }

  /** What `rt_exit_critical` goes on to do once the nesting count is zero, with interrupts enabled again. */
  function Flush(s: Up): Up
    requires Inv(s)
  {
    if s.pending then Schedule(s.(pending := false)) else s
  }

  function Exit(s: Up): Up
    requires Inv(s)
  {
    if Leave(s).nest == 0 then Flush(Leave(s)) else Leave(s)
  }

  // ----- what the queue operations keep -----

  lemma DelistUnlisted(s: Up, t: nat)
    requires Shape(s) && Queues(s.ready, s.index, s.stat, s.prio) && t < |s.stat| && s.stat[t] != Ready
    ensures Delist(s, t) == s
  {
    hide Find;
    var p := s.prio[t];
    assert Placed(s.ready, s.stat[t], p, t);
    assert s.ready[p := s.ready[p]] == s.ready;
    if s.ready[p] == [] {
      UnmarkedStays(s.index, p);
    }
  }

  lemma UnmarkedStays(x: Index, p: nat)
    requires WellFormed(x) && p < (if x.TwoLevel? then 256 else 32) && !Marked(x, p)
    ensures Unmark(x, p) == x
  {
    if x.TwoLevel? {
      assert x.table[p / 8] - {p % 8} == x.table[p / 8];
      assert x.table[p / 8 := x.table[p / 8]] == x.table;
    }
  }

  lemma AgreesAfter(x: Index, y: Index, ready: seq<seq<nat>>, p: nat, q: seq<nat>)
    requires Agrees(x, ready) && p < |ready| && WellFormed(y) && x.TwoLevel? == y.TwoLevel?
    requires forall r: nat :: Marked(y, r) <==> if r == p then q != [] else Marked(x, r)
    ensures Agrees(y, ready[p := q])
  {
    hide WellFormed, Marked;
  }

  lemma DelistKeeps(s: Up, t: nat, stat: Stat)
    requires Shape(s) && Queues(s.ready, s.index, s.stat, s.prio) && t < |s.stat| && stat != Ready
    ensures var d := Delist(s, t); Queues(d.ready, d.index, s.stat[t := stat], s.prio)
  {
    hide Find, Marked, WellFormed, Remove;
    var p := s.prio[t];
    var q := Remove(s.ready[p], t);
    var d := Delist(s, t);
    assert Tidy(s.ready[p], |s.stat|) && Placed(s.ready, s.stat[t], p, t);
    RemoveNoDup(s.ready[p], t);
    UnmarkKeeps(s.index, p);
    assert Marked(s.index, p) <==> s.ready[p] != [];
    assert q == [] && s.ready[p] == [] ==> !Marked(s.index, p);
    AgreesAfter(s.index, d.index, s.ready, p, q);
    forall i | 0 <= i < |q| ensures q[i] < |s.stat| {
      assert q[i] in q;
    }
    forall u | 0 <= u < |s.stat| ensures Placed(d.ready, s.stat[t := stat][u], s.prio[u], u) {
      assert Placed(s.ready, s.stat[u], s.prio[u], u);
    }
  }

  lemma InsertKeeps(s: Up, t: nat)
    requires Shape(s) && Queues(s.ready, s.index, s.stat, s.prio) && t < |s.stat| && s.stat[t] != Ready
    ensures var r := Insert(s, t); Queues(r.ready, r.index, r.stat, s.prio)
  {
    hide Find, Marked, WellFormed;
    var r := Insert(s, t);
    if t == s.current {
      StatFree(s, t, Running);
    } else {
      var p := s.prio[t];
      assert Tidy(s.ready[p], |s.stat|) && Placed(s.ready, s.stat[t], p, t);
      assert t !in s.ready[p];
      MarkKeeps(s.index, p);
      AgreesAfter(s.index, r.index, s.ready, p, r.ready[p]);
      assert Tidy(r.ready[p], |s.stat|);
      forall u | 0 <= u < |s.stat| ensures Placed(r.ready, r.stat[u], s.prio[u], u) {
        assert Placed(s.ready, s.stat[u], s.prio[u], u);
        assert u in r.ready[p] <==> u == t || u in s.ready[p];
      }
    }
  }

  lemma StatFree(s: Up, t: nat, stat: Stat)
    requires Shape(s) && Queues(s.ready, s.index, s.stat, s.prio) && t < |s.stat| && s.stat[t] != Ready && stat != Ready
    ensures Queues(s.ready, s.index, s.stat[t := stat], s.prio)
  {
    hide Agrees;
    forall u | 0 <= u < |s.stat| ensures Placed(s.ready, s.stat[t := stat][u], s.prio[u], u) {
      assert Placed(s.ready, s.stat[u], s.prio[u], u);
    }
  }

  lemma PrioFree(s: Up, t: nat, p: nat)
    requires Shape(s) && Queues(s.ready, s.index, s.stat, s.prio) && t < |s.stat| && s.stat[t] != Ready && p < |s.ready|
    ensures Queues(s.ready, s.index, s.stat, s.prio[t := p])
  {
    hide Agrees;
    forall u | 0 <= u < |s.stat| ensures Placed(s.ready, s.stat[u], s.prio[t := p][u], u) {
      assert Placed(s.ready, s.stat[u], s.prio[u], u);
    }
  }
}
