/**
 The multi-core scheduler as a state machine whose steps are the regions held under the scheduler
 lock. A thread bound to no CPU has `bind == cpus`, which is also the index of the global ready table;
 a thread on no CPU has `oncpu == cpus`.
 */
module SmpSpec {
  import opened Common
  import opened ThreadState

  datatype Sched = Sched(
    cpus: nat, levels: nat, idle: seq<nat>,
    stat: seq<Stat>, yielded: seq<bool>, oncpu: seq<nat>, bind: seq<nat>, prio: seq<nat>,
    ready: seq<seq<seq<nat>>>, group: seq<set<nat>>, current: seq<nat>)

  ghost predicate Shape(s: Sched) {
    && |s.stat| == |s.yielded| == |s.oncpu| == |s.bind| == |s.prio|
    && |s.ready| == |s.group| == s.cpus + 1 && |s.current| == |s.idle| == s.cpus
    && (forall b | 0 <= b <= s.cpus :: |s.ready[b]| == s.levels)
    && (forall t | 0 <= t < |s.stat| :: s.bind[t] <= s.cpus && s.prio[t] < s.levels && s.oncpu[t] <= s.cpus)
    && (forall c | 0 <= c < s.cpus :: s.current[c] < |s.stat| && s.idle[c] < |s.stat|)
  }

  /** A thread is in a ready queue exactly when it is READY, and then in that of its binding and priority. */
  ghost predicate Placed(s: Sched, t: nat)
    requires Shape(s) && t < |s.stat|
  {
    forall b, p | 0 <= b <= s.cpus && 0 <= p < s.levels ::
      t in s.ready[b][p] <==> s.stat[t] == Ready && b == s.bind[t] && p == s.prio[t]
  }

  /** A priority's bit is set exactly when its queue has someone in it. */
  ghost predicate Indexed(s: Sched, b: nat, p: nat)
    requires Shape(s) && b <= s.cpus && p < s.levels
  {
    && NoDup(s.ready[b][p])
    && (forall i | 0 <= i < |s.ready[b][p]| :: s.ready[b][p][i] < |s.stat|)
    && (p in s.group[b] <==> s.ready[b][p] != [])
  }

  ghost predicate Queues(s: Sched) {
    && Shape(s)
    && (forall t | 0 <= t < |s.stat| :: Placed(s, t))
    && (forall b, p | 0 <= b <= s.cpus && 0 <= p < s.levels :: Indexed(s, b, p))
    && (forall b | 0 <= b <= s.cpus :: forall p | p in s.group[b] :: p < s.levels)
  }

  /** Who is on which CPU. */
  ghost predicate Seated(s: Sched, t: nat)
    requires Shape(s) && t < |s.stat|
  {
    && (s.stat[t] == Ready ==> s.oncpu[t] == s.cpus)
    && (s.stat[t] == Running ==> s.oncpu[t] < s.cpus)
    && (s.oncpu[t] < s.cpus ==> s.current[s.oncpu[t]] == t)
  }

  /** Each CPU has its current thread, and an idle thread bound to it that can always run. */
  ghost predicate Manned(s: Sched, c: nat)
    requires Shape(s) && c < s.cpus
  {
    && s.oncpu[s.current[c]] == c
    && s.bind[s.idle[c]] == c && s.oncpu[s.idle[c]] in {c, s.cpus} && s.stat[s.idle[c]] in {Ready, Running}
  }

  ghost predicate Inv(s: Sched) {
    && Queues(s)
    && (forall t | 0 <= t < |s.stat| :: Seated(s, t))
    && (forall c | 0 <= c < s.cpus :: Manned(s, c))
  }

  // ----- the ready tables -----

  function SetQueue(s: Sched, b: nat, p: nat, q: seq<nat>, bits: set<nat>): Sched
    requires b < |s.ready| && b < |s.group| && p < |s.ready[b]|
  {
    s.(ready := s.ready[b := s.ready[b][p := q]], group := s.group[b := bits])
  }

  /** The last part of `_sched_insert_thread_locked`: behind its equals after a yield, in front of them otherwise. */
  function Enlist(s: Sched, t: nat): Sched
    requires Shape(s) && t < |s.stat|
  {
    var b, p := s.bind[t], s.prio[t];
    var q := if s.yielded[t] then s.ready[b][p] + [t] else [t] + s.ready[b][p];
    SetQueue(s, b, p, q, s.group[b] + {p}).(stat := s.stat[t := Ready])
  }

  /** `_sched_insert_thread_locked`: a thread still on a CPU is only marked as running again. */
  function Insert(s: Sched, t: nat): Sched
    requires Shape(s) && t < |s.stat|
  {
    if s.stat[t] == Ready then s
    else if s.oncpu[t] != s.cpus then s.(stat := s.stat[t := Running])
    else Enlist(s, t)
  }

  /** `_sched_remove_thread_locked`, with the status the caller writes next. */
  function Delist(s: Sched, t: nat, stat: Stat): Sched
    requires Shape(s) && t < |s.stat|
  {
    var b, p := s.bind[t], s.prio[t];
    var q := Remove(s.ready[b][p], t);
    SetQueue(s, b, p, q, if q == [] then s.group[b] - {p} else s.group[b]).(stat := s.stat[t := stat])
  }

  /** Lowest set bit, `levels` (the source's -1, read as unsigned) when there is none. */
  function Lowest(bits: set<nat>, levels: nat): (r: nat)
    requires forall p | p in bits :: p < levels
    ensures r in bits || (bits == {} && r == levels)
    ensures forall p | p in bits :: r <= p
    decreases levels
  {
    if 0 in bits then 0
    else if levels == 0 then 0
    else
      var shifted := set p | p in bits :: p - 1;
      assert bits != {} ==> exists p :: p in bits && p - 1 in shifted;
      assert forall p | p in bits :: p - 1 in shifted;
      1 + Lowest(shifted, levels - 1)
  }

  /** `_scheduler_get_highest_priority_thread`: the local table wins a tie with the global one. */
  function Highest(s: Sched, c: nat): (r: (nat, nat))
    requires Queues(s) && c < s.cpus
    ensures r.1 <= s.levels && r.0 <= s.cpus && (r.0 == c || r.0 == s.cpus)
    ensures forall p | p in s.group[c] || p in s.group[s.cpus] :: r.1 <= p
    ensures r.1 < s.levels <==> s.group[c] != {} || s.group[s.cpus] != {}
    ensures r.1 < s.levels ==> r.1 in s.group[r.0]
  {
    var g := Lowest(s.group[s.cpus], s.levels);
    var l := Lowest(s.group[c], s.levels);
    if g < l then (s.cpus, g) else (c, l)
  }

  // ----- steps -----

  /**
   `_prepare_context_switch_locked` and `rt_sched_post_ctx_switch` on CPU `c`. The lock is held from
   one to the other, so they are one step.
   */
  function Schedule(s: Sched, c: nat): Sched
    requires Inv(s) && c < s.cpus
  {
    if s.group[s.cpus] == {} && s.group[c] == {} then s
    else
      var (table, best) := Highest(s, c);
      assert Indexed(s, table, best);
      var cur := s.current[c];
      var stays := s.stat[cur] == Running && (s.bind[cur] == s.cpus || s.bind[cur] == c)
                   && (s.prio[cur] < best || (s.prio[cur] == best && !s.yielded[cur]));
      if stays then s.(yielded := s.yielded[cur := false])
      else SwitchTo(s, c, s.ready[table][best][0])
  }

  /** Giving CPU `c` to ready thread `to`. */
  function SwitchTo(s: Sched, c: nat, to: nat): Sched
    requires Queues(s) && c < s.cpus && to < |s.stat|
  {
    var cur := s.current[c];
    var d := s.(oncpu := s.oncpu[cur := s.cpus]);
    var e := if s.stat[cur] == Running then Insert(d, cur).(yielded := s.yielded[cur := false]) else d;
    Delist(e.(oncpu := e.oncpu[to := c]), to, Running).(current := s.current[c := to])
  }

  /** `rt_thread_suspend_to_list` called on CPU `c`: a ready thread, or the caller itself. */
  function Suspend(s: Sched, c: nat, t: nat): Sched
    requires Shape(s) && c < s.cpus && t < |s.stat|
  {
    if s.stat[t] == Ready || (s.stat[t] == Running && t == s.current[c]) then
      Delist(s, t, Suspended).(yielded := s.yielded[t := false])
    else s
  }

  /** `rt_sched_thread_ready` */
  function Resume(s: Sched, t: nat): Sched
    requires Shape(s) && t < |s.stat|
  {
    if s.stat[t] != Suspended then s else Insert(s, t)
  }

  /** `rt_sched_thread_bind_cpu`; anything beyond the CPUs means no binding. */
  function Bind(s: Sched, t: nat, cpu: nat): Sched
    requires Shape(s) && t < |s.stat|
  {
    var b := if cpu >= s.cpus then s.cpus else cpu;
    if s.stat[t] == Ready then
      Insert(Delist(s, t, Suspended).(bind := s.bind[t := b], yielded := s.yielded[t := false]), t)
    else s.(bind := s.bind[t := b])
  }

  /** `_rt_sched_update_priority` */
  function SetPriority(s: Sched, t: nat, p: nat): Sched
    requires Shape(s) && t < |s.stat| && p < s.levels
  {
    if s.stat[t] == Ready then
      Insert(Delist(s, t, Initial).(prio := s.prio[t := p], yielded := s.yielded[t := false]), t)
    else s.(prio := s.prio[t := p])
  }

  /** `rt_sched_thread_yield` of the thread on CPU `c`. */
  function Yield(s: Sched, c: nat): Sched
    requires Shape(s) && c < s.cpus
  {
    s.(yielded := s.yielded[s.current[c] := true])
  }

  /** `rt_sched_thread_startup` */
  function Startup(s: Sched, t: nat): Sched
    requires Shape(s) && t < |s.stat|
  {
    s.(stat := s.stat[t := Suspended], yielded := s.yielded[t := false])
  }

  // ----- what the table operations keep -----

  lemma DelistFields(s: Sched, t: nat, was: Stat, stat: Stat)
    requires Shape(s) && t < |s.stat|
    ensures var d := Delist(s, t, was);
      && Shape(d) && d.(stat := d.stat[t := stat]) == Delist(s, t, stat)
      && |d.stat| == |s.stat| && d.bind == s.bind && d.yielded == s.yielded && d.prio == s.prio
      && d.cpus == s.cpus && d.levels == s.levels && d.oncpu == s.oncpu && d.current == s.current && d.idle == s.idle
  {
  }

  lemma EnlistQueues(s: Sched, t: nat)
    requires Queues(s) && t < |s.stat| && s.stat[t] != Ready
    ensures Queues(Enlist(s, t))
  {
    hide Placed, Indexed;
    var r := Enlist(s, t);
    forall u | 0 <= u < |s.stat| ensures Placed(r, u) {
      EnlistPlaced(s, t, u);
    }
    forall b', p' | 0 <= b' <= s.cpus && 0 <= p' < s.levels ensures Indexed(r, b', p') {
      EnlistIndexed(s, t, b', p');
    }
  }

  lemma EnlistPlaced(s: Sched, t: nat, u: nat)
    requires Queues(s) && t < |s.stat| && s.stat[t] != Ready && u < |s.stat|
    ensures Shape(Enlist(s, t)) && Placed(Enlist(s, t), u)
  {
    hide Indexed;
    var r := Enlist(s, t);
    var b, p := s.bind[t], s.prio[t];
    assert Placed(s, u);
    forall b', p' | 0 <= b' <= s.cpus && 0 <= p' < s.levels
      ensures u in r.ready[b'][p'] <==> r.stat[u] == Ready && b' == r.bind[u] && p' == r.prio[u]
    {
      assert u in r.ready[b'][p'] <==> u in s.ready[b'][p'] || (u == t && b' == b && p' == p);
    }
  }

  lemma EnlistIndexed(s: Sched, t: nat, b: nat, p: nat)
    requires Queues(s) && t < |s.stat| && s.stat[t] != Ready && b <= s.cpus && p < s.levels
    ensures Shape(Enlist(s, t)) && Indexed(Enlist(s, t), b, p)
  {
    assert Placed(s, t) && Indexed(s, b, p);
    assert t !in s.ready[s.bind[t]][s.prio[t]];
  }

  lemma DelistQueues(s: Sched, t: nat, stat: Stat)
    requires Queues(s) && t < |s.stat| && stat != Ready
    ensures Queues(Delist(s, t, stat))
  {
    var r := Delist(s, t, stat);
    var b, p := s.bind[t], s.prio[t];
    assert Placed(s, t) && Indexed(s, b, p);
    RemoveNoDup(s.ready[b][p], t);
    forall u | 0 <= u < |s.stat| ensures Placed(r, u) {
      assert Placed(s, u);
      forall b', p' | 0 <= b' <= s.cpus && 0 <= p' < s.levels
        ensures u in r.ready[b'][p'] <==> r.stat[u] == Ready && b' == r.bind[u] && p' == r.prio[u]
      {
        assert u in r.ready[b'][p'] <==> u in s.ready[b'][p'] && !(u == t && b' == b && p' == p);
      }
    }
    forall b', p' | 0 <= b' <= s.cpus && 0 <= p' < s.levels ensures Indexed(r, b', p') {
      assert Indexed(s, b', p');
      var q := Remove(s.ready[b][p], t);
      forall i | 0 <= i < |q| ensures q[i] < |s.stat| {
        assert q[i] in s.ready[b][p];
        var j :| 0 <= j < |s.ready[b][p]| && s.ready[b][p][j] == q[i];
      }
    }
  }

  /** Only READY threads are in queues, so the other fields of a thread that is not may change freely. */
  lemma FrameQueues(s: Sched, r: Sched, t: nat)
    requires Queues(s) && t < |s.stat| && s.stat[t] != Ready && Shape(r)
    requires r.cpus == s.cpus && r.levels == s.levels && |r.stat| == |s.stat| && r.ready == s.ready && r.group == s.group
    requires r.stat[t] != Ready
    requires forall u | 0 <= u < |s.stat| && u != t :: r.stat[u] == s.stat[u] && r.bind[u] == s.bind[u] && r.prio[u] == s.prio[u]
    ensures Queues(r)
  {
    forall u | 0 <= u < |s.stat| ensures Placed(r, u) {
      assert Placed(s, u);
    }
    forall b, p | 0 <= b <= s.cpus && 0 <= p < s.levels ensures Indexed(r, b, p) {
      assert Indexed(s, b, p);
    }
  }

  lemma SameQueues(s: Sched, r: Sched)
    requires Queues(s) && Shape(r)
    requires r.cpus == s.cpus && r.levels == s.levels && r.ready == s.ready && r.group == s.group
    requires r.stat == s.stat && r.bind == s.bind && r.prio == s.prio
    ensures Queues(r)
  {
    forall u | 0 <= u < |s.stat| ensures Placed(r, u) {
      assert Placed(s, u);
    }
    forall b, p | 0 <= b <= s.cpus && 0 <= p < s.levels ensures Indexed(r, b, p) {
      assert Indexed(s, b, p);
    }
  }
}
