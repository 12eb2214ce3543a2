/**
 Priority inheritance of the kernel mutex, as pure functions of one kernel state.

 Threads and mutexes are numbered; every field of a thread or mutex control block is a
 sequence indexed by that number.
 */
module MutexSpec {
  import opened Common

  const NO_PRIORITY: nat := 0xff
  const HOLD_MAX: nat := 0xff

  datatype Status = Ok | Full | TimedOut | NotOwner | Blocked

  datatype Kernel = Kernel(
    initPrio: seq<nat>, curr: seq<nat>, suspended: seq<bool>, pending: seq<Option<nat>>, taken: seq<seq<nat>>,
    owner: seq<Option<nat>>, hold: seq<nat>, mprio: seq<nat>, ceiling: seq<nat>, waiters: seq<seq<nat>>)

  // ----- the two computations the source repeats everywhere -----

  /** What a held mutex asks of its owner: its waiters' priority, at least its ceiling. */
  function Demand(mprio: seq<nat>, ceiling: seq<nat>, m: nat): nat
    requires m < |mprio| && m < |ceiling|
  {
    Min(mprio[m], ceiling[m])
  }

  ghost predicate Below(xs: seq<nat>, n: nat) {
    forall i | 0 <= i < |xs| :: xs[i] < n
  }

  /** The greatest lower bound of `p` and the demands of the mutexes in `ms`. */
  function HeldPrio(p: nat, ms: seq<nat>, mprio: seq<nat>, ceiling: seq<nat>): (r: nat)
    requires Below(ms, |mprio|) && |mprio| == |ceiling|
    ensures r <= p
    ensures forall i | 0 <= i < |ms| :: r <= Demand(mprio, ceiling, ms[i])
    ensures r == p || exists i | 0 <= i < |ms| :: r == Demand(mprio, ceiling, ms[i])
  {
    if ms == [] then p
    else
      var q := if p > Demand(mprio, ceiling, ms[0]) then Demand(mprio, ceiling, ms[0]) else p;
      HeldPrio(q, ms[1..], mprio, ceiling)
  }

  /** Sorted insertion after every waiter that is at least as urgent. */
  function Enqueue(prio: seq<nat>, ws: seq<nat>, t: nat): (r: seq<nat>)
    requires Below(ws, |prio|) && t < |prio|
    ensures Below(r, |prio|)
    ensures forall u :: u in r <==> u == t || u in ws
  {
    if ws == [] then [t]
    else if prio[t] < prio[ws[0]] then [t] + ws
    else
      assert forall u :: u in ws <==> u == ws[0] || u in ws[1..];
      [ws[0]] + Enqueue(prio, ws[1..], t)
  }

  ghost predicate SortedBy(prio: seq<nat>, ws: seq<nat>)
    requires Below(ws, |prio|)
  {
    forall i, j | 0 <= i < j < |ws| :: prio[ws[i]] <= prio[ws[j]]
  }

  function HeadPrio(prio: seq<nat>, ws: seq<nat>): nat
    requires Below(ws, |prio|)
  {
    if ws == [] then NO_PRIORITY else prio[ws[0]]
  }

  lemma ConsSorted(prio: seq<nat>, x: nat, ws: seq<nat>)
    requires Below(ws, |prio|) && x < |prio| && SortedBy(prio, ws) && (ws != [] ==> prio[x] <= prio[ws[0]])
    ensures Below([x] + ws, |prio|) && SortedBy(prio, [x] + ws)
  {
    var r := [x] + ws;
    forall i, j | 0 <= i < j < |r| ensures prio[r[i]] <= prio[r[j]] {
      assert prio[ws[0]] <= prio[ws[j - 1]];
      assert i > 0 ==> prio[ws[i - 1]] <= prio[ws[j - 1]];
    }
  }

  lemma TailSorted(prio: seq<nat>, ws: seq<nat>)
    requires ws != [] && Below(ws, |prio|) && SortedBy(prio, ws)
    ensures Below(ws[1..], |prio|) && SortedBy(prio, ws[1..])
    ensures forall u | u in ws[1..] :: u < |prio| && prio[ws[0]] <= prio[u]
  {
    forall u | u in ws[1..] ensures u < |prio| && prio[ws[0]] <= prio[u] {
      var i :| 0 <= i < |ws[1..]| && ws[1..][i] == u;
      assert ws[i + 1] == u;
    }
  }

  lemma {:induction false} EnqueueSorted(prio: seq<nat>, ws: seq<nat>, t: nat)
    requires Below(ws, |prio|) && t < |prio| && prio[t] <= NO_PRIORITY
    requires SortedBy(prio, ws)
    ensures SortedBy(prio, Enqueue(prio, ws, t))
    ensures HeadPrio(prio, Enqueue(prio, ws, t)) == Min(prio[t], HeadPrio(prio, ws))
    ensures t !in ws && NoDup(ws) ==> NoDup(Enqueue(prio, ws, t))
  {
    hide SortedBy, NoDup;
    if t !in ws && NoDup(ws) {
      EnqueueNoDup(prio, ws, t);
    }
    if ws == [] {
      ConsSorted(prio, t, ws);
      assert [t] + ws == [t];
    } else if prio[t] < prio[ws[0]] {
      ConsSorted(prio, t, ws);
    } else {
      TailSorted(prio, ws);
      EnqueueSorted(prio, ws[1..], t);
      ConsSorted(prio, ws[0], Enqueue(prio, ws[1..], t));
    }
  }

  lemma {:induction false} EnqueueNoDup(prio: seq<nat>, ws: seq<nat>, t: nat)
    requires Below(ws, |prio|) && t < |prio| && t !in ws && NoDup(ws)
    ensures NoDup(Enqueue(prio, ws, t))
  {
    if ws == [] || prio[t] < prio[ws[0]] {
    } else {
      EnqueueNoDup(prio, ws[1..], t);
      var r := Enqueue(prio, ws[1..], t);
      forall j | 0 <= j < |r| ensures r[j] != ws[0] {
        assert r[j] in r;
      }
    }
  }

  /** Where a walk along the queue may be: past `n` waiters that are at least as urgent. */
  ghost predicate Past(prio: seq<nat>, ws: seq<nat>, t: nat, n: nat)
    requires Below(ws, |prio|) && t < |prio|
  {
    n <= |ws| && Below(ws[n..], |prio|) && Enqueue(prio, ws, t) == ws[..n] + Enqueue(prio, ws[n..], t)
  }

  lemma PastNone(prio: seq<nat>, ws: seq<nat>, t: nat)
    requires Below(ws, |prio|) && t < |prio|
    ensures Past(prio, ws, t, 0)
  {
    hide Enqueue;
    assert ws[0..] == ws;
  }

  lemma PastNext(prio: seq<nat>, ws: seq<nat>, t: nat, n: nat)
    requires Below(ws, |prio|) && t < |prio| && Past(prio, ws, t, n) && n < |ws| && prio[t] >= prio[ws[n]]
    ensures Past(prio, ws, t, n + 1)
  {
    assert ws[n..][1..] == ws[n + 1..];
    assert ws[..n] + [ws[n]] == ws[..n + 1];
  }

  lemma PastStop(prio: seq<nat>, ws: seq<nat>, t: nat, n: nat)
    requires Below(ws, |prio|) && t < |prio| && Past(prio, ws, t, n) && (n < |ws| ==> prio[t] < prio[ws[n]])
    ensures n <= |ws| && Enqueue(prio, ws, t) == ws[..n] + [t] + ws[n..]
  {
    assert Enqueue(prio, ws[n..], t) == [t] + ws[n..];
  }

  /** First come, first served among equals: `t` ends up behind all its equals. */
  lemma {:induction false} EnqueuePosition(prio: seq<nat>, ws: seq<nat>, t: nat) returns (k: nat)
    requires Below(ws, |prio|) && t < |prio|
    requires SortedBy(prio, ws)
    ensures k <= |ws| && Enqueue(prio, ws, t) == ws[..k] + [t] + ws[k..]
    ensures forall i | 0 <= i < k :: prio[ws[i]] <= prio[t]
    ensures forall i | k <= i < |ws| :: prio[t] < prio[ws[i]]
  {
    if ws == [] || prio[t] < prio[ws[0]] {
      k := 0;
    } else {
      var j := EnqueuePosition(prio, ws[1..], t);
      k := j + 1;
      assert ws[..k] == [ws[0]] + ws[1..][..j];
      assert ws[k..] == ws[1..][j..];
    }
  }

  lemma {:induction false} RemoveSorted(prio: seq<nat>, ws: seq<nat>, t: nat)
    requires Below(ws, |prio|) && SortedBy(prio, ws)
    ensures Below(Remove(ws, t), |prio|) && SortedBy(prio, Remove(ws, t))
  {
    hide SortedBy;
    if ws == [] {
    } else {
      TailSorted(prio, ws);
      if ws[0] != t {
        RemoveSorted(prio, ws[1..], t);
        var r := Remove(ws[1..], t);
        assert r != [] ==> r[0] in r;
        ConsSorted(prio, ws[0], r);
      }
    }
  }

  lemma RemoveHead(prio: seq<nat>, ws: seq<nat>, t: nat)
    requires Below(ws, |prio|) && SortedBy(prio, ws) && t in ws
    requires forall u | u in ws :: prio[u] <= NO_PRIORITY
    ensures Below(Remove(ws, t), |prio|)
    ensures HeadPrio(prio, ws) == Min(prio[t], HeadPrio(prio, Remove(ws, t)))
  {
    RemoveBelow(ws, t, |prio|);
    var k :| 0 <= k < |ws| && ws[k] == t;
    assert prio[ws[0]] <= prio[ws[k]];
    var rest := Remove(ws, t);
    if rest != [] {
      assert rest[0] in ws;
      assert ws[0] == t || rest[0] == ws[0];
    }
  }

  lemma RemoveBelow(ws: seq<nat>, t: nat, n: nat)
    requires Below(ws, n)
    ensures Below(Remove(ws, t), n)
  {
    var r := Remove(ws, t);
    forall i | 0 <= i < |r| ensures r[i] < n {
      assert r[i] in ws;
    }
  }

  // ----- the invariant -----

  ghost predicate Shape(s: Kernel) {
    && |s.initPrio| == |s.curr| == |s.suspended| == |s.pending| == |s.taken|
    && |s.owner| == |s.hold| == |s.mprio| == |s.ceiling| == |s.waiters|
    && (forall t | 0 <= t < |s.curr| :: s.initPrio[t] <= NO_PRIORITY && s.curr[t] <= NO_PRIORITY)
    && (forall t | 0 <= t < |s.pending| :: s.pending[t].Some? ==> s.pending[t].value < |s.owner|)
    && (forall t | 0 <= t < |s.taken| :: Below(s.taken[t], |s.owner|))
    && (forall m | 0 <= m < |s.owner| :: s.owner[m].Some? ==> s.owner[m].value < |s.curr|)
    && (forall m | 0 <= m < |s.waiters| :: Below(s.waiters[m], |s.curr|))
  }

  /** The mutex a thread is queued on: `pending_object` counts only while suspended. */
  function Waits(s: Kernel, t: nat): Option<nat>
    requires t < |s.suspended| && t < |s.pending|
  {
    if s.suspended[t] then s.pending[t] else None
  }

  /** A thread is in the queue of exactly the mutex it waits for, once. */
  ghost predicate WaitLinks(s: Kernel)
    requires Shape(s)
  {
    && (forall t, m | 0 <= t < |s.curr| && 0 <= m < |s.owner| :: t in s.waiters[m] <==> Waits(s, t) == Some(m))
    && (forall m | 0 <= m < |s.owner| :: NoDup(s.waiters[m]))
  }

  /** A thread's list of taken mutexes holds exactly those it owns, once each. */
  ghost predicate HoldLinks(s: Kernel)
    requires Shape(s)
  {
    && (forall t, m | 0 <= t < |s.curr| && 0 <= m < |s.owner| :: m in s.taken[t] <==> s.owner[m] == Some(t))
    && (forall t | 0 <= t < |s.curr| :: NoDup(s.taken[t]))
    && (forall m | 0 <= m < |s.owner| :: s.owner[m].None? <==> s.hold[m] == 0)
  }

  ghost predicate Linked(s: Kernel)
    requires Shape(s)
  {
    && WaitLinks(s) && HoldLinks(s)
    && (forall m | 0 <= m < |s.owner| :: s.waiters[m] != [] ==> s.owner[m].Some?)
    && (forall t | 0 <= t < |s.curr| && Waits(s, t).Some? :: s.owner[Waits(s, t).value] != Some(t))
  }

  /** `_thread_get_mutex_priority`: initial priority and the demands of everything held. */
  function Target(s: Kernel, t: nat): nat
    requires |s.initPrio| == |s.taken| && t < |s.taken| && Below(s.taken[t], |s.mprio|) && |s.mprio| == |s.ceiling|
  {
    HeldPrio(s.initPrio[t], s.taken[t], s.mprio, s.ceiling)
  }

  ghost predicate Queued(s: Kernel, m: nat)
    requires Shape(s) && m < |s.waiters|
  {
    SortedBy(s.curr, s.waiters[m]) && s.mprio[m] == HeadPrio(s.curr, s.waiters[m])
  }

  ghost predicate Exact(s: Kernel, t: nat)
    requires Shape(s) && t < |s.curr|
  {
    s.curr[t] == Target(s, t)
  }

  /** Everything but the exactness of thread `t`. */
  ghost predicate ExactExcept(s: Kernel, t: nat) {
    && Shape(s) && Linked(s) && t < |s.curr|
    && (forall m | 0 <= m < |s.owner| :: Queued(s, m))
    && (forall u | 0 <= u < |s.curr| && u != t :: Exact(s, u))
  }

  ghost predicate Inv(s: Kernel) {
    && Shape(s) && Linked(s)
    && (forall m | 0 <= m < |s.owner| :: Queued(s, m))
    && (forall u | 0 <= u < |s.curr| :: Exact(s, u))
  }

  /**
   The invariant at the head of the propagation loop: thread `t` has its new priority, but the
   queue it waits in has not been re-sorted yet and that mutex still shows the old priority.
   */
  ghost predicate Stale(s: Kernel, t: nat) {
    && Shape(s) && Linked(s) && t < |s.curr|
    && (forall u | 0 <= u < |s.curr| :: Exact(s, u))
    && (forall m | 0 <= m < |s.owner| && Waits(s, t) != Some(m) :: Queued(s, m))
    && (forall m | 0 <= m < |s.owner| && Waits(s, t) == Some(m) ::
          Below(Remove(s.waiters[m], t), |s.curr|) && SortedBy(s.curr, Remove(s.waiters[m], t)))
  }

  /** Priorities of the chain move one way only: up when boosting, down when restoring. */
  ghost predicate OneWay(s: Kernel, t: nat, boost: bool)
    requires Stale(s, t)
  {
    forall m | 0 <= m < |s.owner| && Waits(s, t) == Some(m) ::
      var head := Min(s.curr[t], HeadPrio(s.curr, Remove(s.waiters[m], t)));
      if boost then head <= s.mprio[m] else s.mprio[m] <= head
  }

  // ----- propagation -----

  function Requeue(s: Kernel, t: nat, m: nat): Kernel
    requires Shape(s) && t < |s.curr| && m < |s.owner| && Below(Remove(s.waiters[m], t), |s.curr|)
  {
    var ws := Enqueue(s.curr, Remove(s.waiters[m], t), t);
    s.(waiters := s.waiters[m := ws], mprio := s.mprio[m := HeadPrio(s.curr, ws)])
  }

  /** Nobody but `o` holds `m`, so a new priority of `m` changes no other thread's target. */
  lemma TargetFrame(s: Kernel, r: Kernel, m: nat, u: nat)
    requires Shape(s) && Linked(s) && Shape(r) && u < |s.curr| && m < |s.owner|
    requires r.taken == s.taken && r.initPrio == s.initPrio && r.ceiling == s.ceiling && |r.mprio| == |s.mprio|
    requires forall k | 0 <= k < |s.mprio| && k != m :: r.mprio[k] == s.mprio[k]
    requires s.owner[m] != Some(u)
    ensures Target(r, u) == Target(s, u)
  {
    forall i | 0 <= i < |s.taken[u]| ensures s.taken[u][i] != m {
      assert s.taken[u][i] in s.taken[u];
    }
    HeldFrame(s.initPrio[u], s.taken[u], s.mprio, r.mprio, s.ceiling);
  }

  lemma {:induction false} HeldFrame(p: nat, ms: seq<nat>, mprio: seq<nat>, mprio': seq<nat>, ceiling: seq<nat>)
    requires |mprio| == |mprio'| == |ceiling| && Below(ms, |mprio|)
    requires forall i | 0 <= i < |ms| :: mprio[ms[i]] == mprio'[ms[i]]
    ensures HeldPrio(p, ms, mprio, ceiling) == HeldPrio(p, ms, mprio', ceiling)
  {
    if ms == [] {
    } else {
      assert mprio[ms[0]] == mprio'[ms[0]];
      assert forall i | 0 <= i < |ms[1..]| :: ms[1..][i] == ms[i + 1];
      HeldFrame(Min(p, Demand(mprio, ceiling, ms[0])), ms[1..], mprio, mprio', ceiling);
    }
  }

  lemma HeldMonotone(p: nat, ms: seq<nat>, lo: seq<nat>, hi: seq<nat>, ceiling: seq<nat>)
    requires |lo| == |hi| == |ceiling| && Below(ms, |lo|)
    requires forall i | 0 <= i < |lo| :: lo[i] <= hi[i]
    ensures HeldPrio(p, ms, lo, ceiling) <= HeldPrio(p, ms, hi, ceiling)
  {
    var r := HeldPrio(p, ms, hi, ceiling);
    if r != p {
      var i :| 0 <= i < |ms| && r == Demand(hi, ceiling, ms[i]);
      assert HeldPrio(p, ms, lo, ceiling) <= Demand(lo, ceiling, ms[i]);
    }
  }

  lemma RequeueLinked(s: Kernel, t: nat, m: nat)
    requires Stale(s, t) && m < |s.owner| && Waits(s, t) == Some(m)
    ensures Shape(Requeue(s, t, m)) && Linked(Requeue(s, t, m)) && Queued(Requeue(s, t, m), m)
    ensures Requeue(s, t, m).mprio[m] == Min(s.curr[t], HeadPrio(s.curr, Remove(s.waiters[m], t)))
    ensures s.owner[m].Some? && s.owner[m].value != t
  {
    hide Enqueue, Remove, NoDup, SortedBy, HeadPrio, Exact, WaitLinks, Queued;
    RequeueQueued(s, t, m);
    RequeueWaits(s, t, m);
    WaitedFor(s, t, m);
    assert HoldLinks(Requeue(s, t, m));
  }

  lemma RequeueQueued(s: Kernel, t: nat, m: nat)
    requires Stale(s, t) && m < |s.owner| && Waits(s, t) == Some(m)
    ensures Shape(Requeue(s, t, m)) && Queued(Requeue(s, t, m), m)
    ensures Requeue(s, t, m).mprio[m] == Min(s.curr[t], HeadPrio(s.curr, Remove(s.waiters[m], t)))
  {
    hide Enqueue, Remove, NoDup, SortedBy, Exact, Linked;
    EnqueueSorted(s.curr, Remove(s.waiters[m], t), t);
  }

  lemma WaitedFor(s: Kernel, t: nat, m: nat)
    requires Shape(s) && Linked(s) && t < |s.curr| && m < |s.owner| && Waits(s, t) == Some(m)
    ensures t in s.waiters[m] && s.waiters[m] != [] && s.owner[m].Some? && s.owner[m].value != t
  {
    hide HoldLinks;
  }

  lemma RequeueWaits(s: Kernel, t: nat, m: nat)
    requires Stale(s, t) && m < |s.owner| && Waits(s, t) == Some(m) && Shape(Requeue(s, t, m))
    ensures WaitLinks(Requeue(s, t, m)) && forall u | 0 <= u < |s.curr| :: Waits(Requeue(s, t, m), u) == Waits(s, u)
  {
    hide Enqueue, Remove, NoDup, SortedBy, HeadPrio, Exact, HoldLinks, Queued;
    var r := Requeue(s, t, m);
    RemoveNoDup(s.waiters[m], t);
    EnqueueSorted(s.curr, Remove(s.waiters[m], t), t);
    assert t in s.waiters[m];
    forall u, k | 0 <= u < |s.curr| && 0 <= k < |s.owner|
      ensures u in r.waiters[k] <==> Waits(r, u) == Some(k)
    {
      assert u in s.waiters[k] <==> Waits(s, u) == Some(k);
    }
  }

  lemma RequeueKeeps(s: Kernel, t: nat, m: nat, boost: bool)
    requires Stale(s, t) && m < |s.owner| && Waits(s, t) == Some(m) && OneWay(s, t, boost)
    ensures s.owner[m].Some? && s.owner[m].value != t
    ensures ExactExcept(Requeue(s, t, m), s.owner[m].value)
    ensures var r := Requeue(s, t, m); var o := s.owner[m].value;
      if boost then Target(r, o) <= r.curr[o] else r.curr[o] <= Target(r, o)
  {
    hide HoldLinks;
    RequeueLinked(s, t, m);
    var r := Requeue(s, t, m);
    var o := s.owner[m].value;
    forall k | 0 <= k < |s.owner| ensures Queued(r, k) {
      if k != m { assert Queued(s, k); }
    }
    forall u | 0 <= u < |s.curr| && u != o ensures Exact(r, u) {
      TargetFrame(s, r, m, u);
      assert Exact(s, u);
    }
    assert Exact(s, o);
    if boost {
      HeldMonotone(s.initPrio[o], s.taken[o], r.mprio, s.mprio, s.ceiling);
    } else {
      HeldMonotone(s.initPrio[o], s.taken[o], s.mprio, r.mprio, s.ceiling);
    }
  }

  lemma ChangeQueue(s: Kernel, t: nat, k: nat, p: nat)
    requires Shape(s) && Linked(s) && t < |s.curr| && k < |s.owner| && Queued(s, k) && Waits(s, t) == Some(k)
    ensures var c := s.curr[t := p]; var rest := Remove(s.waiters[k], t);
      && Below(rest, |s.curr|) && SortedBy(c, rest) && HeadPrio(c, rest) == HeadPrio(s.curr, rest)
      && s.mprio[k] == Min(s.curr[t], HeadPrio(c, rest))
  {
    RemoveSorted(s.curr, s.waiters[k], t);
    RemoveNoDup(s.waiters[k], t);
    assert t in s.waiters[k];
    var rest := Remove(s.waiters[k], t);
    forall i | 0 <= i < |rest| ensures rest[i] != t {
      assert rest[i] in rest;
    }
    forall u | u in s.waiters[k] ensures s.curr[u] <= NO_PRIORITY {
      var i :| 0 <= i < |s.waiters[k]| && s.waiters[k][i] == u;
    }
    RemoveHead(s.curr, s.waiters[k], t);
  }

  lemma ChangeKeeps(s: Kernel, t: nat, boost: bool)
    requires ExactExcept(s, t)
    requires if boost then Target(s, t) <= s.curr[t] else s.curr[t] <= Target(s, t)
    ensures Target(s, t) <= NO_PRIORITY
    ensures var r := s.(curr := s.curr[t := Target(s, t)]); Stale(r, t) && OneWay(r, t, boost)
  {
    hide Demand;
    var r := s.(curr := s.curr[t := Target(s, t)]);
    assert Shape(r);
    assert Linked(r) by {
      assert forall u | 0 <= u < |s.curr| :: Waits(r, u) == Waits(s, u);
    }
    forall u | 0 <= u < |s.curr| ensures Exact(r, u) {
      if u != t { assert Exact(s, u); }
    }
    forall k | 0 <= k < |s.owner| && Waits(r, t) != Some(k) ensures Queued(r, k) {
      assert Queued(s, k);
      assert t !in s.waiters[k];
      assert forall i | 0 <= i < |s.waiters[k]| :: s.waiters[k][i] in s.waiters[k];
    }
    forall k | 0 <= k < |s.owner| && Waits(r, t) == Some(k)
      ensures Below(Remove(r.waiters[k], t), |s.curr|) && SortedBy(r.curr, Remove(r.waiters[k], t))
      ensures var head := Min(r.curr[t], HeadPrio(r.curr, Remove(r.waiters[k], t)));
        if boost then head <= r.mprio[k] else r.mprio[k] <= head
    {
      assert Queued(s, k);
      ChangeQueue(s, t, k, Target(s, t));
    }
  }

  /** Sum of current priorities, read in the direction the chain moves. */
  ghost function Measure(s: Kernel, boost: bool): int {
    if boost then Sum(s.curr) else NO_PRIORITY * |s.curr| - Sum(s.curr)
  }

  lemma MeasureDrops(s: Kernel, o: nat, q: nat, boost: bool)
    requires o < |s.curr| && q <= NO_PRIORITY && (if boost then q < s.curr[o] else s.curr[o] < q)
    requires forall i | 0 <= i < |s.curr| :: s.curr[i] <= NO_PRIORITY
    ensures 0 <= Measure(s.(curr := s.curr[o := q]), boost) < Measure(s, boost)
  {
    SumUpdate(s.curr, o, q);
    SumBound(s.curr[o := q], NO_PRIORITY);
  }

  /** After one pass either everything is exact, or the owner is the one whose priority has just changed. */
  lemma PassKeeps(s: Kernel, t: nat, m: nat, boost: bool)
    requires Stale(s, t) && OneWay(s, t, boost) && m < |s.owner| && Waits(s, t) == Some(m)
    ensures Below(Remove(s.waiters[m], t), |s.curr|) && s.owner[m].Some? && s.owner[m].value < |s.curr|
    ensures var r, o := Requeue(s, t, m), s.owner[m].value;
      && Shape(r)
      && var q := Target(r, o);
         if q == r.curr[o] then Inv(r)
         else
           var c := r.(curr := r.curr[o := q]);
           Stale(c, o) && OneWay(c, o, boost) && 0 <= Measure(c, boost) < Measure(s, boost)
  {
    RequeueKeeps(s, t, m, boost);
    var r, o := Requeue(s, t, m), s.owner[m].value;
    if Target(r, o) != r.curr[o] {
      ChangeKeeps(r, o, boost);
      MeasureDrops(r, o, Target(r, o), boost);
    } else {
      assert Exact(r, o);
    }
  }

  /**
   The loop of `_thread_update_priority`. It is total on every wait graph, cyclic ones included:
   each continuing pass strictly moves the sum of priorities one way.
   */
  ghost function Propagate(s: Kernel, t: nat, boost: bool): (r: Kernel)
    requires Stale(s, t) && OneWay(s, t, boost)
    ensures Inv(r)
    ensures r == s.(curr := r.curr, waiters := r.waiters, mprio := r.mprio)
    decreases Measure(s, boost)
  {
    match Waits(s, t)
    case None => s
    case Some(m) =>
      PassKeeps(s, t, m, boost);
      var r := Requeue(s, t, m);
      var o := s.owner[m].value;
      if Target(r, o) == r.curr[o] then r
      else
        Propagate(r.(curr := r.curr[o := Target(r, o)]), o, boost)
  }

  /** One pass either settles the propagation or leaves the same propagation to do from the owner. */
  lemma OnePass(s: Kernel, t: nat, m: nat, boost: bool)
    requires Stale(s, t) && OneWay(s, t, boost) && m < |s.owner| && Waits(s, t) == Some(m)
    ensures var r := Requeue(s, t, m);
      && Shape(r) && s.owner[m].Some? && s.owner[m].value < |s.curr|
      && var o := s.owner[m].value;
         var q := Target(r, o);
         if q == r.curr[o] then Propagate(s, t, boost) == r
         else
           var c := r.(curr := r.curr[o := q]);
           && Stale(c, o) && OneWay(c, o, boost) && Propagate(c, o, boost) == Propagate(s, t, boost)
           && 0 <= Measure(c, boost) < Measure(s, boost)
  {
    hide Linked, Queued, Exact, Requeue, Measure;
    PassKeeps(s, t, m, boost);
  }

  /** What is left of a propagation that ends in `goal`. */
  ghost predicate OnItsWay(s: Kernel, t: nat, boost: bool, goal: Kernel) {
    Stale(s, t) && OneWay(s, t, boost) && Propagate(s, t, boost) == goal
  }

  lemma Arrived(s: Kernel, t: nat, boost: bool, goal: Kernel)
    requires OnItsWay(s, t, boost, goal)
    ensures Shape(s) && t < |s.curr| && (Waits(s, t) == None ==> s == goal)
  {
  }

  lemma OnePassOn(s: Kernel, t: nat, m: nat, boost: bool, goal: Kernel)
    requires OnItsWay(s, t, boost, goal) && Shape(s) && t < |s.curr| && m < |s.owner| && Waits(s, t) == Some(m)
    ensures Below(Remove(s.waiters[m], t), |s.curr|)
    ensures var r := Requeue(s, t, m);
      && Shape(r) && s.owner[m].Some? && s.owner[m].value < |s.curr|
      && var o := s.owner[m].value;
         var q := Target(r, o);
         if q == r.curr[o] then r == goal
         else
           var c := r.(curr := r.curr[o := q]);
           OnItsWay(c, o, boost, goal) && 0 <= Measure(c, boost) < Measure(s, boost)
  {
    hide Linked, Queued, Exact, Requeue;
    OnePass(s, t, m, boost);
  }

  /** `_thread_update_priority` on a thread whose exactness alone was lost. */
  ghost function Refresh(s: Kernel, t: nat): (r: Kernel)
    requires ExactExcept(s, t)
    ensures Inv(r)
    ensures r == s.(curr := r.curr, waiters := r.waiters, mprio := r.mprio)
  {
    var boost := Target(s, t) <= s.curr[t];
    ChangeKeeps(s, t, boost);
    Propagate(s.(curr := s.curr[t := Target(s, t)]), t, boost)
  }

  lemma SetOff(s: Kernel, t: nat, boost: bool, c: Kernel)
    requires ExactExcept(s, t) && boost == (Target(s, t) <= s.curr[t]) && c == s.(curr := s.curr[t := Target(s, t)])
    ensures OnItsWay(c, t, boost, Refresh(s, t))
  {
    hide Linked, Queued, Exact;
    ChangeKeeps(s, t, boost);
  }

  // ----- operations -----

  ghost predicate Running(s: Kernel, t: nat)
    requires Shape(s)
  {
    t < |s.curr| && !s.suspended[t]
  }

  /** The mutex that a thread would block on becomes its pending object and its place in the queue is taken. */
  ghost function Suspend(s: Kernel, t: nat, m: nat): Kernel
    requires Shape(s) && t < |s.curr| && m < |s.owner|
  {
    s.(suspended := s.suspended[t := true], pending := s.pending[t := Some(m)],
       waiters := s.waiters[m := Enqueue(s.curr, s.waiters[m], t)])
  }

  lemma SuspendLinked(s: Kernel, t: nat, m: nat)
    requires Inv(s) && Running(s, t) && m < |s.owner| && s.owner[m].Some? && s.owner[m] != Some(t)
    ensures Shape(Suspend(s, t, m)) && Linked(Suspend(s, t, m))
  {
    hide Enqueue, Below, Target;
    var r := Suspend(s, t, m);
    assert Waits(s, t) == None;
    assert t !in s.waiters[m];
    assert Queued(s, m);
    EnqueueSorted(s.curr, s.waiters[m], t);
    assert Waits(r, t) == Some(m);
    assert forall u | 0 <= u < |s.curr| && u != t :: Waits(r, u) == Waits(s, u);
    assert HoldLinks(r);
    assert WaitLinks(r) by {
      forall u, k | 0 <= u < |s.curr| && 0 <= k < |s.owner|
        ensures u in r.waiters[k] <==> Waits(r, u) == Some(k)
      {
        assert u in s.waiters[k] <==> Waits(s, u) == Some(k);
      }
    }
  }

  /** Behind its new waiter, mutex `m` shows the more urgent of the two priorities. */
  ghost function Shown(s: Kernel, t: nat, m: nat): Kernel
    requires Shape(s) && t < |s.curr| && m < |s.owner|
  {
    Suspend(s, t, m).(mprio := s.mprio[m := Min(s.curr[t], s.mprio[m])])
  }

  lemma ShownLinked(s: Kernel, t: nat, m: nat)
    requires Inv(s) && Running(s, t) && m < |s.owner| && s.owner[m].Some? && s.owner[m] != Some(t)
    ensures Shape(Shown(s, t, m)) && Linked(Shown(s, t, m))
  {
    hide Queued, Exact, Enqueue;
    SuspendLinked(s, t, m);
    var r, b := Suspend(s, t, m), Shown(s, t, m);
    assert forall u | 0 <= u < |s.curr| :: Waits(b, u) == Waits(r, u);
    assert WaitLinks(b);
    assert HoldLinks(b);
  }

  lemma ShownQueued(s: Kernel, t: nat, m: nat, k: nat)
    requires Inv(s) && Running(s, t) && m < |s.owner| && Shape(Shown(s, t, m)) && k < |s.owner|
    ensures Queued(Shown(s, t, m), k)
  {
    hide Linked, Exact;
    assert Queued(s, k) && Queued(s, m);
    EnqueueSorted(s.curr, s.waiters[m], t);
  }

  lemma ShownExact(s: Kernel, t: nat, m: nat, u: nat)
    requires Inv(s) && t < |s.curr| && m < |s.owner| && Shape(Shown(s, t, m)) && u < |s.curr| && s.owner[m] != Some(u)
    ensures Exact(Shown(s, t, m), u)
  {
    hide Queued, Linked;
    TargetFrame(s, Shown(s, t, m), m, u);
    assert Exact(s, u);
  }

  lemma SuspendKeeps(s: Kernel, t: nat, m: nat)
    requires Inv(s) && Running(s, t) && m < |s.owner| && s.owner[m].Some? && s.owner[m] != Some(t)
    ensures var r := Suspend(s, t, m); var o := s.owner[m].value;
      var b := r.(mprio := r.mprio[m := Min(s.curr[t], s.mprio[m])]);
      && ExactExcept(b, o)
      && Target(b, o) == Min(s.curr[o], Min(s.curr[t], s.mprio[m]))
  {
    hide Queued, WaitLinks;
    var o, p := s.owner[m].value, Min(s.curr[t], s.mprio[m]);
    ShownLinked(s, t, m);
    forall k | 0 <= k < |s.owner| ensures Queued(Shown(s, t, m), k) {
      ShownQueued(s, t, m, k);
    }
    forall u | 0 <= u < |s.curr| && u != o ensures Exact(Shown(s, t, m), u) {
      ShownExact(s, t, m, u);
    }
    assert Exact(s, o);
    assert m in s.taken[o];
    HeldLowered(s.initPrio[o], s.taken[o], s.mprio, s.ceiling, m, p);
  }

  /** Lowering one held mutex to `p` lowers the bound to `p`, if it was higher. */
  lemma HeldLowered(q: nat, ms: seq<nat>, mprio: seq<nat>, ceiling: seq<nat>, m: nat, p: nat)
    requires Below(ms, |mprio|) && |mprio| == |ceiling| && m in ms && m < |mprio| && p <= mprio[m]
    ensures HeldPrio(q, ms, mprio[m := p], ceiling) == Min(HeldPrio(q, ms, mprio, ceiling), p)
  {
    var lo := mprio[m := p];
    HeldMonotone(q, ms, lo, mprio, ceiling);
    var a, b := HeldPrio(q, ms, lo, ceiling), HeldPrio(q, ms, mprio, ceiling);
    var k :| 0 <= k < |ms| && ms[k] == m;
    assert a <= Demand(lo, ceiling, ms[k]) <= p;
    if a != q {
      var i :| 0 <= i < |ms| && a == Demand(lo, ceiling, ms[i]);
      assert b <= Demand(mprio, ceiling, ms[i]);
    }
  }

  /** The three cases of blocking: only the first leaves something to propagate. */
  lemma BlockKeeps(s: Kernel, t: nat, m: nat)
    requires Inv(s) && Running(s, t) && m < |s.owner| && s.owner[m].Some? && s.owner[m] != Some(t)
    ensures var r := Suspend(s, t, m); var o := s.owner[m].value;
      if s.curr[t] < s.mprio[m] then
        var b := r.(mprio := r.mprio[m := s.curr[t]]);
        ExactExcept(b, o) && (s.curr[o] <= s.curr[t] ==> Inv(b))
      else Inv(r)
  {
    hide Linked, Queued, WaitLinks, HoldLinks, Enqueue;
    SuspendKeeps(s, t, m);
    var r, o := Suspend(s, t, m), s.owner[m].value;
    if s.curr[t] < s.mprio[m] {
      var b := r.(mprio := r.mprio[m := s.curr[t]]);
      assert s.curr[o] <= s.curr[t] ==> Exact(b, o);
    } else {
      assert r.mprio[m := s.mprio[m]] == r.mprio;
      OwnerBound(s, m);
      assert Exact(r, o);
    }
  }

  /** `_rt_mutex_take`, up to the point where the caller continues or has been switched out. */
  ghost function Take(s: Kernel, t: nat, m: nat, wait: bool): (res: (Kernel, Status))
    requires Inv(s) && Running(s, t) && m < |s.owner|
    ensures Inv(res.0)
  {
    if s.owner[m] == Some(t) then
      if s.hold[m] < HOLD_MAX then
        var r := s.(hold := s.hold[m := s.hold[m] + 1]);
        HoldKeeps(s, m, s.hold[m] + 1);
        (r, Ok)
      else (s, Full)
    else if s.owner[m].None? then
      AcquireKeeps(s, t, m);
      (Acquire(s, t, m), Ok)
    else if !wait then (s, TimedOut)
    else
      var r := Suspend(s, t, m);
      var o := s.owner[m].value;
      BlockKeeps(s, t, m);
      if s.curr[t] < s.mprio[m] then
        var b := r.(mprio := r.mprio[m := s.curr[t]]);
        if s.curr[t] < s.curr[o] then (Refresh(b, o), Blocked) else (b, Blocked)
      else (r, Blocked)
  }

  /** An owner is at least as urgent as the mutex it holds. */
  lemma OwnerBound(s: Kernel, m: nat)
    requires Inv(s) && m < |s.owner| && s.owner[m].Some?
    ensures var o := s.owner[m].value; Exact(s, o) && s.curr[o] <= Demand(s.mprio, s.ceiling, m)
  {
    var o := s.owner[m].value;
    assert Exact(s, o);
    assert m in s.taken[o];
    var i :| 0 <= i < |s.taken[o]| && s.taken[o][i] == m;
    assert s.curr[o] <= Demand(s.mprio, s.ceiling, s.taken[o][i]);
  }

  lemma HoldKeeps(s: Kernel, m: nat, h: nat)
    requires Inv(s) && m < |s.owner| && s.owner[m].Some? && h > 0
    ensures Inv(s.(hold := s.hold[m := h]))
  {
    var r := s.(hold := s.hold[m := h]);
    assert forall u | 0 <= u < |s.curr| :: Waits(r, u) == Waits(s, u);
    forall u | 0 <= u < |s.curr| ensures Exact(r, u) { assert Exact(s, u); }
    forall k | 0 <= k < |s.owner| ensures Queued(r, k) { assert Queued(s, k); }
  }

  ghost function Acquire(s: Kernel, t: nat, m: nat): Kernel
    requires Shape(s) && t < |s.curr| && m < |s.owner|
  {
    s.(owner := s.owner[m := Some(t)], hold := s.hold[m := 1], mprio := s.mprio[m := NO_PRIORITY],
       curr := if s.ceiling[m] != 0xff && s.ceiling[m] < s.curr[t] then s.curr[t := s.ceiling[m]] else s.curr,
       taken := s.taken[t := [m] + s.taken[t]])
  }

  /** Adding one more held mutex adds one more demand. */
  lemma HeldAdded(q: nat, ms: seq<nat>, mprio: seq<nat>, ceiling: seq<nat>, m: nat)
    requires Below(ms, |mprio|) && |mprio| == |ceiling| && m < |mprio|
    ensures HeldPrio(q, [m] + ms, mprio, ceiling) == Min(HeldPrio(q, ms, mprio, ceiling), Demand(mprio, ceiling, m))
  {
    var d := Demand(mprio, ceiling, m);
    var all := [m] + ms;
    var a, b := HeldPrio(q, all, mprio, ceiling), HeldPrio(q, ms, mprio, ceiling);
    assert a <= Demand(mprio, ceiling, all[0]);
    if a != q {
      var i :| 0 <= i < |all| && a == Demand(mprio, ceiling, all[i]);
      if i > 0 { assert b <= Demand(mprio, ceiling, ms[i - 1]); }
    }
    if b != q {
      var i :| 0 <= i < |ms| && b == Demand(mprio, ceiling, ms[i]);
      assert a <= Demand(mprio, ceiling, all[i + 1]);
    }
  }

  /** Queues and links that do not mention a running thread survive a change of its priority. */
  lemma QueuedFrame(s: Kernel, r: Kernel, t: nat, k: nat)
    requires Shape(s) && Linked(s) && Shape(r) && k < |s.owner| && |r.owner| == |s.owner| && t < |s.curr|
    requires Queued(s, k) && t !in s.waiters[k]
    requires r.waiters[k] == s.waiters[k] && r.mprio[k] == s.mprio[k] && |r.curr| == |s.curr|
    requires forall u | 0 <= u < |s.curr| && u != t :: r.curr[u] == s.curr[u]
    ensures Queued(r, k)
  {
    assert forall i | 0 <= i < |s.waiters[k]| :: s.waiters[k][i] in s.waiters[k];
  }

  lemma AcquireLinked(s: Kernel, t: nat, m: nat)
    requires Inv(s) && Running(s, t) && m < |s.owner| && s.owner[m].None?
    ensures Shape(Acquire(s, t, m)) && Linked(Acquire(s, t, m))
    ensures s.waiters[m] == [] && s.mprio[m] == NO_PRIORITY
  {
    hide Queued, Exact;
    var r := Acquire(s, t, m);
    NobodyQueued(s, m);
    assert m !in s.taken[t];
    assert Below(r.taken[t], |r.owner|);
    assert forall u | 0 <= u < |s.curr| :: Waits(r, u) == Waits(s, u);
    assert WaitLinks(r);
    AcquireHolds(s, t, m);
  }

  lemma NobodyQueued(s: Kernel, m: nat)
    requires Inv(s) && m < |s.owner| && s.owner[m].None?
    ensures s.waiters[m] == [] && s.mprio[m] == NO_PRIORITY
  {
    hide WaitLinks, HoldLinks, Exact;
    assert Queued(s, m);
  }

  lemma AcquireHolds(s: Kernel, t: nat, m: nat)
    requires Inv(s) && Running(s, t) && m < |s.owner| && s.owner[m].None? && Shape(Acquire(s, t, m))
    ensures HoldLinks(Acquire(s, t, m))
  {
    hide Queued, Exact, WaitLinks;
    var r := Acquire(s, t, m);
    assert m !in s.taken[t];
    forall u, k | 0 <= u < |s.curr| && 0 <= k < |s.owner|
      ensures k in r.taken[u] <==> r.owner[k] == Some(u)
    {
      assert k in s.taken[u] <==> s.owner[k] == Some(u);
    }
    assert NoDup(r.taken[t]) by {
      assert forall i | 0 <= i < |s.taken[t]| :: s.taken[t][i] in s.taken[t];
    }
  }

  lemma AcquireKeeps(s: Kernel, t: nat, m: nat)
    requires Inv(s) && Running(s, t) && m < |s.owner| && s.owner[m].None?
    ensures Inv(Acquire(s, t, m))
  {
    hide HoldLinks, WaitLinks, Queued, Exact, Linked, Acquire;
    AcquireLinked(s, t, m);
    AcquireSizes(s, t, m);
    forall k | 0 <= k < |s.owner| ensures Queued(Acquire(s, t, m), k) {
      AcquireQueued(s, t, m, k);
    }
    forall u | 0 <= u < |s.curr| ensures Exact(Acquire(s, t, m), u) {
      AcquireExact(s, t, m, u);
    }
  }

  lemma AcquireSizes(s: Kernel, t: nat, m: nat)
    requires Shape(s) && t < |s.curr| && m < |s.owner|
    ensures var r := Acquire(s, t, m); |r.owner| == |s.owner| && |r.curr| == |s.curr|
  {
  }

  lemma AcquireQueued(s: Kernel, t: nat, m: nat, k: nat)
    requires Inv(s) && Running(s, t) && m < |s.owner| && s.owner[m].None? && k < |s.owner|
    ensures Shape(Acquire(s, t, m)) && Queued(Acquire(s, t, m), k)
  {
    hide HoldLinks, Exact;
    AcquireLinked(s, t, m);
    var r := Acquire(s, t, m);
    assert r.mprio == s.mprio;
    assert Queued(s, k);
    assert Waits(s, t) == None;
    QueuedFrame(s, r, t, k);
  }

  lemma AcquireExact(s: Kernel, t: nat, m: nat, u: nat)
    requires Inv(s) && Running(s, t) && m < |s.owner| && s.owner[m].None? && u < |s.curr|
    ensures Shape(Acquire(s, t, m)) && Exact(Acquire(s, t, m), u)
  {
    hide HoldLinks, WaitLinks, Queued, Linked;
    AcquireLinked(s, t, m);
    assert Acquire(s, t, m).mprio == s.mprio;
    assert Exact(s, u);
    if u == t {
      HeldAdded(s.initPrio[t], s.taken[t], s.mprio, s.ceiling, m);
    }
  }

  // ----- release -----

  /** The state once the last hold of `m` by `t` is dropped and `t` has its priority back. */
  ghost function Drop(s: Kernel, t: nat, m: nat): Kernel
    requires Inv(s) && t < |s.curr| && m < |s.owner| && s.owner[m] == Some(t)
  {
    RemoveBelow(s.taken[t], m, |s.owner|);
    var taken := s.taken[t := Remove(s.taken[t], m)];
    s.(hold := s.hold[m := 0], taken := taken,
       curr := if s.ceiling[m] != 0xff || s.curr[t] == s.mprio[m]
               then s.curr[t := HeldPrio(s.initPrio[t], taken[t], s.mprio, s.ceiling)]
               else s.curr)
  }

  ghost function HandOver(s: Kernel, m: nat): Kernel
    requires Shape(s) && m < |s.owner|
  {
    if s.waiters[m] == [] then s.(owner := s.owner[m := None], mprio := s.mprio[m := NO_PRIORITY])
    else
      var next := s.waiters[m][0];
      s.(suspended := s.suspended[next := false], pending := s.pending[next := None],
         waiters := s.waiters[m := s.waiters[m][1..]],
         owner := s.owner[m := Some(next)], hold := s.hold[m := 1],
         taken := s.taken[next := [m] + s.taken[next]],
         mprio := s.mprio[m := HeadPrio(s.curr, s.waiters[m][1..])])
  }

  ghost function Release(s: Kernel, t: nat, m: nat): (Kernel, Status)
    requires Inv(s) && Running(s, t) && m < |s.owner|
  {
    if s.owner[m] != Some(t) then (s, NotOwner)
    else if s.hold[m] > 1 then (s.(hold := s.hold[m := s.hold[m] - 1]), Ok)
    else
      DropShape(s, t, m);
      (HandOver(Drop(s, t, m), m), Ok)
  }

  lemma DropShape(s: Kernel, t: nat, m: nat)
    requires Inv(s) && t < |s.curr| && m < |s.owner| && s.owner[m] == Some(t)
    ensures Shape(Drop(s, t, m))
  {
    RemoveBelow(s.taken[t], m, |s.owner|);
  }

  /** A held mutex that does not set the bound can be dropped without changing it. */
  lemma HeldDropped(q: nat, ms: seq<nat>, mprio: seq<nat>, ceiling: seq<nat>, m: nat)
    requires Below(ms, |mprio|) && |mprio| == |ceiling| && m in ms && NoDup(ms) && Below(Remove(ms, m), |mprio|)
    requires HeldPrio(q, ms, mprio, ceiling) < Demand(mprio, ceiling, m)
    ensures HeldPrio(q, Remove(ms, m), mprio, ceiling) == HeldPrio(q, ms, mprio, ceiling)
  {
    hide HeldPrio;
    var rest := Remove(ms, m);
    RemoveNoDup(ms, m);
    var c, b := HeldPrio(q, ms, mprio, ceiling), HeldPrio(q, rest, mprio, ceiling);
    if c != q {
      var i :| 0 <= i < |ms| && c == Demand(mprio, ceiling, ms[i]);
      assert ms[i] in rest;
      var j :| 0 <= j < |rest| && rest[j] == ms[i];
      assert b <= Demand(mprio, ceiling, rest[j]);
    }
    if b != q {
      var j :| 0 <= j < |rest| && b == Demand(mprio, ceiling, rest[j]);
      assert rest[j] in ms;
      var i :| 0 <= i < |ms| && ms[i] == rest[j];
      assert c <= Demand(mprio, ceiling, ms[i]);
    }
  }

  /** Letting go of `m` leaves `t` with exactly the demands of the mutexes it keeps. */
  lemma DropExact(s: Kernel, t: nat, m: nat)
    requires Inv(s) && t < |s.curr| && m < |s.owner| && s.owner[m] == Some(t)
    ensures var r := Drop(s, t, m);
      && Below(r.taken[t], |s.owner|)
      && r.curr[t] == HeldPrio(s.initPrio[t], r.taken[t], s.mprio, s.ceiling)
  {
    RemoveBelow(s.taken[t], m, |s.owner|);
    OwnerBound(s, m);
    assert m in s.taken[t];
    if s.ceiling[m] == 0xff && s.curr[t] != s.mprio[m] {
      assert Queued(s, m);
      assert s.curr[t] < Demand(s.mprio, s.ceiling, m) by { MutexPrioBound(s, m); }
      HeldDropped(s.initPrio[t], s.taken[t], s.mprio, s.ceiling, m);
    }
  }

  lemma MutexPrioBound(s: Kernel, m: nat)
    requires Shape(s) && m < |s.owner| && Queued(s, m)
    ensures s.mprio[m] <= NO_PRIORITY
  {
    if s.waiters[m] != [] { assert s.waiters[m][0] < |s.curr|; }
  }

  /** Whether the mutex is about to be handed to a thread that its ceiling would have to raise. */
  ghost predicate CeilingCovers(s: Kernel, t: nat, m: nat)
    requires Shape(s) && m < |s.owner|
  {
    s.owner[m] == Some(t) && s.hold[m] <= 1 && s.waiters[m] != [] ==> s.curr[s.waiters[m][0]] <= s.ceiling[m]
  }
}
