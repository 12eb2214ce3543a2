/** What priority inheritance guarantees: over every run, and over the whole wait graph. */
module MutexTheorems {
  import opened Common
  import opened MutexSpec

  // ----- release: exact unless the hand-over skips a ceiling -----

  lemma HandOverShape(s: Kernel, t: nat, m: nat)
    requires Inv(s) && Running(s, t) && m < |s.owner| && s.owner[m] == Some(t)
    ensures Shape(Drop(s, t, m)) && Shape(HandOver(Drop(s, t, m), m))
  {
    DropShape(s, t, m);
    var r := HandOver(Drop(s, t, m), m);
    if s.waiters[m] != [] {
      var next := s.waiters[m][0];
      assert Below(r.taken[next], |s.owner|);
    }
  }

  lemma HandOverWaits(s: Kernel, t: nat, m: nat)
    requires Inv(s) && Running(s, t) && m < |s.owner| && s.owner[m] == Some(t)
    requires Shape(Drop(s, t, m)) && Shape(HandOver(Drop(s, t, m), m))
    ensures var r := HandOver(Drop(s, t, m), m);
      && WaitLinks(r)
      && (forall u | 0 <= u < |s.curr| ::
            Waits(r, u) == if s.waiters[m] != [] && u == s.waiters[m][0] then None else Waits(s, u))
  {
    hide HoldLinks, Target;
    var r := HandOver(Drop(s, t, m), m);
    var ws := s.waiters[m];
    if ws != [] {
      var next := ws[0];
      assert next in ws;
      assert Waits(s, next) == Some(m);
      assert forall u :: u in ws <==> u == next || u in ws[1..];
      assert next !in ws[1..];
    }
    forall u, k | 0 <= u < |s.curr| && 0 <= k < |s.owner|
      ensures u in r.waiters[k] <==> Waits(r, u) == Some(k)
    {
      assert u in s.waiters[k] <==> Waits(s, u) == Some(k);
    }
  }

  lemma HandOverLinked(s: Kernel, t: nat, m: nat)
    requires Inv(s) && Running(s, t) && m < |s.owner| && s.owner[m] == Some(t)
    ensures Shape(Drop(s, t, m)) && Shape(HandOver(Drop(s, t, m), m)) && Linked(HandOver(Drop(s, t, m), m))
  {
    HandOverShape(s, t, m);
    HandOverWaits(s, t, m);
    HandOverHolds(s, t, m);
    var r := HandOver(Drop(s, t, m), m);
    forall k | 0 <= k < |s.owner| ensures r.waiters[k] != [] ==> r.owner[k].Some? {
      assert s.waiters[k] != [] ==> s.owner[k].Some?;
    }
    forall u | 0 <= u < |s.curr| && Waits(r, u).Some? ensures r.owner[Waits(r, u).value] != Some(u) {
      assert Waits(r, u) == Waits(s, u);
    }
  }

  lemma HandOverHolds(s: Kernel, t: nat, m: nat)
    requires Inv(s) && Running(s, t) && m < |s.owner| && s.owner[m] == Some(t)
    requires Shape(Drop(s, t, m)) && Shape(HandOver(Drop(s, t, m), m))
    ensures HoldLinks(HandOver(Drop(s, t, m), m))
  {
    hide Queued, Exact, SortedBy, HeadPrio;
    var r := HandOver(Drop(s, t, m), m);
    RemoveNoDup(s.taken[t], m);
    if s.waiters[m] != [] {
      NextHolds(s, t, m);
    }
    forall u, k | 0 <= u < |s.curr| && 0 <= k < |s.owner|
      ensures k in r.taken[u] <==> r.owner[k] == Some(u)
    {
      HandOverHeld(s, t, m, u, k);
    }
  }

  lemma HandOverHeld(s: Kernel, t: nat, m: nat, u: nat, k: nat)
    requires Inv(s) && Running(s, t) && m < |s.owner| && s.owner[m] == Some(t)
    requires Shape(Drop(s, t, m)) && Shape(HandOver(Drop(s, t, m), m)) && u < |s.curr| && k < |s.owner|
    ensures var r := HandOver(Drop(s, t, m), m); k in r.taken[u] <==> r.owner[k] == Some(u)
  {
    hide Queued, Exact, SortedBy, HeadPrio, WaitLinks, HeldPrio, NoDup;
    TakenOnce(s, t);
    RemoveNoDup(s.taken[t], m);
    if s.waiters[m] != [] {
      NextHolds(s, t, m);
    }
    assert k in s.taken[u] <==> s.owner[k] == Some(u);
    assert m in s.taken[u] <==> s.owner[m] == Some(u);
  }

  lemma TakenOnce(s: Kernel, t: nat)
    requires Inv(s) && t < |s.curr|
    ensures NoDup(s.taken[t])
  {
    hide WaitLinks, Queued, Exact;
  }

  /** The next owner did not hold the mutex before. */
  lemma NextHolds(s: Kernel, t: nat, m: nat)
    requires Inv(s) && Running(s, t) && m < |s.owner| && s.owner[m] == Some(t) && s.waiters[m] != []
    ensures var next := s.waiters[m][0];
      next < |s.curr| && next != t && m !in s.taken[next] && NoDup([m] + s.taken[next])
  {
    hide Queued, Exact;
    var next := s.waiters[m][0];
    assert next in s.waiters[m];
    assert Waits(s, next) == Some(m);
    assert m !in s.taken[next];
    forall i | 0 <= i < |s.taken[next]| ensures s.taken[next][i] != m {
      assert s.taken[next][i] in s.taken[next];
    }
  }

  lemma HeldWithout(q: nat, ms: seq<nat>, mprio: seq<nat>, ceiling: seq<nat>, m: nat, p: nat)
    requires Below(ms, |mprio|) && |mprio| == |ceiling| && m < |mprio| && m !in ms
    ensures HeldPrio(q, ms, mprio[m := p], ceiling) == HeldPrio(q, ms, mprio, ceiling)
  {
    assert forall i | 0 <= i < |ms| :: ms[i] in ms;
    HeldFrame(q, ms, mprio, mprio[m := p], ceiling);
  }

  /** After a release every thread is exact, except perhaps the next owner. */
  lemma HandOverExact(s: Kernel, t: nat, m: nat, u: nat)
    requires Inv(s) && Running(s, t) && m < |s.owner| && s.owner[m] == Some(t)
    requires Shape(Drop(s, t, m)) && Shape(HandOver(Drop(s, t, m), m))
    requires u < |s.curr| && (s.waiters[m] == [] || u != s.waiters[m][0])
    ensures Exact(HandOver(Drop(s, t, m), m), u)
  {
    DropExact(s, t, m);
    var d := Drop(s, t, m);
    var r := HandOver(d, m);
    var p := r.mprio[m];
    assert r.mprio == s.mprio[m := p];
    assert Waits(s, t) == None;
    assert Exact(s, u);
    if u == t {
      RemoveNoDup(s.taken[t], m);
      assert s.waiters[m] != [] ==> s.waiters[m][0] in s.waiters[m];
      HeldWithout(s.initPrio[t], d.taken[t], s.mprio, s.ceiling, m, p);
    } else {
      assert m !in s.taken[u];
      HeldWithout(s.initPrio[u], s.taken[u], s.mprio, s.ceiling, m, p);
    }
  }

  lemma HeldNext(q: nat, ms: seq<nat>, mprio: seq<nat>, ceiling: seq<nat>, m: nat, p: nat)
    requires Below(ms, |mprio|) && |mprio| == |ceiling| && m < |mprio| && m !in ms
    requires HeldPrio(q, ms, mprio, ceiling) <= p
    ensures HeldPrio(q, [m] + ms, mprio[m := p], ceiling) == Min(HeldPrio(q, ms, mprio, ceiling), ceiling[m])
  {
    HeldWithout(q, ms, mprio, ceiling, m, p);
    HeldAdded(q, ms, mprio[m := p], ceiling, m);
  }

  /** The next owner is the most urgent waiter, so only a ceiling could ask more of it. */
  lemma HandOverNext(s: Kernel, t: nat, m: nat)
    requires Inv(s) && Running(s, t) && m < |s.owner| && s.owner[m] == Some(t) && s.waiters[m] != []
    requires Shape(Drop(s, t, m)) && Shape(HandOver(Drop(s, t, m), m))
    ensures var next := s.waiters[m][0];
      Exact(HandOver(Drop(s, t, m), m), next) <==> s.curr[next] <= s.ceiling[m]
  {
    var d := Drop(s, t, m);
    var r := HandOver(d, m);
    var ws := s.waiters[m];
    var next := ws[0];
    assert next in ws;
    assert Waits(s, t) == None && Waits(s, next) == Some(m);
    assert m !in s.taken[next];
    assert d.curr[next] == s.curr[next];
    var p := HeadPrio(d.curr, ws[1..]);
    assert Exact(s, next) && Queued(s, m);
    assert s.curr[next] <= p by {
      if |ws| > 1 {
        assert ws[1] in ws;
        assert d.curr[ws[1]] == s.curr[ws[1]];
      }
    }
    HeldNext(s.initPrio[next], s.taken[next], s.mprio, s.ceiling, m, p);
  }

  lemma HandOverQueued(s: Kernel, t: nat, m: nat, k: nat)
    requires Inv(s) && Running(s, t) && m < |s.owner| && s.owner[m] == Some(t) && k < |s.owner|
    requires Shape(Drop(s, t, m)) && Shape(HandOver(Drop(s, t, m), m))
    ensures Queued(HandOver(Drop(s, t, m), m), k)
  {
    var d := Drop(s, t, m);
    var r := HandOver(d, m);
    assert Waits(s, t) == None;
    assert Queued(s, k);
    QueuedFrame(s, d, t, k);
    if k == m && s.waiters[m] != [] {
      var ws := s.waiters[m];
      assert forall j | 0 <= j < |ws[1..]| :: ws[1..][j] == ws[j + 1];
    }
  }

  /**
   Releasing keeps exact inheritance if and only if the mutex is not handed to a thread less
   urgent than its ceiling: the hand-over does not raise the new owner.
   */
  lemma ReleaseKeeps(s: Kernel, t: nat, m: nat)
    requires Inv(s) && Running(s, t) && m < |s.owner|
    ensures Inv(Release(s, t, m).0) <==> CeilingCovers(s, t, m)
  {
    hide HoldLinks, Linked;
    if s.owner[m] != Some(t) {
    } else if s.hold[m] > 1 {
      HoldKeeps(s, m, s.hold[m] - 1);
    } else {
      DropShape(s, t, m);
      HandOverLinked(s, t, m);
      var r := HandOver(Drop(s, t, m), m);
      forall u | 0 <= u < |s.curr| && (s.waiters[m] == [] || u != s.waiters[m][0]) ensures Exact(r, u) {
        HandOverExact(s, t, m, u);
      }
      forall k | 0 <= k < |s.owner| ensures Queued(r, k) {
        HandOverQueued(s, t, m, k);
      }
      if s.waiters[m] != [] {
        HandOverNext(s, t, m);
        var next := s.waiters[m][0];
        if Inv(r) { assert Exact(r, next); }
      }
    }
  }

  // ----- a wait that times out -----

  /** Detaching `t` from the queue of `m` and refreshing the priority shown by `m`. */
  ghost function Detach(s: Kernel, t: nat, m: nat): Kernel
    requires Shape(s) && t < |s.curr| && m < |s.owner|
  {
    RemoveBelow(s.waiters[m], t, |s.curr|);
    var rest := Remove(s.waiters[m], t);
    s.(suspended := s.suspended[t := false], waiters := s.waiters[m := rest],
       mprio := s.mprio[m := HeadPrio(s.curr, rest)])
  }

  /** `_thread_timeout` followed by the clean-up of the woken thread, as one step. */
  ghost function Timeout(s: Kernel, t: nat): (r: Kernel)
    requires Inv(s) && t < |s.curr| && Waits(s, t).Some?
    ensures Inv(r)
  {
    var m := Waits(s, t).value;
    DetachKeeps(s, t, m);
    var d := Detach(s, t, m);
    var o := s.owner[m].value;
    var r := if s.curr[o] == s.curr[t] && Target(d, o) != s.curr[o] then Refresh(d, o) else assert Exact(d, o); d;
    ClearPending(r, t);
    r.(pending := r.pending[t := None])
  }

  lemma ClearPending(s: Kernel, t: nat)
    requires Inv(s) && t < |s.curr| && !s.suspended[t]
    ensures Inv(s.(pending := s.pending[t := None]))
  {
    var r := s.(pending := s.pending[t := None]);
    assert forall u | 0 <= u < |s.curr| :: Waits(r, u) == Waits(s, u);
    assert WaitLinks(r) && HoldLinks(r);
    forall k | 0 <= k < |s.owner| ensures Queued(r, k) { assert Queued(s, k); }
    forall u | 0 <= u < |s.curr| ensures Exact(r, u) { assert Exact(s, u); }
  }

  lemma DetachLinked(s: Kernel, t: nat, m: nat)
    requires Inv(s) && t < |s.curr| && m < |s.owner| && Waits(s, t) == Some(m)
    ensures Shape(Detach(s, t, m)) && Linked(Detach(s, t, m)) && s.owner[m].Some?
  {
    var d := Detach(s, t, m);
    RemoveBelow(s.waiters[m], t, |s.curr|);
    RemoveNoDup(s.waiters[m], t);
    assert t in s.waiters[m];
    assert forall u | 0 <= u < |s.curr| && u != t :: Waits(d, u) == Waits(s, u);
    assert HoldLinks(d);
    assert WaitLinks(d) by {
      forall u, k | 0 <= u < |s.curr| && 0 <= k < |s.owner|
        ensures u in d.waiters[k] <==> Waits(d, u) == Some(k)
      {
        assert u in s.waiters[k] <==> Waits(s, u) == Some(k);
      }
    }
  }

  /** The equality test of the clean-up is enough: an owner more urgent than `t` did not depend on it. */
  lemma DetachKeeps(s: Kernel, t: nat, m: nat)
    requires Inv(s) && t < |s.curr| && m < |s.owner| && Waits(s, t) == Some(m)
    ensures s.owner[m].Some? && ExactExcept(Detach(s, t, m), s.owner[m].value)
    ensures s.curr[s.owner[m].value] != s.curr[t] ==> Exact(Detach(s, t, m), s.owner[m].value)
    ensures s.curr[s.owner[m].value] == Target(Detach(s, t, m), s.owner[m].value)
      ==> Exact(Detach(s, t, m), s.owner[m].value)
  {
    DetachLinked(s, t, m);
    var d := Detach(s, t, m);
    var o := s.owner[m].value;
    var ws := s.waiters[m];
    assert t in ws;
    assert Queued(s, m);
    RemoveSorted(s.curr, ws, t);
    forall u | u in ws ensures s.curr[u] <= NO_PRIORITY {
      var i :| 0 <= i < |ws| && ws[i] == u;
    }
    RemoveHead(s.curr, ws, t);
    forall k | 0 <= k < |s.owner| ensures Queued(d, k) {
      assert Queued(s, k);
    }
    forall u | 0 <= u < |s.curr| && u != o ensures Exact(d, u) {
      TargetFrame(s, d, m, u);
      assert Exact(s, u);
    }
    OwnerBound(s, m);
    if s.curr[o] != s.curr[t] {
      HeldRaised(s.initPrio[o], s.taken[o], s.mprio, s.ceiling, m, d.mprio[m]);
    }
  }

  lemma HeldRaised(q: nat, ms: seq<nat>, mprio: seq<nat>, ceiling: seq<nat>, m: nat, p: nat)
    requires Below(ms, |mprio|) && |mprio| == |ceiling| && m < |mprio|
    requires p == mprio[m] || (HeldPrio(q, ms, mprio, ceiling) < mprio[m] <= p)
    ensures HeldPrio(q, ms, mprio[m := p], ceiling) == HeldPrio(q, ms, mprio, ceiling)
  {
    var hi := mprio[m := p];
    var a, b := HeldPrio(q, ms, mprio, ceiling), HeldPrio(q, ms, hi, ceiling);
    HeldMonotone(q, ms, mprio, hi, ceiling);
    if a != q {
      var i :| 0 <= i < |ms| && a == Demand(mprio, ceiling, ms[i]);
      assert b <= Demand(hi, ceiling, ms[i]);
    }
  }

  // ----- the wait graph -----

  /** The thread that `t` is directly blocked on. */
  ghost function Next(s: Kernel, t: nat): Option<nat>
    requires Shape(s) && t < |s.curr|
  {
    match Waits(s, t)
    case None => None
    case Some(m) => s.owner[m]
  }

  ghost function Chain(s: Kernel, t: nat, n: nat): (r: Option<nat>)
    requires Shape(s) && t < |s.curr|
    ensures r.Some? ==> r.value < |s.curr|
    decreases n
  {
    if n == 0 then Some(t)
    else match Next(s, t)
      case None => None
      case Some(u) => Chain(s, u, n - 1)
  }

  ghost predicate Acyclic(s: Kernel)
    requires Shape(s)
  {
    forall t: nat, n: nat | t < |s.curr| && 0 < n :: Chain(s, t, n) != Some(t)
  }

  ghost predicate Reaches(s: Kernel, u: nat, t: nat)
    requires Shape(s) && u < |s.curr|
  {
    exists n: nat :: Chain(s, u, n) == Some(t)
  }

  lemma {:induction false} ChainCompose(s: Kernel, a: nat, n: nat, b: nat, k: nat)
    requires Shape(s) && a < |s.curr| && Chain(s, a, n) == Some(b)
    ensures Chain(s, a, n + k) == Chain(s, b, k)
    decreases n
  {
    if n > 0 {
      ChainCompose(s, Next(s, a).value, n - 1, b, k);
    }
  }

  /** A thread's own urgency: its initial priority and the ceilings of what it holds. */
  ghost function Base(s: Kernel, t: nat): nat
    requires Shape(s) && t < |s.curr|
  {
    HeldPrio(s.initPrio[t], s.taken[t], s.ceiling, s.ceiling)
  }

  lemma BaseBound(s: Kernel, t: nat)
    requires Inv(s) && t < |s.curr|
    ensures s.curr[t] <= Base(s, t)
  {
    assert Exact(s, t);
    var b := Base(s, t);
    if b != s.initPrio[t] {
      var i :| 0 <= i < |s.taken[t]| && b == Demand(s.ceiling, s.ceiling, s.taken[t][i]);
      assert s.curr[t] <= Demand(s.mprio, s.ceiling, s.taken[t][i]);
    }
  }

  /** Nobody is less urgent than a thread that is blocked on him, however indirectly; cycles included. */
  lemma {:induction false} UrgencyFlows(s: Kernel, u: nat, n: nat)
    requires Inv(s) && u < |s.curr| && Chain(s, u, n).Some?
    ensures s.curr[Chain(s, u, n).value] <= s.curr[u]
    decreases n
  {
    if n > 0 {
      var m := Waits(s, u).value;
      var o := Next(s, u).value;
      UrgencyFlows(s, o, n - 1);
      OwnerBound(s, m);
      assert Queued(s, m) && u in s.waiters[m];
      var i :| 0 <= i < |s.waiters[m]| && s.waiters[m][i] == u;
    }
  }

  /** `v` is strictly ahead of `t` on the chain of waits. */
  ghost predicate Ahead(s: Kernel, t: nat, v: nat)
    requires Shape(s) && t < |s.curr|
  {
    exists k: nat :: 0 < k && Chain(s, t, k) == Some(v)
  }

  /** A thread above its own urgency has a direct waiter that is just as urgent. */
  lemma Blocker(s: Kernel, t: nat) returns (h: nat)
    requires Inv(s) && t < |s.curr| && s.curr[t] != Base(s, t)
    ensures h < |s.curr| && Next(s, h) == Some(t) && s.curr[h] == s.curr[t]
  {
    hide HeldPrio, NoDup;
    BaseBound(s, t);
    assert Exact(s, t);
    var ms := s.taken[t];
    var i :| 0 <= i < |ms| && s.curr[t] == Demand(s.mprio, s.ceiling, ms[i]);
    var m := ms[i];
    assert Base(s, t) <= Demand(s.ceiling, s.ceiling, ms[i]);
    assert m in s.taken[t];
    assert Queued(s, m);
    assert s.initPrio[t] <= NO_PRIORITY && Base(s, t) <= s.initPrio[t];
    h := s.waiters[m][0];
    assert h in s.waiters[m];
  }

  /** Walks the wait graph backwards to the thread whose own urgency `t` has inherited. */
  lemma {:induction false} Source(s: Kernel, t: nat, seen: seq<nat>) returns (u: nat, n: nat)
    requires Inv(s) && Acyclic(s) && t < |s.curr|
    requires NoDup([t] + seen)
    requires forall i | 0 <= i < |seen| :: seen[i] < |s.curr| && Ahead(s, t, seen[i])
    ensures u < |s.curr| && Chain(s, u, n) == Some(t) && s.curr[t] == Base(s, u)
    decreases |s.curr| - |seen|
  {
    if s.curr[t] == Base(s, t) {
      u, n := t, 0;
    } else {
      Pigeonhole([t] + seen, |s.curr|);
      var h := Blocker(s, t);
      AheadOfBlocker(s, t, h, seen);
      var n0: nat;
      u, n0 := Source(s, h, [t] + seen);
      n := n0 + 1;
      ChainCompose(s, u, n0, h, 1);
      assert Chain(s, h, 1) == Some(t);
    }
  }

  lemma AheadOfBlocker(s: Kernel, t: nat, h: nat, seen: seq<nat>)
    requires Shape(s) && Acyclic(s) && t < |s.curr| && h < |s.curr| && Next(s, h) == Some(t)
    requires NoDup([t] + seen)
    requires forall i | 0 <= i < |seen| :: seen[i] < |s.curr| && Ahead(s, t, seen[i])
    ensures NoDup([h] + ([t] + seen))
    ensures forall i | 0 <= i < |[t] + seen| :: ([t] + seen)[i] < |s.curr| && Ahead(s, h, ([t] + seen)[i])
  {
    var one: nat := 1;
    assert Chain(s, h, one) == Some(t);
    forall i | 0 <= i < |[t] + seen|
      ensures ([t] + seen)[i] < |s.curr| && Ahead(s, h, ([t] + seen)[i]) && ([t] + seen)[i] != h
    {
      if i > 0 {
        var v := seen[i - 1];
        assert ([t] + seen)[i] == v && Ahead(s, t, v);
        var k: nat :| 0 < k && Chain(s, t, k) == Some(v);
        assert Chain(s, h, k + 1) == Some(v);
      }
    }
  }

  /**
   Without deadlock, the current priority of a thread is exactly the most urgent own priority among
   the threads blocked on it, directly or not, itself included.
   */
  lemma InheritsExactly(s: Kernel, t: nat)
    requires Inv(s) && Acyclic(s) && t < |s.curr|
    ensures forall u | 0 <= u < |s.curr| && Reaches(s, u, t) :: s.curr[t] <= Base(s, u)
    ensures exists u | 0 <= u < |s.curr| && Reaches(s, u, t) :: s.curr[t] == Base(s, u)
  {
    forall u | 0 <= u < |s.curr| && Reaches(s, u, t) ensures s.curr[t] <= Base(s, u) {
      var n: nat :| Chain(s, u, n) == Some(t);
      UrgencyFlows(s, u, n);
      BaseBound(s, u);
    }
    var u, n := Source(s, t, []);
    assert Reaches(s, u, t);
  }

  // ----- deadlock -----

  /** A graph that only loses edges stays acyclic. */
  lemma {:induction false} ChainSubgraph(s: Kernel, r: Kernel, x: nat, n: nat)
    requires Shape(s) && Shape(r) && |s.curr| == |r.curr| && x < |s.curr|
    requires forall u | 0 <= u < |s.curr| :: Next(r, u) == None || Next(r, u) == Next(s, u)
    ensures Chain(r, x, n).Some? ==> Chain(s, x, n) == Chain(r, x, n)
    decreases n
  {
    if n > 0 && Next(r, x).Some? {
      ChainSubgraph(s, r, Next(r, x).value, n - 1);
    }
  }

  lemma SubgraphAcyclic(s: Kernel, r: Kernel)
    requires Shape(s) && Shape(r) && |s.curr| == |r.curr|
    requires forall u | 0 <= u < |s.curr| :: Next(r, u) == None || Next(r, u) == Next(s, u)
    requires Acyclic(s)
    ensures Acyclic(r)
  {
    forall t: nat, n: nat | t < |s.curr| && 0 < n ensures Chain(r, t, n) != Some(t) {
      ChainSubgraph(s, r, t, n);
    }
  }

  /** A chain that ends at `t` in the new graph ends at `t` in the old one, perhaps sooner. */
  lemma {:induction false} ChainToBlocked(s: Kernel, r: Kernel, t: nat, x: nat, n: nat) returns (k: nat)
    requires Shape(s) && Shape(r) && |s.curr| == |r.curr| && x < |s.curr| && t < |s.curr|
    requires forall u | 0 <= u < |s.curr| && u != t :: Next(r, u) == Next(s, u)
    requires Chain(r, x, n) == Some(t)
    ensures k <= n && Chain(s, x, k) == Some(t) && Chain(r, x, k) == Some(t)
    decreases n
  {
    if x == t {
      k := 0;
    } else {
      k := ChainToBlocked(s, r, t, Next(r, x).value, n - 1);
      k := k + 1;
    }
  }

  /** A chain either avoids `t`, and is unchanged, or passes through it. */
  lemma {:induction false} ChainSplit(s: Kernel, r: Kernel, t: nat, x: nat, n: nat) returns (through: bool, k: nat)
    requires Shape(s) && Shape(r) && |s.curr| == |r.curr| && x < |s.curr| && t < |s.curr|
    requires forall u | 0 <= u < |s.curr| && u != t :: Next(r, u) == Next(s, u)
    ensures if through then k < n && Chain(r, x, k) == Some(t) else Chain(s, x, n) == Chain(r, x, n)
    decreases n
  {
    if n == 0 {
      through, k := false, 0;
    } else if x == t {
      through, k := true, 0;
    } else if Next(r, x).None? {
      through, k := false, 0;
    } else {
      through, k := ChainSplit(s, r, t, Next(r, x).value, n - 1);
      k := k + 1;
    }
  }

  /** Adding the edge t -> o creates a cycle exactly when o already reached t. */
  lemma EdgeAcyclic(s: Kernel, r: Kernel, t: nat, o: nat)
    requires Shape(s) && Shape(r) && |s.curr| == |r.curr| && t < |s.curr| && o < |s.curr|
    requires Next(s, t) == None && Next(r, t) == Some(o)
    requires forall u | 0 <= u < |s.curr| && u != t :: Next(r, u) == Next(s, u)
    requires Acyclic(s)
    ensures Acyclic(r) <==> !Reaches(s, o, t)
  {
    hide Shape, Waits, Next;
    if Reaches(s, o, t) {
      var n: nat :| Chain(s, o, n) == Some(t);
      ChainSubgraph(r, s, o, n);
      assert Chain(r, t, n + 1) == Some(t);
    }
    if !Acyclic(r) {
      var x: nat, n: nat :| x < |s.curr| && 0 < n && Chain(r, x, n) == Some(x);
      var through, k := ChainSplit(s, r, t, x, n);
      ChainCompose(r, x, k, t, n - k);
      assert Chain(r, o, n - k - 1) == Some(x);
      ChainCompose(r, o, n - k - 1, x, k);
      var j := ChainToBlocked(s, r, t, o, n - 1);
      assert Reaches(s, o, t);
    }
  }

  /** A blocked take adds one edge to the wait graph and changes nothing else about it. */
  lemma TakeEdges(s: Kernel, t: nat, m: nat, wait: bool)
    requires Inv(s) && Running(s, t) && m < |s.owner|
    ensures var r, st := Take(s, t, m, wait).0, Take(s, t, m, wait).1;
      && |r.curr| == |s.curr|
      && (forall u | 0 <= u < |s.curr| && u != t :: Next(r, u) == Next(s, u))
      && Next(s, t) == None
      && (st == Blocked ==> s.owner[m].Some? && Next(r, t) == s.owner[m])
      && (st != Blocked ==> Next(r, t) == None)
  {
    hide Stale, HoldLinks, HeldPrio, Enqueue, Below;
    var r, st := Take(s, t, m, wait).0, Take(s, t, m, wait).1;
    if st == Blocked {
      assert r.owner == s.owner && r.suspended == s.suspended[t := true] && r.pending == s.pending[t := Some(m)];
    } else {
      assert r.suspended == s.suspended && r.pending == s.pending;
      forall u | 0 <= u < |s.curr| && Waits(s, u).Some? ensures r.owner[Waits(s, u).value] == s.owner[Waits(s, u).value] {
        assert u in s.waiters[Waits(s, u).value];
      }
    }
  }

  /** Blocking on a mutex deadlocks exactly when its owner already waits, however indirectly, for the caller. */
  lemma TakeDeadlocks(s: Kernel, t: nat, m: nat, wait: bool)
    requires Inv(s) && Acyclic(s) && Running(s, t) && m < |s.owner|
    ensures Acyclic(Take(s, t, m, wait).0) <==>
            !(Take(s, t, m, wait).1 == Blocked && Reaches(s, s.owner[m].value, t))
  {
    TakeEdges(s, t, m, wait);
    var r, st := Take(s, t, m, wait).0, Take(s, t, m, wait).1;
    if st == Blocked {
      EdgeAcyclic(s, r, t, s.owner[m].value);
    } else {
      SubgraphAcyclic(s, r);
    }
  }

  lemma {:induction false} ChainAvoids(s: Kernel, r: Kernel, h: nat, x: nat, n: nat)
    requires Shape(s) && Shape(r) && |s.curr| == |r.curr| && x < |s.curr| && h < |s.curr|
    requires Next(r, h) == None
    requires forall u | 0 <= u < |s.curr| :: Next(r, u) == None || Next(r, u) == Some(h) || Next(r, u) == Next(s, u)
    ensures Chain(r, x, n).Some? && Chain(r, x, n) != Some(h) ==> Chain(s, x, n) == Chain(r, x, n)
    decreases n
  {
    if n > 0 && Next(r, x).Some? {
      ChainAvoids(s, r, h, Next(r, x).value, n - 1);
    }
  }

  lemma ReleaseAcyclic(s: Kernel, t: nat, m: nat)
    requires Inv(s) && Acyclic(s) && Running(s, t) && m < |s.owner|
    ensures Shape(Release(s, t, m).0) && Acyclic(Release(s, t, m).0)
  {
    hide HoldLinks, HeldPrio, Remove, NoDup;
    var r := Release(s, t, m).0;
    if s.owner[m] == Some(t) && s.hold[m] <= 1 {
      HandOverLinked(s, t, m);
      if s.waiters[m] == [] {
        forall u | 0 <= u < |s.curr| ensures Next(r, u) == Next(s, u) {
          if Waits(s, u).Some? {
            assert u in s.waiters[Waits(s, u).value];
          }
        }
        SubgraphAcyclic(s, r);
      } else {
        var h := s.waiters[m][0];
        assert h in s.waiters[m];
        assert Next(r, h) == None;
        forall x: nat, n: nat | x < |s.curr| && 0 < n ensures Chain(r, x, n) != Some(x) {
          ChainAvoids(s, r, h, x, n);
        }
      }
    } else {
      assert Shape(r);
      assert forall u | 0 <= u < |s.curr| :: Next(r, u) == Next(s, u);
      SubgraphAcyclic(s, r);
    }
  }

  lemma TimeoutAcyclic(s: Kernel, t: nat)
    requires Inv(s) && Acyclic(s) && t < |s.curr| && Waits(s, t).Some?
    ensures Acyclic(Timeout(s, t))
  {
    hide HoldLinks, HeldPrio, Linked;
    var r := Timeout(s, t);
    DetachKeeps(s, t, Waits(s, t).value);
    assert r.owner == s.owner && r.suspended == s.suspended[t := false] && r.pending == s.pending[t := None];
    assert forall u | 0 <= u < |s.curr| && u != t :: Next(r, u) == Next(s, u);
    SubgraphAcyclic(s, r);
  }

  // ----- every run -----

  datatype Op = TakeOp(t: nat, m: nat, wait: bool) | ReleaseOp(t: nat, m: nat) | TimeoutOp(t: nat)

  ghost predicate Enabled(s: Kernel, op: Op)
    requires Shape(s)
  {
    match op
    case TakeOp(t, m, _) => Running(s, t) && m < |s.owner|
    case ReleaseOp(t, m) => Running(s, t) && m < |s.owner|
    case TimeoutOp(t) => t < |s.curr| && Waits(s, t).Some?
  }

  /** No mutex has a priority ceiling, as `rt_mutex_init` leaves it. */
  ghost predicate NoCeilings(s: Kernel) {
    forall m | 0 <= m < |s.ceiling| :: s.ceiling[m] == 0xff
  }

  ghost function Step(s: Kernel, op: Op): (r: Kernel)
    requires Inv(s) && NoCeilings(s) && Enabled(s, op)
    ensures Inv(r) && NoCeilings(r)
  {
    match op
    case TakeOp(t, m, wait) =>
      Take(s, t, m, wait).0
    case ReleaseOp(t, m) =>
      assert CeilingCovers(s, t, m) by {
        if s.waiters[m] != [] { assert s.waiters[m][0] < |s.curr|; }
      }
      ReleaseKeeps(s, t, m);
      Release(s, t, m).0
    case TimeoutOp(t) =>
      DetachKeeps(s, t, Waits(s, t).value);
      Timeout(s, t)
  }

  /** Every operation of a run is one the kernel can perform when its turn comes. */
  ghost predicate Possible(s: Kernel, ops: seq<Op>)
    requires Inv(s) && NoCeilings(s)
    decreases ops
  {
    ops == [] || (Enabled(s, ops[0]) && Possible(Step(s, ops[0]), ops[1..]))
  }

  /** No take of the run blocks on a mutex whose owner already waits for the caller. */
  ghost predicate DeadlockFree(s: Kernel, ops: seq<Op>)
    requires Inv(s) && NoCeilings(s) && Possible(s, ops)
    decreases ops
  {
    ops == [] ||
    (&& (ops[0].TakeOp? && s.owner[ops[0].m].Some? && s.owner[ops[0].m].value != ops[0].t && ops[0].wait ==>
           !Reaches(s, s.owner[ops[0].m].value, ops[0].t))
     && DeadlockFree(Step(s, ops[0]), ops[1..]))
  }

  ghost function Run(s: Kernel, ops: seq<Op>): (r: Kernel)
    requires Inv(s) && NoCeilings(s) && Possible(s, ops)
    ensures Inv(r) && NoCeilings(r)
    decreases ops
  {
    if ops == [] then s else Run(Step(s, ops[0]), ops[1..])
  }

  /** Freshly initialised threads and mutexes. */
  ghost function Fresh(prios: seq<nat>, mutexes: nat): Kernel {
    var n := |prios|;
    Kernel(prios, prios, seq(n, _ => false), seq(n, _ => None), seq(n, _ => []),
           seq(mutexes, _ => None), seq(mutexes, _ => 0), seq(mutexes, _ => NO_PRIORITY),
           seq(mutexes, _ => 0xff), seq(mutexes, _ => []))
  }

  lemma FreshInv(prios: seq<nat>, mutexes: nat)
    requires forall t | 0 <= t < |prios| :: prios[t] <= NO_PRIORITY
    ensures Inv(Fresh(prios, mutexes)) && NoCeilings(Fresh(prios, mutexes)) && Acyclic(Fresh(prios, mutexes))
  {
    var s := Fresh(prios, mutexes);
    assert Shape(s);
    assert forall t | 0 <= t < |prios| :: Waits(s, t) == None;
    assert WaitLinks(s);
    assert HoldLinks(s);
    forall m | 0 <= m < mutexes ensures Queued(s, m) {
      assert s.waiters[m] == [];
    }
    forall t | 0 <= t < |prios| ensures Exact(s, t) {
      assert s.taken[t] == [];
    }
    assert forall t | 0 <= t < |prios| :: Next(s, t) == None;
  }

  ghost function Init(prios: seq<nat>, mutexes: nat): (s: Kernel)
    requires forall t | 0 <= t < |prios| :: prios[t] <= NO_PRIORITY
    ensures Inv(s) && NoCeilings(s) && Acyclic(s)
  {
    FreshInv(prios, mutexes);
    Fresh(prios, mutexes)
  }

  /** Every thread runs at exactly the most urgent initial priority among those blocked on it. */
  ghost predicate InheritsInitial(s: Kernel)
    requires Shape(s)
  {
    forall t | 0 <= t < |s.curr| ::
      && (forall u | 0 <= u < |s.curr| && Reaches(s, u, t) :: s.curr[t] <= s.initPrio[u])
      && (exists u | 0 <= u < |s.curr| && Reaches(s, u, t) :: s.curr[t] == s.initPrio[u])
  }

  lemma InheritsWithoutCeilings(s: Kernel)
    requires Inv(s) && NoCeilings(s) && Acyclic(s)
    ensures InheritsInitial(s)
  {
    forall u | 0 <= u < |s.curr| ensures Base(s, u) == s.initPrio[u] {
      BaseWithoutCeilings(s, u);
    }
    forall t | 0 <= t < |s.curr|
      ensures forall u | 0 <= u < |s.curr| && Reaches(s, u, t) :: s.curr[t] <= s.initPrio[u]
      ensures exists u | 0 <= u < |s.curr| && Reaches(s, u, t) :: s.curr[t] == s.initPrio[u]
    {
      InheritsExactly(s, t);
    }
  }

  lemma StepAcyclic(s: Kernel, op: Op)
    requires Inv(s) && NoCeilings(s) && Acyclic(s) && Enabled(s, op)
    requires op.TakeOp? && s.owner[op.m].Some? && s.owner[op.m].value != op.t && op.wait ==>
      !Reaches(s, s.owner[op.m].value, op.t)
    ensures Acyclic(Step(s, op))
  {
    match op
    case TakeOp(t, m, wait) => TakeDeadlocks(s, t, m, wait);
    case ReleaseOp(t, m) => ReleaseAcyclic(s, t, m);
    case TimeoutOp(t) => TimeoutAcyclic(s, t);
  }

  lemma {:induction false} RunAcyclic(s: Kernel, ops: seq<Op>)
    requires Inv(s) && NoCeilings(s) && Possible(s, ops) && Acyclic(s) && DeadlockFree(s, ops)
    ensures Acyclic(Run(s, ops))
    decreases ops
  {
    if ops == [] {
    } else {
      StepAcyclic(s, ops[0]);
      RunAcyclic(Step(s, ops[0]), ops[1..]);
    }
  }

  /** Exact inheritance in every deadlock-free run of takes, releases and time-outs from fresh objects. */
  lemma RunInherits(prios: seq<nat>, mutexes: nat, ops: seq<Op>)
    requires forall t | 0 <= t < |prios| :: prios[t] <= NO_PRIORITY
    requires Possible(Init(prios, mutexes), ops) && DeadlockFree(Init(prios, mutexes), ops)
    ensures InheritsInitial(Run(Init(prios, mutexes), ops))
  {
    RunAcyclic(Init(prios, mutexes), ops);
    InheritsWithoutCeilings(Run(Init(prios, mutexes), ops));
  }

  lemma BaseWithoutCeilings(s: Kernel, t: nat)
    requires Shape(s) && NoCeilings(s) && t < |s.curr|
    ensures Base(s, t) == s.initPrio[t]
  {
    forall i | 0 <= i < |s.taken[t]| ensures Demand(s.ceiling, s.ceiling, s.taken[t][i]) == 0xff {
      assert s.taken[t][i] < |s.ceiling|;
    }
  }
}
