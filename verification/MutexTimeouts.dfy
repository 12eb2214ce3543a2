/**
 A wait that times out, in its two steps: the timer takes the waiter off the queue, and only later, when it runs
 again, does the woken thread bring the mutex and its owner up to date. In between, others may act.
 */
module MutexTimeouts {
  import opened Common
  import opened MutexSpec
  import opened MutexTheorems

  /** `_thread_timeout`: off the queue and ready to run; the mutex still shows what it showed. */
  ghost function Wake(s: Kernel, t: nat): Kernel
    requires Shape(s) && t < |s.curr| && Waits(s, t).Some?
  {
    var m := Waits(s, t).value;
    s.(suspended := s.suspended[t := false], waiters := s.waiters[m := Remove(s.waiters[m], t)])
  }

  /** One-sided: a mutex shows at least the urgency of its first waiter, and threads have what mutexes show. */
  ghost predicate Bounded(s: Kernel) {
    && Shape(s) && Linked(s)
    && (forall m | 0 <= m < |s.owner| :: SortedBy(s.curr, s.waiters[m]) && s.mprio[m] <= HeadPrio(s.curr, s.waiters[m]))
    && (forall u | 0 <= u < |s.curr| :: Exact(s, u))
  }

  lemma WakeLinked(s: Kernel, t: nat)
    requires Shape(s) && Linked(s) && t < |s.curr| && Waits(s, t).Some?
    ensures Shape(Wake(s, t)) && Linked(Wake(s, t))
  {
    var r := Wake(s, t);
    var m := Waits(s, t).value;
    RemoveBelow(s.waiters[m], t, |s.curr|);
    RemoveNoDup(s.waiters[m], t);
    assert t in s.waiters[m];
    assert forall u | 0 <= u < |s.curr| && u != t :: Waits(r, u) == Waits(s, u);
    assert HoldLinks(r);
    assert WaitLinks(r) by {
      forall u, k | 0 <= u < |s.curr| && 0 <= k < |s.owner|
        ensures u in r.waiters[k] <==> Waits(r, u) == Some(k)
      {
        assert u in s.waiters[k] <==> Waits(s, u) == Some(k);
      }
    }
  }

  /** Any number of waits may time out before anybody has cleaned up. */
  lemma WakeBounded(s: Kernel, t: nat)
    requires Bounded(s) && t < |s.curr| && Waits(s, t).Some?
    ensures Bounded(Wake(s, t)) && Wake(s, t).curr == s.curr && |Wake(s, t).owner| == |s.owner|
  {
    hide WaitLinks, HoldLinks;
    WakeLinked(s, t);
    var r := Wake(s, t);
    var m := Waits(s, t).value;
    RemoveSorted(s.curr, s.waiters[m], t);
    InQueue(s, t, m);
    RemoveHead(s.curr, s.waiters[m], t);
    forall u | 0 <= u < |s.curr| ensures Exact(r, u) {
      assert Exact(s, u);
    }
  }

  lemma InQueue(s: Kernel, t: nat, m: nat)
    requires Shape(s) && Linked(s) && t < |s.curr| && m < |s.owner| && Waits(s, t) == Some(m)
    ensures t in s.waiters[m] && forall u | u in s.waiters[m] :: s.curr[u] <= NO_PRIORITY
  {
    forall u | u in s.waiters[m] ensures u < |s.curr| {
      var i :| 0 <= i < |s.waiters[m]| && s.waiters[m][i] == u;
    }
  }

  /** What survives: an owner is at least as urgent as every thread still queued. */
  lemma BoundedOwner(s: Kernel, m: nat, u: nat)
    requires Bounded(s) && m < |s.owner| && u < |s.curr| && Waits(s, u) == Some(m)
    ensures s.owner[m].Some? && s.curr[s.owner[m].value] <= s.curr[u]
  {
    assert u in s.waiters[m];
    var o := s.owner[m].value;
    var i :| 0 <= i < |s.waiters[m]| && s.waiters[m][i] == u;
    assert s.curr[s.waiters[m][0]] <= s.curr[u];
    assert Exact(s, o) && m in s.taken[o];
    var k :| 0 <= k < |s.taken[o]| && s.taken[o][k] == m;
    assert s.curr[o] <= Demand(s.mprio, s.ceiling, s.taken[o][k]);
  }

  // ----- the clean-up -----

  /** Thread `t` has been woken from mutex `m` and has not cleaned up; nothing else is out of date. */
  ghost predicate Woken(s: Kernel, t: nat, m: nat) {
    && Bounded(s) && t < |s.curr| && m < |s.owner| && !s.suspended[t] && s.pending[t] == Some(m)
    && forall k | 0 <= k < |s.owner| && k != m :: Queued(s, k)
  }

  lemma WakeWoken(s: Kernel, t: nat)
    requires Inv(s) && t < |s.curr| && Waits(s, t).Some?
    ensures Woken(Wake(s, t), t, Waits(s, t).value)
  {
    hide WaitLinks, HoldLinks;
    assert Bounded(s) by {
      forall m | 0 <= m < |s.owner| ensures SortedBy(s.curr, s.waiters[m]) && s.mprio[m] <= HeadPrio(s.curr, s.waiters[m]) {
        assert Queued(s, m);
      }
    }
    WakeBounded(s, t);
    var r, m := Wake(s, t), Waits(s, t).value;
    forall k | 0 <= k < |s.owner| && k != m ensures Queued(r, k) {
      assert Queued(s, k);
    }
  }

  /** The mutex shows the priority of its first waiter again. */
  function Refreshed(s: Kernel, m: nat): Kernel
    requires Shape(s) && m < |s.owner|
  {
    s.(mprio := s.mprio[m := HeadPrio(s.curr, s.waiters[m])])
  }

  /** The test that decides whether the clean-up looks at the owner's priority. */
  predicate NeedsUpdate(s: Kernel, t: nat, m: nat)
    requires Shape(s) && t < |s.curr| && m < |s.owner|
  {
    s.owner[m].Some? && s.curr[s.owner[m].value] == s.curr[t]
  }

  lemma RefreshedLinked(s: Kernel, m: nat)
    requires Shape(s) && Linked(s) && m < |s.owner|
    ensures Shape(Refreshed(s, m)) && Linked(Refreshed(s, m))
  {
    var d := Refreshed(s, m);
    assert forall u | 0 <= u < |s.curr| :: Waits(d, u) == Waits(s, u);
    assert WaitLinks(d) && HoldLinks(d);
  }

  lemma RefreshedKeeps(s: Kernel, t: nat, m: nat)
    requires Woken(s, t, m)
    ensures var d := Refreshed(s, m);
      if s.owner[m].None? then Inv(d) else ExactExcept(d, s.owner[m].value)
  {
    hide Linked, SortedBy;
    var d := Refreshed(s, m);
    RefreshedLinked(s, m);
    forall k | 0 <= k < |s.owner| ensures Queued(d, k) {
      assert k != m ==> Queued(s, k);
    }
    forall u | 0 <= u < |s.curr| && s.owner[m] != Some(u) ensures Exact(d, u) {
      TargetFrame(s, d, m, u);
      assert Exact(s, u);
    }
  }

  /** What the woken thread does in `_rt_mutex_take` before it returns its error. */
  ghost function CleanUp(s: Kernel, t: nat, m: nat): Kernel
    requires Woken(s, t, m)
  {
    RefreshedKeeps(s, t, m);
    var d := Refreshed(s, m);
    var r := if NeedsUpdate(s, t, m) && Target(d, s.owner[m].value) != d.curr[s.owner[m].value]
             then Refresh(d, s.owner[m].value) else d;
    r.(pending := r.pending[t := None])
  }

  lemma PendingIrrelevant(s: Kernel, t: nat)
    requires Shape(s) && t < |s.curr| && !s.suspended[t]
    ensures Inv(s.(pending := s.pending[t := None])) <==> Inv(s)
  {
    var r := s.(pending := s.pending[t := None]);
    assert forall u | 0 <= u < |s.curr| :: Waits(r, u) == Waits(s, u);
    assert Shape(r);
    assert WaitLinks(r) <==> WaitLinks(s);
    assert HoldLinks(r) <==> HoldLinks(s);
    assert Linked(r) <==> Linked(s);
    forall k | 0 <= k < |s.owner| ensures Queued(r, k) <==> Queued(s, k) {
    }
    forall u | 0 <= u < |s.curr| ensures Exact(r, u) <==> Exact(s, u) {
    }
  }

  /**
   Whatever has happened since the timeout, the clean-up makes everything exact again if and only if its test
   fires, or the owner needs nothing: it is tied to the waiter's priority at clean-up, not when it was queued.
   */
  lemma CleanUpExact(s: Kernel, t: nat, m: nat)
    requires Woken(s, t, m)
    ensures Shape(Refreshed(s, m))
    ensures Inv(CleanUp(s, t, m)) <==>
      s.owner[m].None? || NeedsUpdate(s, t, m) || Target(Refreshed(s, m), s.owner[m].value) == s.curr[s.owner[m].value]
  {
    hide Linked, Queued, Refreshed;
    RefreshedKeeps(s, t, m);
    var d := Refreshed(s, m);
    assert d == s.(mprio := d.mprio) by {
      RefreshedFields(s, m);
    }
    if s.owner[m].Some? && NeedsUpdate(s, t, m) && Target(d, s.owner[m].value) != d.curr[s.owner[m].value] {
      PendingIrrelevant(Refresh(d, s.owner[m].value), t);
    } else {
      PendingIrrelevant(d, t);
      if s.owner[m].Some? {
        assert Inv(d) <==> Exact(d, s.owner[m].value);
      }
    }
  }

  lemma RefreshedFields(s: Kernel, m: nat)
    requires Shape(s) && m < |s.owner|
    ensures Refreshed(s, m) == s.(mprio := Refreshed(s, m).mprio)
  {
  }

  /** With nothing in between, the two steps are the timeout taken as one. */
  lemma TwoSteps(s: Kernel, t: nat)
    requires Inv(s) && t < |s.curr| && Waits(s, t).Some?
    ensures var m := Waits(s, t).value;
      Woken(Wake(s, t), t, m) && CleanUp(Wake(s, t), t, m) == Timeout(s, t) && Inv(CleanUp(Wake(s, t), t, m))
  {
    hide Linked, Queued;
    var m := Waits(s, t).value;
    WakeWoken(s, t);
    DetachKeeps(s, t, m);
    assert Refreshed(Wake(s, t), m) == Detach(s, t, m) by {
      RemoveBelow(s.waiters[m], t, |s.curr|);
    }
  }

  // ----- a boost that nobody takes back -----

  /** The blocking branch of a take of a mutex whose owner is not itself waiting: up to the owner and no further. */
  function TakeBehind(s: Kernel, t: nat, m: nat): Kernel
    requires Shape(s) && t < |s.curr| && m < |s.owner| && s.owner[m].Some?
  {
    var o := s.owner[m].value;
    var p := Min(s.curr[t], s.mprio[m]);
    s.(suspended := s.suspended[t := true], pending := s.pending[t := Some(m)],
       waiters := s.waiters[m := Enqueue(s.curr, s.waiters[m], t)], mprio := s.mprio[m := p],
       curr := if s.curr[t] < s.mprio[m] && p < s.curr[o] then s.curr[o := p] else s.curr)
  }

  lemma RefreshRunning(s: Kernel, t: nat)
    requires ExactExcept(s, t) && !s.suspended[t]
    ensures Refresh(s, t) == s.(curr := s.curr[t := Target(s, t)])
  {
    hide Linked, Queued;
    var boost := Target(s, t) <= s.curr[t];
    ChangeKeeps(s, t, boost);
  }

  lemma TakeBehindIsTake(s: Kernel, t: nat, m: nat)
    requires Inv(s) && Running(s, t) && m < |s.owner| && s.owner[m].Some? && s.owner[m] != Some(t)
    requires !s.suspended[s.owner[m].value]
    ensures Take(s, t, m, true) == (TakeBehind(s, t, m), Blocked)
  {
    hide Linked, Queued;
    var o := s.owner[m].value;
    SuspendKeeps(s, t, m);
    if s.curr[t] < s.mprio[m] && s.curr[t] < s.curr[o] {
      RefreshRunning(Suspend(s, t, m).(mprio := s.mprio[m := s.curr[t]]), o);
    }
    assert s.mprio[m := s.mprio[m]] == s.mprio;
  }

  // Thread 0, of priority 20, owns mutex 0; thread 1, of priority 10, owns mutex 1 and waits for mutex 0.

  function Fresh3(): Kernel {
    Kernel([20, 10, 5], [20, 10, 5], [false, false, false], [None, None, None], [[], [], []], [None, None], [0, 0],
      [NO_PRIORITY, NO_PRIORITY], [0xff, 0xff], [[], []])
  }

  function OneHeld(): Kernel {
    Fresh3().(taken := [[], [1], []], owner := [None, Some(1)], hold := [0, 1])
  }

  function BothHeld(): Kernel {
    Fresh3().(taken := [[0], [1], []], owner := [Some(0), Some(1)], hold := [1, 1])
  }

  function Boosted(): Kernel {
    BothHeld().(curr := [10, 10, 5], suspended := [false, true, false], pending := [None, Some(0), None],
      mprio := [10, NO_PRIORITY], waiters := [[1], []])
  }

  /** The wait for mutex 0 has timed out, and before thread 1 ran, thread 2 has blocked on mutex 1. */
  function Overtaken(): Kernel {
    BothHeld().(curr := [10, 5, 5], suspended := [false, false, true], pending := [None, Some(0), Some(1)],
      mprio := [10, 5], waiters := [[], [2]])
  }

  /** Thread 1 has given up, nobody waits for mutex 0, and its owner still has priority 10. */
  function LeftBehind(): Kernel {
    Overtaken().(pending := [None, None, Some(1)], mprio := [NO_PRIORITY, 5])
  }

  lemma HeldSteps()
    ensures Init([20, 10, 5], 2) == Fresh3() && Inv(Fresh3())
    ensures Running(Fresh3(), 1) && Take(Fresh3(), 1, 1, true) == (OneHeld(), Ok)
    ensures Inv(OneHeld()) && Running(OneHeld(), 0) && Take(OneHeld(), 0, 0, true) == (BothHeld(), Ok)
    ensures Inv(BothHeld())
  {
    hide Linked, Queued, Exact;
    assert Init([20, 10, 5], 2) == Fresh3();
    FirstHeld();
    assert Take(Fresh3(), 1, 1, true) == (OneHeld(), Ok);
    SecondHeld();
    assert Take(OneHeld(), 0, 0, true) == (BothHeld(), Ok);
  }

  lemma FirstHeld()
    requires Inv(Fresh3())
    ensures Acquire(Fresh3(), 1, 1) == OneHeld()
  {
    hide Inv;
    var none: Option<nat>, e: seq<nat> := None, [];
    assert [1] + e == [1] && [none, none][1 := Some(1)] == [none, Some(1)] && [0, 0][1 := 1] == [0, 1];
    assert [e, e, e][1 := [1]] == [e, [1], e];
    var p := [NO_PRIORITY, NO_PRIORITY];
    assert p[1 := NO_PRIORITY] == p;
  }

  lemma SecondHeld()
    requires Inv(OneHeld())
    ensures Acquire(OneHeld(), 0, 0) == BothHeld()
  {
    hide Inv;
    var none: Option<nat>, e: seq<nat> := None, [];
    assert [0] + e == [0] && [none, Some(1)][0 := Some(0)] == [Some(0), Some(1)] && [0, 1][0 := 1] == [1, 1];
    assert [e, [1], e][0 := [0]] == [[0], [1], e];
    var p := [NO_PRIORITY, NO_PRIORITY];
    assert p[0 := NO_PRIORITY] == p;
  }

  lemma BoostStep()
    requires Inv(BothHeld())
    ensures Running(BothHeld(), 1) && Take(BothHeld(), 1, 0, true) == (Boosted(), Blocked) && Inv(Boosted())
  {
    hide Linked, Queued, Exact, Take;
    var s := BothHeld();
    var none: Option<nat>, e: seq<nat> := None, [];
    TakeBehindIsTake(s, 1, 0);
    assert Enqueue(s.curr, e, 1) == [1];
    assert [false, false, false][1 := true] == [false, true, false];
    assert [none, none, none][1 := Some(0)] == [none, Some(0), none];
    assert [e, e][0 := [1]] == [[1], e] && [20, 10, 5][0 := 10] == [10, 10, 5];
    assert [NO_PRIORITY, NO_PRIORITY][0 := 10] == [10, NO_PRIORITY];
  }

  lemma OvertakeStep()
    requires Inv(Boosted())
    ensures Waits(Boosted(), 1) == Some(0) && Shape(Wake(Boosted(), 1))
    ensures TakeBehind(Wake(Boosted(), 1), 2, 1) == Overtaken()
  {
    hide Linked, Queued, Exact;
    var s, w := Boosted(), Wake(Boosted(), 1);
    var none: Option<nat>, e: seq<nat> := None, [];
    RemoveBelow(s.waiters[0], 1, |s.curr|);
    assert Remove([1], 1) == e && [[1], e][0 := e] == [e, e];
    assert [false, true, false][1 := false] == [false, false, false];
    assert w == s.(suspended := [false, false, false], waiters := [e, e]);
    assert Enqueue(w.curr, e, 2) == [2];
    assert [false, false, false][2 := true] == [false, false, true];
    assert [none, Some(0), none][2 := Some(1)] == [none, Some(0), Some(1)];
    assert [e, e][1 := [2]] == [e, [2]] && [10, 10, 5][1 := 5] == [10, 5, 5];
    assert [10, NO_PRIORITY][1 := 5] == [10, 5];
  }

  lemma OvertakenWoken()
    ensures Woken(Overtaken(), 1, 0)
  {
    hide WaitLinks, HoldLinks, HeldPrio;
    OvertakenLinked();
    OvertakenTargets();
    var s := Overtaken();
    forall u | 0 <= u < |s.curr| ensures Exact(s, u) {
      assert u in {0, 1, 2};
    }
  }

  lemma OvertakenLinked()
    ensures Shape(Overtaken()) && Linked(Overtaken())
  {
    hide WaitLinks, HoldLinks;
    OvertakenWaits();
    OvertakenHolds();
  }

  lemma OvertakenWaits()
    ensures Shape(Overtaken()) && WaitLinks(Overtaken())
  {
    var s := Overtaken();
    assert Shape(s);
    forall t, m | 0 <= t < |s.curr| && 0 <= m < |s.owner| ensures t in s.waiters[m] <==> Waits(s, t) == Some(m) {
      assert m in {0, 1} && t in {0, 1, 2};
    }
  }

  lemma OvertakenHolds()
    ensures Shape(Overtaken()) && HoldLinks(Overtaken())
  {
    var s := Overtaken();
    assert Shape(s);
    forall t, m | 0 <= t < |s.curr| && 0 <= m < |s.owner| ensures m in s.taken[t] <==> s.owner[m] == Some(t) {
      assert m in {0, 1} && t in {0, 1, 2};
    }
  }

  lemma OvertakenTargets()
    ensures var s := Overtaken(); Shape(s) && Exact(s, 0) && Exact(s, 1) && Exact(s, 2)
  {
    var s := Overtaken();
    assert HeldPrio(20, [0], s.mprio, s.ceiling) == HeldPrio(10, [], s.mprio, s.ceiling) == 10;
    assert HeldPrio(10, [1], s.mprio, s.ceiling) == HeldPrio(5, [], s.mprio, s.ceiling) == 5;
  }

  /**
   The boost can be left behind, from fresh objects and with calls in an order that occurs: a waiter times out, a
   more urgent thread blocks on something the waiter owns before the waiter runs, and so the waiter's priority is
   no longer its owner's when it cleans up. The owner keeps the priority of a thread that does not wait for it.
   */
  lemma BoostLeftBehind()
    ensures Init([20, 10, 5], 2) == Fresh3() && Inv(Fresh3()) && Inv(OneHeld()) && Inv(BothHeld()) && Inv(Boosted())
    ensures Take(Fresh3(), 1, 1, true) == (OneHeld(), Ok) && Take(OneHeld(), 0, 0, true) == (BothHeld(), Ok)
    ensures Take(BothHeld(), 1, 0, true) == (Boosted(), Blocked) && Waits(Boosted(), 1) == Some(0)
    ensures Shape(Wake(Boosted(), 1)) && TakeBehind(Wake(Boosted(), 1), 2, 1) == Overtaken() && Woken(Overtaken(), 1, 0)
    ensures CleanUp(Overtaken(), 1, 0) == LeftBehind() && !Inv(LeftBehind())
    ensures LeftBehind().waiters[0] == [] && LeftBehind().curr[0] == 10 < LeftBehind().initPrio[0]
  {
    hide Linked, Queued, Exact, Woken, Take, TakeBehind, Wake, Refreshed, Target, Enqueue;
    HeldSteps();
    BoostStep();
    OvertakeStep();
    OvertakenWoken();
    NothingDemanded();
    CleanUpExact(Overtaken(), 1, 0);
    CleanUpStep();
  }

  lemma CleanUpStep()
    requires Woken(Overtaken(), 1, 0)
    ensures CleanUp(Overtaken(), 1, 0) == LeftBehind()
  {
    hide Linked, Queued, Exact, Bounded;
    var none: Option<nat> := None;
    assert [none, Some(0), Some(1)][1 := none] == [none, none, Some(1)];
    assert [10, 5][0 := NO_PRIORITY] == [NO_PRIORITY, 5];
  }

  lemma NothingDemanded()
    ensures Shape(Refreshed(Overtaken(), 0)) && Target(Refreshed(Overtaken(), 0), 0) == 20
  {
    var r := Refreshed(Overtaken(), 0);
    assert HeldPrio(20, [0], r.mprio, r.ceiling) == HeldPrio(20, [], r.mprio, r.ceiling);
  }
}
