/** Setting a priority ceiling while the system runs, and the one place where ceilings are not honoured. */
module MutexCeilings {
  import opened Common
  import opened MutexSpec
  import opened MutexTheorems

  /** The owner of a mutex, if any, is the only thread whose priority a new ceiling can change. */
  lemma CeilingFrame(s: Kernel, m: nat, p: nat, u: nat)
    requires Inv(s) && m < |s.owner| && u < |s.curr| && s.owner[m] != Some(u)
    ensures Shape(s.(ceiling := s.ceiling[m := p])) && Target(s.(ceiling := s.ceiling[m := p]), u) == Target(s, u)
  {
    forall i | 0 <= i < |s.taken[u]| ensures s.taken[u][i] != m {
      assert s.taken[u][i] in s.taken[u];
    }
    OtherCeiling(s.initPrio[u], s.taken[u], s.mprio, s.ceiling, m, p);
  }

  lemma {:induction false} OtherCeiling(q: nat, ms: seq<nat>, mprio: seq<nat>, ceiling: seq<nat>, m: nat, p: nat)
    requires Below(ms, |mprio|) && |mprio| == |ceiling| && m < |mprio| && forall i | 0 <= i < |ms| :: ms[i] != m
    ensures HeldPrio(q, ms, mprio, ceiling[m := p]) == HeldPrio(q, ms, mprio, ceiling)
  {
    if ms == [] {
    } else {
      assert forall i | 0 <= i < |ms[1..]| :: ms[1..][i] == ms[i + 1];
      OtherCeiling(Min(q, Demand(mprio, ceiling, ms[0])), ms[1..], mprio, ceiling, m, p);
    }
  }

  lemma CeilingKeeps(s: Kernel, m: nat, p: nat)
    requires Inv(s) && m < |s.owner|
    ensures var c := s.(ceiling := s.ceiling[m := p]);
      if s.owner[m].None? then Inv(c) else ExactExcept(c, s.owner[m].value)
  {
    var c := s.(ceiling := s.ceiling[m := p]);
    assert forall u | 0 <= u < |s.curr| :: Waits(c, u) == Waits(s, u);
    assert WaitLinks(c) && HoldLinks(c);
    forall k | 0 <= k < |s.owner| ensures Queued(c, k) {
      assert Queued(s, k);
    }
    forall u | 0 <= u < |s.curr| && s.owner[m] != Some(u) ensures Exact(c, u) {
      CeilingFrame(s, m, p, u);
      assert Exact(s, u);
    }
  }

  /** `rt_mutex_setprioceiling` with a priority that exists: the owner is brought up or down to what it now needs. */
  ghost function SetCeiling(s: Kernel, m: nat, p: nat): (r: Kernel)
    requires Inv(s) && m < |s.owner|
    ensures Inv(r) && r.ceiling == s.ceiling[m := p]
  {
    CeilingKeeps(s, m, p);
    var c := s.(ceiling := s.ceiling[m := p]);
    if s.owner[m].None? then c
    else
      var o := s.owner[m].value;
      if Target(c, o) != c.curr[o] then Refresh(c, o) else assert Exact(c, o); c
  }

  // ----- a ceiling that is not honoured -----

  /** A thread of priority 10 waits for a mutex of ceiling 5 that one of priority 20 holds, at priority 5. */
  function Waiting(): Kernel {
    Kernel([10, 20], [10, 5], [true, false], [Some(0), None], [[], [0]], [Some(1)], [1], [10], [5], [[0]])
  }

  function Fresh2(): Kernel {
    Kernel([10, 20], [10, 20], [false, false], [None, None], [[], []], [None], [0], [NO_PRIORITY], [0xff], [[]])
  }

  function Held(): Kernel {
    Kernel([10, 20], [10, 5], [false, false], [None, None], [[], [0]], [Some(1)], [1], [NO_PRIORITY], [5], [[]])
  }

  lemma CeilingSet()
    ensures Init([10, 20], 1) == Fresh2() && SetCeiling(Init([10, 20], 1), 0, 5) == Fresh2().(ceiling := [5])
  {
    assert Init([10, 20], 1) == Fresh2();
    assert [0xff][0 := 5] == [5];
  }

  lemma FirstTake(c: Kernel)
    requires c == Fresh2().(ceiling := [5]) && Inv(c)
    ensures Running(c, 1) && Take(c, 1, 0, true) == (Held(), Ok)
  {
    var none: Option<nat> := None;
    assert [none][0 := Some(1)] == [Some(1)];
    assert [10, 20][1 := 5] == [10, 5] && [0][0 := 1] == [1] && [NO_PRIORITY][0 := NO_PRIORITY] == [NO_PRIORITY];
    var e: seq<nat> := [];
    assert [0] + e == [0] && [e, e][1 := [0]] == [e, [0]];
    assert Acquire(c, 1, 0) == Held();
  }

  lemma SecondTake()
    requires Inv(Held())
    ensures Running(Held(), 0) && Take(Held(), 0, 0, true) == (Waiting(), Blocked) && Inv(Waiting())
  {
    var s := Held();
    var none: Option<nat> := None;
    var e: seq<nat> := [];
    assert Enqueue(s.curr, e, 0) == [0];
    assert [false, false][0 := true] == [true, false] && [none, none][0 := Some(0)] == [Some(0), none];
    assert [e][0 := [0]] == [[0]] && [NO_PRIORITY][0 := 10] == [10];
    assert Suspend(s, 0, 0).(mprio := s.mprio[0 := 10]) == Waiting();
  }

  /**
   That state comes about from fresh objects: the ceiling is set, the less urgent thread takes the mutex, the
   other one blocks on it. Releasing it then leaves the new owner at its own priority, not at the ceiling.
   */
  lemma CeilingMissed()
    ensures var c := SetCeiling(Init([10, 20], 1), 0, 5);
      && Running(c, 1) && Running(Take(c, 1, 0, true).0, 0)
      && Take(Take(c, 1, 0, true).0, 0, 0, true) == (Waiting(), Blocked)
    ensures Inv(Waiting()) && Running(Waiting(), 1) && !CeilingCovers(Waiting(), 1, 0)
    ensures !Inv(Release(Waiting(), 1, 0).0)
  {
    hide Linked, Queued, Exact, Take, Target, Release;
    CeilingSet();
    FirstTake(SetCeiling(Init([10, 20], 1), 0, 5));
    SecondTake();
    ReleaseKeeps(Waiting(), 1, 0);
  }
}
