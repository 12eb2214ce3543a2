/** The mutex code itself: the loops and in-place updates, each proved against the pure specification. */
module MutexKernel {
  import opened Common
  import opened MutexSpec
  import opened MutexTheorems
  import MutexCeilings
  import MutexOwnership
  import MutexTimeouts

  const PRIORITY_MAX: nat := 32   // RT_THREAD_PRIORITY_MAX

  class Kernel {
    // thread control blocks
    const initPriority: seq<nat>
    var currentPriority: seq<nat>
    var suspended: seq<bool>
    var pendingObject: seq<Option<nat>>
    var takenObjectList: seq<seq<nat>>
    // mutex control blocks
    var ceilingPriority: seq<nat>
    var owner: seq<Option<nat>>
    var hold: seq<nat>
    var priority: seq<nat>
    var suspendThread: seq<seq<nat>>

    ghost function State(): MutexSpec.Kernel
      reads this
    {
      MutexSpec.Kernel.Kernel(initPriority, currentPriority, suspended, pendingObject, takenObjectList,
        owner, hold, priority, ceilingPriority, suspendThread)
    }

    constructor (prios: seq<nat>, mutexes: nat)
      requires forall t | 0 <= t < |prios| :: prios[t] <= NO_PRIORITY
      ensures State() == Init(prios, mutexes)
    {
      initPriority, currentPriority := prios, prios;
      suspended := seq(|prios|, _ => false);
      pendingObject := seq(|prios|, _ => None);
      takenObjectList := seq(|prios|, _ => []);
      ceilingPriority := seq(mutexes, _ => 0xff);
      owner := seq(mutexes, _ => None);
      hold := seq(mutexes, _ => 0);
      priority := seq(mutexes, _ => NO_PRIORITY);
      suspendThread := seq(mutexes, _ => []);
    }

    method ThreadGetMutexPriority(thread: nat) returns (p: nat)
      requires Shape(State()) && thread < |currentPriority|
      ensures p == Target(State(), thread)
    {
      p := initPriority[thread];
      var node := 0;
      while node < |takenObjectList[thread]|
        invariant node <= |takenObjectList[thread]|
        invariant Below(takenObjectList[thread][node..], |priority|)
        invariant HeldPrio(p, takenObjectList[thread][node..], priority, ceilingPriority) == Target(State(), thread)
      {
        var mutex := takenObjectList[thread][node];
        var mutexPrio := if priority[mutex] < ceilingPriority[mutex] then priority[mutex] else ceilingPriority[mutex];
        if p > mutexPrio {
          p := mutexPrio;
        }
        assert takenObjectList[thread][node..][1..] == takenObjectList[thread][node + 1..];
        node := node + 1;
      }
    }

    /** `rt_susp_list_enqueue` with RT_IPC_FLAG_PRIO, the only flag a mutex has. */
    method SuspListEnqueue(mutex: nat, thread: nat)
      requires mutex < |suspendThread| && thread < |currentPriority|
      requires Below(suspendThread[mutex], |currentPriority|)
      modifies this`suspendThread
      ensures suspendThread == old(suspendThread)[mutex := Enqueue(currentPriority, old(suspendThread[mutex]), thread)]
    {
      hide Past, Enqueue;
      var list := suspendThread[mutex];
      var n := 0;
      PastNone(currentPriority, list, thread);
      while n < |list| && currentPriority[thread] >= currentPriority[list[n]]
        invariant suspendThread == old(suspendThread) && n <= |list| && Past(currentPriority, list, thread, n)
      {
        PastNext(currentPriority, list, thread, n);
        n := n + 1;
      }
      PastStop(currentPriority, list, thread, n);
      suspendThread := suspendThread[mutex := list[..n] + [thread] + list[n..]];
    }

    /** `_mutex_update_priority` */
    method MutexUpdatePriority(mutex: nat)
      requires mutex < |suspendThread| && mutex < |priority| && Below(suspendThread[mutex], |currentPriority|)
      modifies this`priority
      ensures priority == old(priority)[mutex := HeadPrio(currentPriority, suspendThread[mutex])]
    {
      if suspendThread[mutex] != [] {
        priority := priority[mutex := currentPriority[suspendThread[mutex][0]]];
      } else {
        priority := priority[mutex := 0xff];
      }
    }

    /** One pass of `_thread_update_priority`: re-sort the queue, then see whether its owner must move too. */
    method UpdatePass(thread: nat, mutex: nat) returns (next: nat, ok: bool)
      requires Shape(State()) && thread < |currentPriority| && mutex < |owner| && owner[mutex].Some?
      requires Below(Remove(suspendThread[mutex], thread), |currentPriority|)
      requires Shape(Requeue(State(), thread, mutex))
      modifies this`currentPriority, this`suspendThread, this`priority
      ensures next == owner[mutex].value
      ensures var r := Requeue(old(State()), thread, mutex);
        && ok == (Target(r, next) != r.curr[next])
        && State() == if ok then r.(curr := r.curr[next := Target(r, next)]) else r
    {
      ghost var s := State();
      suspendThread := suspendThread[mutex := Remove(suspendThread[mutex], thread)];
      SuspListEnqueue(mutex, thread);
      MutexUpdatePriority(mutex);
      assert State() == Requeue(s, thread, mutex);
      next := owner[mutex].value;
      var mutexPriority := ThreadGetMutexPriority(next);
      ok := mutexPriority != currentPriority[next];
      if ok {
        currentPriority := currentPriority[next := mutexPriority];
      }
    }

    /** `_thread_update_priority`: walks the chain of owners until a priority stops changing. */
    method ThreadUpdatePriority(thread0: nat, prio: nat)
      requires Shape(State()) && thread0 < |currentPriority| && prio <= NO_PRIORITY
      requires !suspended[thread0] || (ExactExcept(State(), thread0) && prio == Target(State(), thread0))
      modifies this`currentPriority, this`suspendThread, this`priority
      ensures !suspended[thread0] ==> State() == old(State()).(curr := old(currentPriority)[thread0 := prio])
      ensures suspended[thread0] ==> State() == Refresh(old(State()), thread0)
    {
      hide Linked, Queued, OnItsWay, Stale, Measure, Requeue;
      ghost var s0 := State();
      ghost var boost := prio <= currentPriority[thread0];
      ghost var goal;
      if suspended[thread0] {
        goal := Refresh(s0, thread0);
      } else {
        goal := s0.(curr := currentPriority[thread0 := prio]);
      }
      currentPriority := currentPriority[thread0 := prio];
      assert State() == s0.(curr := s0.curr[thread0 := prio]);
      if suspended[thread0] {
        SetOff(s0, thread0, boost, State());
      }
      var thread: nat, ok := thread0, true;
      while ok && suspended[thread]
        invariant Shape(State()) && thread < |suspended|
        invariant ok && suspended[thread] ==> OnItsWay(State(), thread, boost, goal)
        invariant !(ok && suspended[thread]) ==> State() == goal
        decreases ok, Measure(State(), boost)
      {
        Arrived(State(), thread, boost, goal);
        match pendingObject[thread]
        case None =>
          ok := false;
        case Some(mutex) =>
          OnePassOn(State(), thread, mutex, boost, goal);
          thread, ok := UpdatePass(thread, mutex);
          if ok {
            Arrived(State(), thread, boost, goal);
          }
      }
    }

    method Take(thread: nat, mutex: nat, timeout: int) returns (status: Status)
      requires Inv(State()) && Running(State(), thread) && mutex < |owner|
      modifies this
      ensures (State(), status) == MutexSpec.Take(old(State()), thread, mutex, timeout != 0)
    {
      hide Linked, Queued, HeldPrio, Remove, Below;
      ghost var s := State();
      if owner[mutex] == Some(thread) {
        if hold[mutex] < HOLD_MAX {
          hold := hold[mutex := hold[mutex] + 1];
          return Ok;
        } else {
          return Full;
        }
      } else if owner[mutex] == None {
        owner := owner[mutex := Some(thread)];
        priority := priority[mutex := 0xff];
        hold := hold[mutex := 1];
        if ceilingPriority[mutex] != 0xff {
          if ceilingPriority[mutex] < currentPriority[thread] {
            ThreadUpdatePriority(thread, ceilingPriority[mutex]);
          }
        }
        takenObjectList := takenObjectList[thread := [mutex] + takenObjectList[thread]];
        return Ok;
      } else if timeout == 0 {
        return TimedOut;
      } else {
        SuspendKeeps(s, thread, mutex);
        suspended := suspended[thread := true];
        SuspListEnqueue(mutex, thread);
        pendingObject := pendingObject[thread := Some(mutex)];
        assert State() == Suspend(s, thread, mutex);
        var prio := currentPriority[thread];
        if prio < priority[mutex] {
          priority := priority[mutex := prio];
          var holder := owner[mutex].value;
          if priority[mutex] < currentPriority[holder] {
            ThreadUpdatePriority(holder, prio);
          }
        }
        return Blocked;
      }
    }

    method Release(thread: nat, mutex: nat) returns (status: Status)
      requires Inv(State()) && Running(State(), thread) && mutex < |owner|
      modifies this
      ensures (State(), status) == MutexSpec.Release(old(State()), thread, mutex)
    {
      hide HandOver, Queued, Exact;
      ghost var s := State();
      if owner[mutex] != Some(thread) {
        return NotOwner;
      }
      hold := hold[mutex := hold[mutex] - 1];
      if hold[mutex] == 0 {
        RemoveBelow(takenObjectList[thread], mutex, |owner|);
        takenObjectList := takenObjectList[thread := Remove(takenObjectList[thread], mutex)];
        if ceilingPriority[mutex] != 0xff || currentPriority[thread] == priority[mutex] {
          var prio := ThreadGetMutexPriority(thread);
          currentPriority := currentPriority[thread := prio];
        }
        assert State() == Drop(s, thread, mutex);
        DropShape(s, thread, mutex);
        PassOn(mutex);
      }
      return Ok;
    }

    /** The end of a release: the mutex goes to its first waiter, if there is one. */
    method PassOn(mutex: nat)
      requires Shape(State()) && mutex < |owner|
      modifies this
      ensures State() == HandOver(old(State()), mutex)
    {
      if suspendThread[mutex] != [] {
        var next := suspendThread[mutex][0];
        suspendThread := suspendThread[mutex := suspendThread[mutex][1..]];
        suspended := suspended[next := false];
        owner := owner[mutex := Some(next)];
        hold := hold[mutex := 1];
        takenObjectList := takenObjectList[next := [mutex] + takenObjectList[next]];
        pendingObject := pendingObject[next := None];
        MutexUpdatePriority(mutex);
      } else {
        owner := owner[mutex := None];
        priority := priority[mutex := 0xff];
      }
    }

    /** `_thread_timeout` */
    method Wake(thread: nat)
      requires Shape(State()) && thread < |currentPriority| && Waits(State(), thread).Some?
      modifies this`suspendThread, this`suspended
      ensures State() == MutexTimeouts.Wake(old(State()), thread)
    {
      var mutex := pendingObject[thread].value;
      suspendThread := suspendThread[mutex := Remove(suspendThread[mutex], thread)];
      suspended := suspended[thread := false];
    }

    /** The end of `_rt_mutex_take` in a thread that was woken without getting the mutex. */
    method CleanUp(thread: nat, mutex: nat)
      requires MutexTimeouts.Woken(State(), thread, mutex)
      modifies this
      ensures State() == MutexTimeouts.CleanUp(old(State()), thread, mutex)
    {
      hide Linked, Queued;
      MutexTimeouts.RefreshedKeeps(State(), thread, mutex);
      var needUpdate := owner[mutex].Some? && currentPriority[owner[mutex].value] == currentPriority[thread];
      MutexUpdatePriority(mutex);
      if needUpdate {
        var holder := owner[mutex].value;
        var prio := ThreadGetMutexPriority(holder);
        if prio != currentPriority[holder] {
          assert ExactExcept(State(), holder) && prio <= initPriority[holder];
          ThreadUpdatePriority(holder, prio);
        }
      }
      pendingObject := pendingObject[thread := None];
    }

    /** The end of a take that had blocked: the mutex was handed over, or the wait is cleaned up after. */
    method ComeBack(thread: nat, mutex: nat) returns (status: Status)
      requires Shape(State()) && mutex < |owner|
      requires owner[mutex] != Some(thread) ==> MutexTimeouts.Woken(State(), thread, mutex)
      modifies this
      ensures status == MutexOwnership.Returned(old(State()), thread, mutex)
      ensures State() == if status == Ok then old(State()) else MutexTimeouts.CleanUp(old(State()), thread, mutex)
    {
      hide MutexTimeouts.Woken, MutexTimeouts.CleanUp;
      if owner[mutex] == Some(thread) {
        return Ok;
      }
      CleanUp(thread, mutex);
      return TimedOut;
    }

    /** Both steps with nothing in between. */
    method Timeout(thread: nat)
      requires Inv(State()) && thread < |currentPriority| && Waits(State(), thread).Some?
      modifies this
      ensures State() == MutexTheorems.Timeout(old(State()), thread)
    {
      hide Linked, Queued;
      MutexTimeouts.TwoSteps(State(), thread);
      var mutex := pendingObject[thread].value;
      Wake(thread);
      CleanUp(thread, mutex);
    }

    /** `rt_mutex_setprioceiling`: the old ceiling, or 0xff for a priority that does not exist. */
    method SetPrioCeiling(mutex: nat, prio: nat) returns (ret: nat)
      requires Inv(State()) && mutex < |owner|
      modifies this
      ensures prio < PRIORITY_MAX ==>
        State() == MutexCeilings.SetCeiling(old(State()), mutex, prio) && ret == old(ceilingPriority[mutex])
      ensures prio >= PRIORITY_MAX ==> State() == old(State()) && ret == 0xff
    {
      hide Linked, Queued;
      ret := 0xff;
      if prio < PRIORITY_MAX {
        MutexCeilings.CeilingKeeps(State(), mutex, prio);
        ret := ceilingPriority[mutex];
        ceilingPriority := ceilingPriority[mutex := prio];
        if owner[mutex].Some? {
          var holder := owner[mutex].value;
          var highest := ThreadGetMutexPriority(holder);
          if highest != currentPriority[holder] {
            assert highest <= initPriority[holder];
            ThreadUpdatePriority(holder, highest);
          }
        }
      }
    }
  }
}
