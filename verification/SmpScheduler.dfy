/** The multi-core scheduler code: in-place updates of the ready tables, each proved against the step it performs. */
module SmpScheduler {
  import opened Common
  import opened ThreadState
  import opened SmpSpec
  import SmpTheorems

  class Scheduler {
    const cpus: nat
    const levels: nat
    const idle: seq<nat>
    // per thread
    var stat: seq<Stat>
    var yielded: seq<bool>
    var oncpu: seq<nat>
    var bindCpu: seq<nat>
    var currentPriority: seq<nat>
    // the global ready queue
    var priorityTable: seq<seq<nat>>
    var priorityGroup: set<nat>
    // per CPU
    var pcpuTable: seq<seq<seq<nat>>>
    var pcpuGroup: seq<set<nat>>
    var currentThread: seq<nat>

    ghost function State(): Sched
      reads this
    {
      Sched(cpus, levels, idle, stat, yielded, oncpu, bindCpu, currentPriority,
        pcpuTable + [priorityTable], pcpuGroup + [priorityGroup], currentThread)
    }

    /** The system just before it starts: each CPU is handed its own idle thread, nothing is queued. */
    constructor (levels: nat, threads: nat, idle: seq<nat>, prios: seq<nat>)
      requires |prios| == threads && forall t | 0 <= t < threads :: prios[t] < levels
      requires NoDup(idle) && forall c | 0 <= c < |idle| :: idle[c] < threads
      ensures Inv(State()) && cpus == |idle| && this.levels == levels && currentThread == idle
      ensures currentPriority == prios
      ensures forall t | 0 <= t < threads :: stat[t] == if t in idle then Running else Initial
    {
      hide SeatOf;
      this.cpus, this.levels, this.idle := |idle|, levels, idle;
      stat := seq(threads, t requires 0 <= t => if t in idle then Running else Initial);
      yielded := seq(threads, _ => false);
      oncpu := seq(threads, t requires 0 <= t => SeatOf(idle, t));
      bindCpu := seq(threads, t requires 0 <= t => SeatOf(idle, t));
      currentPriority := prios;
      priorityTable, priorityGroup := seq(levels, _ => []), {};
      pcpuTable := seq(|idle|, _ => seq(levels, _ => []));
      pcpuGroup := seq(|idle|, _ => {});
      currentThread := idle;
      new;
      var s := State();
      forall c | 0 <= c < |idle| ensures Manned(s, c) {
        SeatOfIdle(idle, c);
      }
      forall t | 0 <= t < |stat| ensures Seated(s, t) && Placed(s, t) {
      }
      forall b, p | 0 <= b <= cpus && 0 <= p < levels ensures Indexed(s, b, p) {
      }
    }

    /** `_scheduler_get_highest_priority_thread` on CPU `cpu`. */
    method GetHighestPriorityThread(cpu: nat) returns (thread: Option<nat>, prio: nat)
      requires Queues(State()) && cpu < cpus
      ensures var h := Highest(State(), cpu);
        && prio == h.1 && (h.1 >= levels ==> thread == None)
        && (h.1 < levels ==> State().ready[h.0][h.1] != [] && thread == Some(State().ready[h.0][h.1][0]))
    {
      assert State().group[cpus] == priorityGroup && State().group[cpu] == pcpuGroup[cpu];
      assert State().ready[cpus] == priorityTable && State().ready[cpu] == pcpuTable[cpu];
      var highest := Lowest(priorityGroup, levels);
      var localHighest := Lowest(pcpuGroup[cpu], levels);
      assert Highest(State(), cpu) == if highest < localHighest then (cpus, highest) else (cpu, localHighest);
      if highest < localHighest {
        assert Indexed(State(), cpus, highest);
        return Some(priorityTable[highest][0]), highest;
      } else if localHighest < levels {
        assert Indexed(State(), cpu, localHighest);
        return Some(pcpuTable[cpu][localHighest][0]), localHighest;
      } else {
        return None, localHighest;
      }
    }

    /** `_sched_insert_thread_locked` */
    method InsertThread(thread: nat)
      requires Shape(State()) && thread < |stat|
      modifies this
      ensures State() == Insert(old(State()), thread)
    {
      if stat[thread] == Ready {
        return;
      } else if oncpu[thread] != cpus {
        stat := stat[thread := Running];
        return;
      }
      stat := stat[thread := Ready];
      var prio := currentPriority[thread];
      var bind := bindCpu[thread];
      assert old(State()).ready[cpus] == priorityTable && (bind < cpus ==> old(State()).ready[bind] == pcpuTable[bind]);
      if bind == cpus {
        priorityGroup := priorityGroup + {prio};
        if yielded[thread] {
          priorityTable := priorityTable[prio := priorityTable[prio] + [thread]];
        } else {
          priorityTable := priorityTable[prio := [thread] + priorityTable[prio]];
        }
      } else {
        pcpuGroup := pcpuGroup[bind := pcpuGroup[bind] + {prio}];
        if yielded[thread] {
          pcpuTable := pcpuTable[bind := pcpuTable[bind][prio := pcpuTable[bind][prio] + [thread]]];
        } else {
          pcpuTable := pcpuTable[bind := pcpuTable[bind][prio := [thread] + pcpuTable[bind][prio]]];
        }
      }
      assert State() == Enlist(old(State()), thread);
    }

    /** `_sched_remove_thread_locked` */
    method RemoveThread(thread: nat)
      requires Shape(State()) && thread < |stat|
      modifies this
      ensures State() == Delist(old(State()), thread, old(stat[thread]))
    {
      var prio := currentPriority[thread];
      var bind := bindCpu[thread];
      assert State().ready[cpus] == priorityTable && (bind < cpus ==> State().ready[bind] == pcpuTable[bind]);
      if bind == cpus {
        priorityTable := priorityTable[prio := Remove(priorityTable[prio], thread)];
        if priorityTable[prio] == [] {
          priorityGroup := priorityGroup - {prio};
        }
      } else {
        pcpuTable := pcpuTable[bind := pcpuTable[bind][prio := Remove(pcpuTable[bind][prio], thread)]];
        if pcpuTable[bind][prio] == [] {
          pcpuGroup := pcpuGroup[bind := pcpuGroup[bind] - {prio}];
        }
      }
    }

    /**
     The middle of `_prepare_context_switch_locked`: take the current thread off the CPU, and decide whether
     it goes on or makes room for `picked`, the best waiting one.
     */
    method DetachCurrent(cpu: nat, picked: nat, best: nat) returns (next: nat)
      requires Shape(State()) && cpu < cpus && stat[currentThread[cpu]] != Ready
      modifies this
      ensures var s := old(State()); var cur := s.current[cpu];
        if SmpTheorems.Stays(s, cpu, best) then
          next == cur && State() == s.(oncpu := s.oncpu[cur := cpus], yielded := s.yielded[cur := false])
        else
          next == picked && State() == SmpTheorems.Vacated(s, cpu)
    {
      var cur := currentThread[cpu];
      next := picked;
      oncpu := oncpu[cur := cpus];
      if stat[cur] == Running {
        if bindCpu[cur] == cpus || bindCpu[cur] == cpu {
          if currentPriority[cur] < best {
            next := cur;
          } else if currentPriority[cur] == best && !yielded[cur] {
            next := cur;
          } else {
            InsertThread(cur);
          }
        } else {
          InsertThread(cur);
        }
        yielded := yielded[cur := false];
      }
    }

    /** The end of `_prepare_context_switch_locked`: the core goes to a waiting thread. */
    method GiveCore(cpu: nat, next: nat)
      requires Shape(State()) && cpu < cpus && next < |stat|
      modifies this
      ensures var s := old(State()); State() == Delist(s.(oncpu := s.oncpu[next := cpu]), next, Running)
    {
      oncpu := oncpu[next := cpu];
      RemoveThread(next);
      stat := stat[next := Running];
    }

    /** `_prepare_context_switch_locked` */
    method PrepareContextSwitch(cpu: nat) returns (to: Option<nat>)
      requires Inv(State()) && cpu < cpus
      modifies this
      ensures currentThread == old(currentThread)
      ensures var r := SmpSpec.Schedule(old(State()), cpu);
        && |r.current| == cpus
        && to == (if r.current[cpu] == old(currentThread)[cpu] then None else Some(r.current[cpu]))
        && State() == r.(current := old(currentThread))
    {
      ghost var s := State();
      assert s.group[cpus] == priorityGroup && s.group[cpu] == pcpuGroup[cpu];
      if priorityGroup == {} && pcpuGroup[cpu] == {} {
        return None;
      }
      var cur := currentThread[cpu];
      var picked, best := GetHighestPriorityThread(cpu);
      SmpTheorems.ScheduleCases(s, cpu, picked.value, best);
      var next := DetachCurrent(cpu, picked.value, best);
      if next != cur {
        GiveCore(cpu, next);
        return Some(next);
      } else {
        oncpu := oncpu[cur := cpu];
        return None;
      }
    }

    /** `rt_schedule`, with the tail of the context switch in `rt_sched_post_ctx_switch`. */
    method Schedule(cpu: nat)
      requires Inv(State()) && cpu < cpus
      modifies this
      ensures State() == SmpSpec.Schedule(old(State()), cpu)
      ensures Inv(State()) && SmpTheorems.RunsTheBest(State(), cpu)
    {
      SmpTheorems.ScheduleRunsTheBest(State(), cpu);
      var to := PrepareContextSwitch(cpu);
      if to.Some? {
        currentThread := currentThread[cpu := to.value];
      }
      SmpTheorems.ScheduleCurrent(old(State()), cpu);
    }

    /** `rt_thread_suspend_to_list` on CPU `cpu`. */
    method ThreadSuspend(cpu: nat, thread: nat) returns (ok: bool)
      requires Inv(State()) && SmpTheorems.Enabled(State(), SmpTheorems.Op.Suspend(cpu, thread))
      modifies this
      ensures State() == SmpSpec.Suspend(old(State()), cpu, thread) && Inv(State())
      ensures ok == (State().stat[thread] == Suspended)
    {
      SmpTheorems.SuspendKeeps(State(), cpu, thread);
      if stat[thread] == Suspended {
        return true;
      } else if stat[thread] != Ready && stat[thread] != Running {
        return false;
      }
      RemoveThread(thread);
      stat, yielded := stat[thread := Suspended], yielded[thread := false];
      return true;
    }

    /** `rt_sched_thread_ready` */
    method ThreadReady(thread: nat) returns (ok: bool)
      requires Inv(State()) && thread < |stat|
      modifies this
      ensures State() == SmpSpec.Resume(old(State()), thread) && Inv(State())
      ensures ok == (old(stat[thread]) == Suspended)
      ensures ok ==> stat[thread] == if old(oncpu[thread]) == cpus then Ready else Running
    {
      SmpTheorems.ResumeKeeps(State(), thread);
      if stat[thread] != Suspended {
        return false;
      }
      InsertThread(thread);
      return true;
    }

    lemma ShapeOf(s: Sched)
      requires Inv(s)
      ensures Shape(s)
    {
    }

    /** `rt_sched_thread_bind_cpu`, up to the reschedule requests it makes. */
    method ThreadBindCpu(thread: nat, cpu: nat)
      requires Inv(State()) && SmpTheorems.Enabled(State(), SmpTheorems.Op.Bind(thread, cpu))
      modifies this
      ensures State() == SmpSpec.Bind(old(State()), thread, cpu) && Inv(State())
    {
      hide Delist, Insert, Inv, Queues;
      ShapeOf(State());
      SmpTheorems.BindKeeps(State(), thread, cpu);
      var target := if cpu >= cpus then cpus else cpu;
      if stat[thread] == Ready {
        DelistFields(State(), thread, stat[thread], Suspended);
        RemoveThread(thread);
        stat, yielded := stat[thread := Suspended], yielded[thread := false];
        bindCpu := bindCpu[thread := target];
        InsertThread(thread);
      } else {
        bindCpu := bindCpu[thread := target];
      }
    }

    /** `_rt_sched_update_priority` */
    method UpdatePriority(thread: nat, prio: nat)
      requires Inv(State()) && thread < |stat| && prio < levels
      modifies this
      ensures State() == SmpSpec.SetPriority(old(State()), thread, prio) && Inv(State())
    {
      hide Delist, Insert, Inv, Queues, Lowest;
      ShapeOf(State());
      SmpTheorems.SetPriorityKeeps(State(), thread, prio);
      if stat[thread] == Ready {
        DelistFields(State(), thread, stat[thread], Initial);
        RemoveThread(thread);
        currentPriority := currentPriority[thread := prio];
        stat, yielded := stat[thread := Initial], yielded[thread := false];
        InsertThread(thread);
      } else {
        currentPriority := currentPriority[thread := prio];
      }
    }
  }

  /** The CPU whose idle thread `t` is, or none. */
  function SeatOf(idle: seq<nat>, t: nat): (c: nat)
    ensures c <= |idle| && (c < |idle| ==> idle[c] == t) && (c == |idle| <==> t !in idle)
  {
    if idle == [] then 0 else if idle[|idle| - 1] == t then |idle| - 1
    else
      var c := SeatOf(idle[..|idle| - 1], t);
      if c == |idle| - 1 then |idle| else c
  }

  lemma SeatOfIdle(idle: seq<nat>, c: nat)
    requires NoDup(idle) && c < |idle|
    ensures SeatOf(idle, idle[c]) == c
  {
  }
}
