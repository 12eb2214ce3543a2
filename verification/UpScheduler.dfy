/** The single-core scheduler code: its global tables updated in place, each function against the step it performs. */
module UpScheduler {
  import opened Common
  import opened ThreadState
  import opened ReadyIndex
  import opened UpSpec
  import UpTheorems
  import Ffs

  class Kernel {
    const idle: nat
    // per thread
    var stat: seq<Stat>
    var yielded: seq<bool>
    var currentPriority: seq<nat>
    const initTick: seq<nat>
    var remainingTick: seq<nat>
    // the ready queues and their bitmap
    var priorityTable: seq<seq<nat>>
    var readyIndex: Index
    // the CPU
    var currentThread: nat
    var lockNest: nat
    var switchPending: bool

    ghost function State(): Up
      reads this
    {
      Up(idle, stat, yielded, currentPriority, initTick, remainingTick,
        priorityTable, readyIndex, currentThread, lockNest, switchPending)
    }

    /** `rt_system_scheduler_init`, with all threads initialised and none started. */
    constructor (levels: nat, wide: bool, idle: nat, prios: seq<nat>, ticks: seq<nat>)
      requires levels <= (if wide then 256 else 32) && idle < |prios| == |ticks|
      requires forall t | 0 <= t < |prios| :: prios[t] < levels
      ensures Inv(State()) && !Started(State()) && this.idle == idle && |priorityTable| == levels
      ensures stat == seq(|prios|, _ => Initial) && currentPriority == prios && remainingTick == initTick == ticks
      ensures priorityTable == seq(levels, _ => []) && lockNest == 0
    {
      this.idle := idle;
      stat, yielded := seq(|prios|, _ => Initial), seq(|prios|, _ => false);
      currentPriority, initTick, remainingTick := prios, ticks, ticks;
      priorityTable, readyIndex := seq(levels, _ => []), Empty(wide);
      currentThread, lockNest, switchPending := |prios|, 0, false;
    }

    /** `_scheduler_get_highest_priority_thread` */
    method GetHighestPriorityThread() returns (thread: nat, highestPrio: nat)
      requires Inv(State()) && readyIndex.group != {}
      ensures highestPrio == Best(State()) && thread == priorityTable[highestPrio][0]
    {
      hide GroupWord, TableByte, Ffs.FindFirstSet;
      LookupIsScan(readyIndex, priorityTable);
      match readyIndex {
        case TwoLevel(group, table) =>
          FfsOfGroup(group);
          var number := Ffs.FindFirstSet(GroupWord(group)) - 1;
          FfsOfByte(table[number]);
          highestPrio := 8 * number + Ffs.FindFirstSet(TableByte(table[number])) - 1;
        case OneLevel(group) =>
          FfsOfGroup(group);
          highestPrio := Ffs.FindFirstSet(GroupWord(group)) - 1;
      }
      thread := priorityTable[highestPrio][0];
    }

    /** `rt_sched_insert_thread` */
    method InsertThread(thread: nat)
      requires Shape(State()) && thread < |stat|
      modifies this
      ensures State() == Insert(old(State()), thread)
    {
      if thread == currentThread {
        stat := stat[thread := Running];
        return;
      }
      stat := stat[thread := Ready];
      var prio := currentPriority[thread];
      if yielded[thread] {
        priorityTable := priorityTable[prio := priorityTable[prio] + [thread]];
      } else {
        priorityTable := priorityTable[prio := [thread] + priorityTable[prio]];
      }
      match readyIndex {
        case TwoLevel(group, table) =>
          var number, high := prio / 8, prio % 8;
          readyIndex := TwoLevel(group + {number}, table[number := table[number] + {high}]);
        case OneLevel(group) =>
          readyIndex := OneLevel(group + {prio});
      }
    }

    /** `rt_sched_remove_thread` */
    method RemoveThread(thread: nat)
      requires Shape(State()) && thread < |stat|
      modifies this
      ensures State() == Delist(old(State()), thread)
    {
      var prio := currentPriority[thread];
      priorityTable := priorityTable[prio := Remove(priorityTable[prio], thread)];
      if priorityTable[prio] == [] {
        match readyIndex {
          case TwoLevel(group, table) =>
            var number, high := prio / 8, prio % 8;
            var left := table[number := table[number] - {high}];
            if left[number] == {} {
              readyIndex := TwoLevel(group - {number}, left);
            } else {
              readyIndex := TwoLevel(group, left);
            }
          case OneLevel(group) =>
            readyIndex := OneLevel(group - {prio});
        }
      }
    }

    /** The thread that is left goes back into its queue if it is still running, and its yield is over. */
    method Leave(fromThread: nat, needInsertFromThread: bool)
      requires Shape(State()) && fromThread < |stat|
      modifies this
      ensures var a := old(State());
        State() == (if needInsertFromThread then Insert(a, fromThread) else a).(yielded := a.yielded[fromThread := false])
      ensures Shape(State())
    {
      hide Queues, Insert, Dispatched;
      UpTheorems.KindKept(State(), fromThread);
      InsertYield(State(), fromThread);
      if needInsertFromThread {
        InsertThread(fromThread);
      }
      if yielded[fromThread] {
        yielded := yielded[fromThread := false];
      } else {
        assert yielded[fromThread := false] == yielded;
      }
    }

    /** The part of `rt_schedule` that hands over from one thread to another. */
    method Switch(toThread: nat, needInsertFromThread: bool)
      requires Inv(State()) && Started(State()) && toThread < |stat|
      requires needInsertFromThread <==> stat[currentThread] == Running
      modifies this
      ensures State() == SwitchTo(old(State()), toThread)
    {
      hide Queues, Insert, Delist, Dispatched;
      var fromThread := currentThread;
      currentThread := toThread;
      InsertYield(State(), fromThread);
      Leave(fromThread, needInsertFromThread);
      UpTheorems.KindKept(State(), toThread);
      UpTheorems.DelistFields(State(), toThread);
      RemoveThread(toThread);
      stat := stat[toThread := Running];
    }

    /** `rt_schedule` */
    method Schedule()
      requires Inv(State()) && Started(State())
      modifies this
      ensures State() == UpSpec.Schedule(old(State())) && Inv(State())
    {
      hide Queues, SwitchTo, Delist, Find, Best;
      UpTheorems.ScheduleKeeps(State());
      if lockNest == 0 {
        if readyIndex.group != {} {
          UpTheorems.BestIsReady(State());
          UpTheorems.DelistFields(State(), currentThread);
          var needInsertFromThread := false;
          var toThread, highestReadyPriority := GetHighestPriorityThread();
          if stat[currentThread] == Running {
            if currentPriority[currentThread] < highestReadyPriority {
              toThread := currentThread;
            } else if currentPriority[currentThread] == highestReadyPriority && !yielded[currentThread] {
              toThread := currentThread;
            } else {
              needInsertFromThread := true;
            }
          }
          if toThread != currentThread {
            Switch(toThread, needInsertFromThread);
          } else {
            RemoveThread(currentThread);
            stat := stat[currentThread := Running];
          }
        }
      } else {
        switchPending := true;
      }
    }

    /** `rt_system_scheduler_start` */
    method Start()
      requires Inv(State()) && !Started(State()) && stat[idle] == Ready
      modifies this
      ensures Inv(State()) && State() == UpTheorems.Step(old(State()), UpTheorems.Op.Start)
    {
      hide Queues, Delist, Best, Find;
      UpTheorems.ReadyMeansMarked(State(), idle);
      UpTheorems.StartKeeps(State());
      UpTheorems.BestIsReady(State());
      var toThread, _ := GetHighestPriorityThread();
      currentThread := toThread;
      switchPending := false;
      UpTheorems.DelistFields(State(), toThread);
      RemoveThread(toThread);
      stat := stat[toThread := Running];
      yielded := yielded[toThread := false];
    }

    /** `rt_sched_thread_startup` */
    method ThreadStartup(thread: nat)
      requires Inv(State()) && thread < |stat| && stat[thread] == Initial
      modifies this
      ensures State() == Startup(old(State()), thread) && Inv(State())
    {
      UpTheorems.StartupKeeps(State(), thread);
      stat := stat[thread := Suspended];
      yielded := yielded[thread := false];
    }

    /** `rt_thread_suspend_to_list`; the answer is whether the thread is suspended now. */
    method ThreadSuspend(thread: nat) returns (ok: bool)
      requires Inv(State()) && thread < |stat| && thread != idle
      modifies this
      ensures State() == Suspend(old(State()), thread) && Inv(State())
      ensures ok <==> stat[thread] == Suspended
    {
      hide Queues, Delist;
      UpTheorems.SuspendKeeps(State(), thread);
      UpTheorems.DelistFields(State(), thread);
      if stat[thread] == Suspended {
        return true;
      } else if stat[thread] != Ready && stat[thread] != Running {
        return false;
      }
      RemoveThread(thread);
      stat := stat[thread := Suspended];
      return true;
    }

    /** `rt_sched_thread_ready`, the thread's timer being quiet. */
    method ThreadReady(thread: nat) returns (ok: bool)
      requires Inv(State()) && thread < |stat|
      modifies this
      ensures State() == Resume(old(State()), thread) && Inv(State())
      ensures ok <==> old(stat[thread]) == Suspended
    {
      hide Queues, Insert;
      UpTheorems.ResumeKeeps(State(), thread);
      if stat[thread] != Suspended {
        return false;
      }
      InsertThread(thread);
      return true;
    }

    /** `_rt_sched_update_priority` */
    method UpdatePriority(thread: nat, priority: nat)
      requires Inv(State()) && thread < |stat| && priority < |priorityTable|
      modifies this
      ensures State() == SetPriority(old(State()), thread, priority) && Inv(State())
    {
      hide Queues, Insert, Delist;
      UpTheorems.SetPriorityKeeps(State(), thread, priority);
      UpTheorems.DelistFields(State(), thread);
      UpTheorems.KindKept(State(), thread);
      if stat[thread] == Ready {
        RemoveThread(thread);
        currentPriority := currentPriority[thread := priority];
        stat := stat[thread := Initial];
        yielded := yielded[thread := false];
        InsertThread(thread);
      } else {
        currentPriority := currentPriority[thread := priority];
      }
    }

    /** `rt_sched_thread_yield` */
    method ThreadYield()
      requires Inv(State()) && Started(State())
      modifies this
      ensures State() == Yield(old(State())) && Inv(State())
    {
      hide Queues;
      remainingTick := remainingTick[currentThread := initTick[currentThread]];
      yielded := yielded[currentThread := true];
    }

    /** `rt_sched_tick_increase` */
    method TickIncrease(tick: nat)
      requires Inv(State()) && Started(State())
      modifies this
      ensures State() == Tick(old(State()), tick) && Inv(State())
    {
      hide Queues, UpSpec.Schedule;
      var thread := currentThread;
      if remainingTick[thread] > tick {
        remainingTick := remainingTick[thread := remainingTick[thread] - tick];
      } else {
        remainingTick := remainingTick[thread := 0];
      }
      assert State() == Elapse(old(State()), tick);
      if remainingTick[thread] == 0 {
        ThreadYield();
        Schedule();
      }
    }

    /** `rt_enter_critical` */
    method EnterCritical() returns (criticalLevel: nat)
      requires Inv(State())
      modifies this
      ensures State() == Enter(old(State())) && Inv(State()) && criticalLevel == lockNest
    {
      hide Queues;
      lockNest := lockNest + 1;
      criticalLevel := lockNest;
    }

    /** `rt_exit_critical` */
    method ExitCritical()
      requires Inv(State())
      modifies this
      ensures State() == Exit(old(State())) && Inv(State())
    {
      hide Queues, UpSpec.Schedule;
      var nest: int := lockNest - 1;
      lockNest := if nest <= 0 then 0 else nest;
      if nest <= 0 {
        if switchPending {
          switchPending := false;
          Schedule();
        }
      }
    }

    lemma InsertYield(a: Up, t: nat)
      requires Shape(a) && t < |a.stat|
      ensures Insert(a, t).yielded == a.yielded && Insert(a, t).stat == a.stat[t := Insert(a, t).stat[t]]
      ensures |Insert(a, t).ready| == |a.ready|
    {
    }
  }
}
