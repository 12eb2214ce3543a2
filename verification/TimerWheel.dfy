/** The timer code: the multi-row search, the height counter, and the expiry loop. */
module TimerWheel {
  import opened Common
  import opened TimerSpec
  import opened TimerTheorems
  import TimerRuns

  class Timers {
    var rows: seq<seq<nat>>
    var timeoutTick: seq<Tick>
    var initTick: seq<Tick>
    var activated: seq<bool>
    var periodic: seq<bool>
    var randomNr: Tick
    var tick: Tick
    /** The local list of `_timer_check`, which holds at most the timer being fired. */
    var list: Option<nat>

    ghost function State(): Wheel
      reads this
    {
      Wheel(rows, timeoutTick, initTick, activated, periodic, randomNr, tick, list)
    }

    constructor (level: nat, times: seq<Tick>, flags: seq<bool>)
      requires level > 0 && |times| == |flags|
      ensures State() == Fresh(level, times, flags)
      ensures forall base :: Inv(State(), base)
      ensures (forall t | 0 <= t < |times| :: 1 <= times[t] < HALF) ==> TimerRuns.Settled(State())
    {
      rows := seq(level, _ => []);
      timeoutTick := seq(|times|, _ => 0);
      initTick, periodic := times, flags;
      activated := seq(|times|, _ => false);
      randomNr, tick, list := 0, 0, None;
    }

    /** `_timer_remove` */
    method Remove(timer: nat)
      modifies this`rows, this`list
      ensures State() == Unlink(old(State()), timer)
    {
      var i := 0;
      while i < |rows|
        invariant i <= |rows| == |old(rows)| && list == old(list)
        invariant forall j | 0 <= j < i :: rows[j] == Common.Remove(old(rows)[j], timer)
        invariant forall j | i <= j < |rows| :: rows[j] == old(rows)[j]
      {
        rows := rows[i := Common.Remove(rows[i], timer)];
        i := i + 1;
      }
      if list == Some(timer) {
        list := None;
      }
      assert rows == Unlink(old(State()), timer).rows;
    }

    /**
     The search of one row in `_timer_start`, from the node the row above left off at (None: the list head).
     Starting there instead of at the head of the row finds the same place.
     */
    method SearchRow(row: nat, timer: nat, from: Option<nat>, ghost base: Tick) returns (at: nat, head: Option<nat>)
      requires Inv(State(), base) && row < |rows| && timer < |timeoutTick| && Key(base, timeoutTick[timer]) < HALF
      requires from.Some? ==> from.value in rows[row] && !Later(timeoutTick[from.value], timeoutTick[timer])
      ensures at <= |rows[row]| && Scan(rows[row], timeoutTick, timer) == rows[row][..at] + [timer] + rows[row][at..]
      ensures head == if at == 0 then None else Some(rows[row][at - 1])
      ensures head.Some? ==> head.value < |timeoutTick| && !Later(timeoutTick[head.value], timeoutTick[timer])
    {
      var list := rows[row];
      assert Sorted(list, timeoutTick, base);
      at := if from.None? then 0 else IndexOf(list, from.value) + 1;
      ghost var k := ScanPlaces(list, timeoutTick, timer, base);
      Boundary(list, timeoutTick, timer, base, k);
      while at < |list| && !Later(timeoutTick[list[at]], timeoutTick[timer])
        invariant at <= k <= |list|
        invariant at > 0 ==> !Later(timeoutTick[list[at - 1]], timeoutTick[timer])
      {
        at := at + 1;
      }
      head := if at == 0 then None else Some(list[at - 1]);
    }

    /** The search part of `_timer_start`: one search per row, top down. */
    method FindHeads(timer: nat, ghost base: Tick) returns (rowHead: seq<nat>)
      requires Inv(State(), base) && timer < |timeoutTick| && Key(base, timeoutTick[timer]) < HALF
      ensures |rowHead| == |rows| && forall i | 0 <= i < |rows| :: Found(rows, timeoutTick, timer, i, rowHead[i])
    {
      rowHead := [];
      var head: Option<nat> := None;
      var rowLvl := 0;
      while rowLvl < |rows|
        invariant rowLvl == |rowHead| <= |rows|
        invariant head.Some? ==> head.value < |timeoutTick| && !Later(timeoutTick[head.value], timeoutTick[timer])
        invariant head.Some? ==> rowLvl > 0 && head.value in rows[rowLvl - 1]
        invariant forall i | 0 <= i < rowLvl :: Found(rows, timeoutTick, timer, i, rowHead[i])
      {
        if rowLvl > 0 {
          assert Stacked(rows, rowLvl);
        }
        var at, next := SearchRow(rowLvl, timer, head, base);
        rowHead := rowHead + [at];
        head := next;
        rowLvl := rowLvl + 1;
      }
    }

    /** `_timer_start` */
    method Start(timer: nat, ghost base: Tick)
      requires Inv(State(), base) && timer < |timeoutTick| && Key(base, tick) + initTick[timer] < HALF
      modifies this
      ensures State() == StartTimer(old(State()), timer)
    {
      hide InOrder, Marked, Scan, Height, Link, Sorted, Keep;
      ghost var w := State();
      UnlinkKeeps(w, timer, base);
      Remove(timer);
      activated := activated[timer := false];
      timeoutTick := timeoutTick[timer := Plus(tick, initTick[timer])];
      Retimed(Unlink(w, timer), State(), timer, base);
      var rowHead := FindHeads(timer, base);
      randomNr := Plus(randomNr, 1);
      LinkRows(timer, rowHead);
      activated := activated[timer := true];
    }

    /** The end of `_timer_start`: into the bottom row, and upwards for as long as the counter's bits are zero. */
    method LinkRows(timer: nat, rowHead: seq<nat>)
      requires Shape(State()) && timer < |timeoutTick| && |rowHead| == |rows|
      requires forall i | 0 <= i < |rows| :: Found(rows, timeoutTick, timer, i, rowHead[i])
      modifies this`rows
      ensures rows == Link(old(rows), timeoutTick, timer, Height(randomNr, |old(rows)|))
    {
      hide Scan, Later;
      var level := |rows|;
      var tstNr: nat := randomNr;
      ghost var h := Height(randomNr, level);
      LinkRow(level - 1, timer, rowHead[level - 1]);
      var rowLvl := 2;
      while rowLvl <= level && tstNr % (MASK + 1) == 0
        invariant 2 <= rowLvl <= level + 1 && |rows| == level
        invariant h == rowLvl - 2 + Height(tstNr, level - rowLvl + 2)
        invariant forall i | 0 <= i < level ::
          rows[i] == if level - rowLvl < i then Scan(old(rows)[i], timeoutTick, timer) else old(rows)[i]
        decreases level - rowLvl
      {
        assert Found(old(rows), timeoutTick, timer, level - rowLvl, rowHead[level - rowLvl]);
        LinkRow(level - rowLvl, timer, rowHead[level - rowLvl]);
        tstNr := tstNr / (MASK + 1);
        rowLvl := rowLvl + 1;
      }
    }

    method LinkRow(row: nat, timer: nat, at: nat)
      requires timer < |timeoutTick| && row < |rows| && Found(rows, timeoutTick, timer, row, at)
      modifies this`rows
      ensures rows == old(rows)[row := Scan(old(rows)[row], timeoutTick, timer)]
    {
      rows := rows[row := rows[row][..at] + [timer] + rows[row][at..]];
    }

    /** `rt_timer_stop` */
    method Stop(timer: nat) returns (ok: bool)
      requires Shape(State()) && timer < |timeoutTick|
      modifies this
      ensures State() == StopTimer(old(State()), timer) && ok == old(activated[timer])
    {
      if !activated[timer] {
        return false;
      }
      Remove(timer);
      activated := activated[timer := false];
      return true;
    }

    /** The RT_TIMER_CTRL_SET_TIME branch of `rt_timer_control`. */
    method SetTime(timer: nat, time: Tick)
      requires Shape(State()) && timer < |timeoutTick|
      modifies this
      ensures State() == Do(old(State()), Command.SetTime(timer, time))
    {
      if activated[timer] {
        Remove(timer);
        activated := activated[timer := false];
      }
      initTick := initTick[timer := time];
    }

    method Perform(command: Command, ghost base: Tick)
      requires Ready(State(), base) && command.u < |timeoutTick|
      modifies this
      ensures State() == Do(old(State()), command)
    {
      match command
      case Start(u) => Start(u, base);
      case Stop(u) => var _ := Stop(u);
      case SetTime(u, time) => SetTime(u, time);
      case SetOneShot(u) => periodic := periodic[u := false];
      case SetPeriodic(u) => periodic := periodic[u := true];
    }

    /** A timeout function, as the sequence of timer operations it performs. */
    method Call(commands: seq<Command>, ghost base: Tick)
      requires Ready(State(), base) && Tame(commands, |timeoutTick|, HALF - Key(base, tick))
      modifies this
      ensures State() == DoAll(old(State()), commands)
    {
      hide InOrder, Marked, Paced, Lively, Due, Do, Untouched;
      ghost var w := State();
      var i := 0;
      while i < |commands|
        invariant i <= |commands| && Ready(State(), base) && tick == w.tick && |timeoutTick| == |w.timeout|
        invariant DoAll(State(), commands[i..]) == DoAll(w, commands)
      {
        DoExpired(State(), commands[i], base);
        assert commands[i..][1..] == commands[i + 1..];
        Perform(commands[i], base);
        i := i + 1;
      }
    }

    /** One turn of the loop of `_timer_check`. */
    method Expire(timer: nat, commands: seq<Command>, ghost base: Tick)
      requires Ready(State(), base) && Bottom(State()) != [] && timer == Bottom(State())[0] && Due(State(), timer)
      requires Tame(commands, |timeoutTick|, HALF - Key(base, tick))
      modifies this
      ensures State() == TimerSpec.Expire(old(State()), timer, commands)
    {
      ghost var w := State();
      FireExpired(w, timer, base);
      DoAllReady(Fire(w, timer), commands, base);
      FiringOrNone(w, timer, commands, base);
      Remove(timer);
      if !periodic[timer] {
        activated := activated[timer := false];
      }
      list := Some(timer);
      Call(commands, base);
      OnReturn(timer, base);
    }

    /** The rest of the turn, once the timeout function has returned. */
    method OnReturn(timer: nat, ghost base: Tick)
      requires Ready(State(), base) && timer < |timeoutTick| && list in {None, Some(timer)}
      modifies this
      ensures State() == Rearm(old(State()), timer)
    {
      ghost var d := State();
      if list == None {
        return;
      }
      list := None;
      if periodic[timer] && activated[timer] {
        KeepsFrame(d, State(), base);
        activated := activated[timer := false];
        RestartUnmarked(timer, base, d.(firing := None));
      }
    }

    /** Starting a timer whose mark has just been cleared is starting it. */
    method RestartUnmarked(timer: nat, ghost base: Tick, ghost v: Wheel)
      requires Ready(v, base) && timer < |v.timeout| && State() == v.(active := v.active[timer := false])
      requires timer !in Bottom(v)
      modifies this
      ensures State() == StartTimer(v, timer)
    {
      hide Sorted;
      MarkedUpdate(Bottom(v), v.active, timer);
      SameRows(v, State(), base);
      Start(timer, base);
    }

    /** `_timer_check` at a fixed tick; `calls[t]` is what timer `t`'s function does. */
    method Check(calls: seq<seq<Command>>, ghost base: Tick) returns (fired: seq<nat>)
      requires Ready(State(), base) && AllTame(calls, State(), base)
      modifies this
      ensures (State(), fired) == Pass(old(State()), calls, base)
      ensures InRange(ExpiredOf(old(State())), |calls|) && fired == Fires(ExpiredOf(old(State())), calls)
      ensures Ready(State(), base) && forall t | t in Bottom(State()) :: t < |timeoutTick| && !Due(State(), t)
    {
      ghost var w := State();
      ghost var goal := Pass(w, calls, base);
      PassRuns(w, calls, base);
      fired := [];
      assert Appended(fired, goal) == goal;
      while rows[|rows| - 1] != []
        invariant Ready(State(), base) && AllTame(calls, State(), base)
        invariant Appended(fired, Pass(State(), calls, base)) == goal
        decreases |ExpiredOf(State())|
      {
        var t := rows[|rows| - 1][0];
        HeadInRange(State(), base);
        if Minus(tick, timeoutTick[t]) < HALF {
          PassStep(State(), calls, base, fired);
          Expire(t, calls[t], base);
          fired := fired + [t];
        } else {
          break;
        }
      }
      PassOver(State(), calls, base, fired);
    }

    /** The timer part of `rt_tick_increase_tick`. */
    method Elapse(d: Tick, calls: seq<seq<Command>>) returns (fired: seq<nat>)
      requires TimerRuns.Settled(State()) && TimerRuns.Legal(State(), TimerRuns.Elapse(d, calls))
      modifies this
      ensures (State(), fired) == TimerRuns.Step(old(State()), TimerRuns.Elapse(d, calls))
      ensures TimerRuns.Settled(State())
    {
      TimerRuns.StepSettled(State(), TimerRuns.Elapse(d, calls));
      TimerRuns.TickReady(State(), d);
      tick := Plus(tick, d);
      fired := Check(calls, TimerRuns.WindowStart(State()));
    }
  }

  lemma HeadInRange(w: Wheel, base: Tick)
    requires Ready(w, base) && Bottom(w) != []
    ensures Bottom(w)[0] < |w.timeout|
  {
  }

  lemma PassOver(w: Wheel, calls: seq<seq<Command>>, base: Tick, fired: seq<nat>)
    requires Ready(w, base) && AllTame(calls, w, base)
    requires Bottom(w) == [] || (Bottom(w)[0] < |w.timeout| && !Due(w, Bottom(w)[0]))
    ensures Appended(fired, Pass(w, calls, base)) == (w, fired)
  {
  }

  lemma FiringOrNone(w: Wheel, t: nat, cs: seq<Command>, base: Tick)
    requires Ready(w, base) && Bottom(w) != [] && t == Bottom(w)[0] && t < |w.timeout| && Callable(cs, |w.timeout|)
    ensures Shape(Fire(w, t)) && DoAll(Fire(w, t), cs).firing in {None, Some(t)}
  {
    FireProgress(w, t, base);
    DoAllProgress(Fire(w, t), cs, t, w.periodic[t], w.init[t], false);
  }

  function Appended(fired: seq<nat>, rest: (Wheel, seq<nat>)): (r: (Wheel, seq<nat>))
    ensures fired == [] ==> r == rest
    ensures rest.1 == [] ==> r == (rest.0, fired)
  {
    assert fired + [] == fired && [] + rest.1 == rest.1;
    (rest.0, fired + rest.1)
  }

  lemma PassStep(w: Wheel, calls: seq<seq<Command>>, base: Tick, fired: seq<nat>)
    requires Ready(w, base) && AllTame(calls, w, base)
    requires Bottom(w) != [] && Bottom(w)[0] < |w.timeout| && Due(w, Bottom(w)[0])
    ensures var t := Bottom(w)[0]; var r := TimerSpec.Expire(w, t, calls[t]);
      && Ready(r, base) && AllTame(calls, r, base) && |ExpiredOf(r)| < |ExpiredOf(w)|
      && Appended(fired, Pass(w, calls, base)) == Appended(fired + [t], Pass(r, calls, base))
  {
    hide TimerSpec.Expire, Due, Fires;
    var t := Bottom(w)[0];
    var r := TimerSpec.Expire(w, t, calls[t]);
    ExpireStep(w, t, calls[t], base);
    PassUnfolds(w, calls, base, r);
    assert fired + ([t] + Pass(r, calls, base).1) == fired + [t] + Pass(r, calls, base).1;
  }

  lemma PassUnfolds(w: Wheel, calls: seq<seq<Command>>, base: Tick, r: Wheel)
    requires Ready(w, base) && AllTame(calls, w, base) && Ready(r, base) && AllTame(calls, r, base)
    requires Bottom(w) != [] && Bottom(w)[0] < |w.timeout| && Due(w, Bottom(w)[0])
    requires r == TimerSpec.Expire(w, Bottom(w)[0], calls[Bottom(w)[0]])
    ensures Pass(w, calls, base) == (Pass(r, calls, base).0, [Bottom(w)[0]] + Pass(r, calls, base).1)
  {
  }

  function IndexOf(row: seq<nat>, t: nat): (i: nat)
    requires t in row
    ensures i < |row| && row[i] == t
  {
    if row[0] == t then 0 else 1 + IndexOf(row[1..], t)
  }

  /** `at` is where a full scan of row `i` would put the timer. */
  ghost predicate Found(rows: seq<seq<nat>>, timeout: seq<Tick>, t: nat, i: nat, at: nat)
    requires i < |rows| && t < |timeout|
  {
    InRange(rows[i], |timeout|) && at <= |rows[i]| && Scan(rows[i], timeout, t) == rows[i][..at] + [t] + rows[i][at..]
  }

  lemma Boundary(row: seq<nat>, timeout: seq<Tick>, t: nat, base: Tick, k: nat)
    requires t < |timeout| && InRange(row, |timeout|) && Sorted(row, timeout, base) && Key(base, timeout[t]) < HALF
    requires k <= |row| && (forall i | 0 <= i < k :: Ordered(timeout, base, row[i], t)) && AllLater(row[k..], timeout, t, base)
    ensures forall i | 0 <= i < |row| :: Later(timeout[row[i]], timeout[t]) <==> k <= i
  {
    forall i | 0 <= i < |row| ensures Later(timeout[row[i]], timeout[t]) <==> k <= i {
      LaterIsGreater(base, timeout[row[i]], timeout[t]);
      if i < k {
        assert Ordered(timeout, base, row[i], t);
      } else {
        assert row[k..][i - k] == row[i];
      }
    }
  }

  /** The fields of an unlinked timer may change freely. */
  lemma Retimed(w: Wheel, v: Wheel, t: nat, base: Tick)
    requires Inv(w, base) && t < |w.timeout| && Nowhere(w.rows, t)
    requires v == w.(timeout := v.timeout, active := w.active[t := false])
    requires |v.timeout| == |w.timeout| && forall u | 0 <= u < |w.timeout| && u != t :: v.timeout[u] == w.timeout[u]
    ensures Inv(v, base)
  {
    MarkedUpdate(Bottom(w), w.active, t);
    assert v.timeout == w.timeout[t := v.timeout[t]];
    forall r | 0 <= r < |w.rows| ensures Sorted(w.rows[r], v.timeout, base) {
      SortedFrame(w.rows[r], w.timeout, t, v.timeout[t], base);
    }
  }
}
