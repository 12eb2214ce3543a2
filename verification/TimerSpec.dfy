/**
 Timers as rows of a skip list, ordered by 32-bit timeouts that wrap around. `rows` runs from the topmost,
 sparsest row to the bottom one, which links every started timer.
 */
module TimerSpec {
  import opened Common

  const TICKS: nat := 0x1_0000_0000
  /** RT_TICK_MAX / 2 */
  const HALF: nat := 0x7fff_ffff
  const MASK: nat := 3

  type Tick = n: nat | n < TICKS

  /** Unsigned 32-bit subtraction. */
  function Minus(a: Tick, b: Tick): Tick {
    if a >= b then a - b else a + TICKS - b
  }

  function Plus(a: Tick, b: Tick): Tick {
    if a + b < TICKS then a + b else a + b - TICKS
  }

  datatype Wheel = Wheel(
    rows: seq<seq<nat>>, timeout: seq<Tick>, init: seq<Tick>, active: seq<bool>, periodic: seq<bool>,
    random: Tick, tick: Tick, firing: Option<nat>)

  /** What a timeout function may do to timers. */
  datatype Command = Start(u: nat) | Stop(u: nat) | SetTime(u: nat, time: Tick) | SetOneShot(u: nat) | SetPeriodic(u: nat)

  ghost predicate InRange(row: seq<nat>, n: nat) {
    forall i | 0 <= i < |row| :: row[i] < n
  }

  ghost predicate AllInRange(rows: seq<seq<nat>>, n: nat) {
    forall r | 0 <= r < |rows| :: InRange(rows[r], n)
  }

  ghost predicate Shape(w: Wheel) {
    && |w.rows| > 0 && |w.timeout| == |w.init| == |w.active| == |w.periodic|
    && AllInRange(w.rows, |w.timeout|)
    && (w.firing.Some? ==> w.firing.value < |w.timeout|)
  }

  /** Timers as initialised, none of them started. */
  function Fresh(level: nat, times: seq<Tick>, flags: seq<bool>): Wheel {
    Wheel(seq(level, _ => []), seq(|times|, _ => 0), times, seq(|times|, _ => false), flags, 0, 0, None)
  }

  function Bottom(w: Wheel): seq<nat>
    requires |w.rows| > 0
  {
    w.rows[|w.rows| - 1]
  }

  // ----- one row -----

  /** The test that ends a search: `a` is strictly later than `b`. */
  predicate Later(a: Tick, b: Tick) {
    Minus(a, b) != 0 && Minus(a, b) < HALF
  }

  /** A linear scan of one row: the new timer goes before the first later one. */
  function Scan(row: seq<nat>, timeout: seq<Tick>, t: nat): (r: seq<nat>)
    requires t < |timeout| && InRange(row, |timeout|)
    ensures InRange(r, |timeout|)
  {
    if row == [] then [t]
    else if Later(timeout[row[0]], timeout[t]) then [t] + row
    else [row[0]] + Scan(row[1..], timeout, t)
  }

  /** How many rows, counted from the bottom, a timer enters. */
  function Height(random: nat, level: nat): (h: nat)
    requires level > 0
    ensures 1 <= h <= level
    decreases level
  {
    if level == 1 || random % (MASK + 1) != 0 then 1 else 1 + Height(random / (MASK + 1), level - 1)
  }

  function Link(rows: seq<seq<nat>>, timeout: seq<Tick>, t: nat, height: nat): (r: seq<seq<nat>>)
    requires t < |timeout| && AllInRange(rows, |timeout|)
    ensures |r| == |rows|
    ensures forall i | 0 <= i < |rows| :: r[i] == if |rows| - height <= i then Scan(rows[i], timeout, t) else rows[i]
    ensures |rows| > 0 && height > 0 ==> r[|rows| - 1] == Scan(rows[|rows| - 1], timeout, t)
  {
    seq(|rows|, i requires 0 <= i < |rows| => if |rows| - height <= i then Scan(rows[i], timeout, t) else rows[i])
  }

  // ----- the timer operations -----

  /** `_timer_remove`, which also takes a timer off the list of the one being fired. */
  function Unlink(w: Wheel, t: nat): (r: Wheel)
    ensures |r.rows| == |w.rows| && forall i | 0 <= i < |w.rows| :: r.rows[i] == Remove(w.rows[i], t)
    ensures |w.rows| > 0 ==> Bottom(r) == Remove(Bottom(w), t)
  {
    w.(rows := seq(|w.rows|, i requires 0 <= i < |w.rows| => Remove(w.rows[i], t)),
       firing := if w.firing == Some(t) then None else w.firing)
  }

  lemma UnlinkShape(w: Wheel, t: nat)
    requires Shape(w)
    ensures Shape(Unlink(w, t))
  {
    forall r | 0 <= r < |w.rows| ensures InRange(Unlink(w, t).rows[r], |w.timeout|) {
      RemoveInRange(w.rows[r], t, |w.timeout|);
    }
  }

  lemma RemoveInRange(row: seq<nat>, t: nat, n: nat)
    requires InRange(row, n)
    ensures InRange(Remove(row, t), n)
  {
    var q := Remove(row, t);
    forall i | 0 <= i < |q| ensures q[i] < n {
      assert q[i] in row;
    }
  }

  /** `_timer_start` */
  function StartTimer(w: Wheel, t: nat): (r: Wheel)
    requires Shape(w) && t < |w.timeout|
    ensures Shape(r) && |r.rows| == |w.rows|
  {
    UnlinkShape(w, t);
    var u := Unlink(w, t);
    var timeout := w.timeout[t := Plus(w.tick, w.init[t])];
    var random := Plus(w.random, 1);
    u.(timeout := timeout, random := random, active := w.active[t := true],
       rows := Link(u.rows, timeout, t, Height(random, |w.rows|)))
  }

  /** `rt_timer_stop` */
  function StopTimer(w: Wheel, t: nat): (r: Wheel)
    requires Shape(w) && t < |w.timeout|
    ensures Shape(r) && |r.rows| == |w.rows|
  {
    UnlinkShape(w, t);
    if !w.active[t] then w else Unlink(w, t).(active := w.active[t := false])
  }

  function Do(w: Wheel, c: Command): (r: Wheel)
    requires Shape(w) && c.u < |w.timeout|
    ensures Shape(r) && |r.rows| == |w.rows| && |r.timeout| == |w.timeout|
  {
    match c
    case Start(t) => StartTimer(w, t)
    case Stop(t) => StopTimer(w, t)
    case SetTime(t, time) => var s := StopTimer(w, t); s.(init := s.init[t := time])
    case SetOneShot(t) => w.(periodic := w.periodic[t := false])
    case SetPeriodic(t) => w.(periodic := w.periodic[t := true])
  }

  ghost predicate Callable(cs: seq<Command>, n: nat) {
    forall i | 0 <= i < |cs| :: cs[i].u < n
  }

  function DoAll(w: Wheel, cs: seq<Command>): (r: Wheel)
    requires Shape(w) && Callable(cs, |w.timeout|)
    ensures Shape(r) && |r.rows| == |w.rows| && |r.timeout| == |w.timeout|
    decreases |cs|
  {
    if cs == [] then w else DoAll(Do(w, cs[0]), cs[1..])
  }

  predicate Due(w: Wheel, t: nat)
    requires t < |w.timeout|
  {
    Minus(w.tick, w.timeout[t]) < HALF
  }

  /** Taking timer `t` off the rows and onto the list of the timer being fired. */
  function Fire(w: Wheel, t: nat): (r: Wheel)
    requires Shape(w) && t < |w.timeout|
    ensures Shape(r) && |r.rows| == |w.rows|
  {
    UnlinkShape(w, t);
    Unlink(w, t).(active := if w.periodic[t] then w.active else w.active[t := false], firing := Some(t))
  }

  /** What happens once the timeout function has returned. */
  function Rearm(w: Wheel, t: nat): (r: Wheel)
    requires Shape(w) && t < |w.timeout|
    ensures Shape(r) && |r.rows| == |w.rows|
  {
    if w.firing == None then w
    else
      var v := w.(firing := None);
      if v.periodic[t] && v.active[t] then StartTimer(v, t) else v
  }

  /** One turn of the loop of `_timer_check`, for a head `t` that is due and whose timeout function does `cs`. */
  function Expire(w: Wheel, t: nat, cs: seq<Command>): (r: Wheel)
    requires Shape(w) && t < |w.timeout| && Callable(cs, |w.timeout|)
    ensures Shape(r) && |r.rows| == |w.rows|
  {
    Rearm(DoAll(Fire(w, t), cs), t)
  }

  // ----- what rows must look like -----

  /** How far a timeout lies after a common base. */
  function Key(base: Tick, x: Tick): nat {
    Minus(x, base)
  }

  ghost predicate Ordered(timeout: seq<Tick>, base: Tick, t: nat, u: nat)
    requires t < |timeout| && u < |timeout|
  {
    Key(base, timeout[t]) <= Key(base, timeout[u])
  }

  /** No repetition, all timeouts within half the tick range after `base`, in order. */
  ghost predicate Sorted(row: seq<nat>, timeout: seq<Tick>, base: Tick)
    requires InRange(row, |timeout|)
  {
    && NoDup(row)
    && (forall i | 0 <= i < |row| :: Key(base, timeout[row[i]]) < HALF)
    && (forall i, j | 0 <= i < j < |row| :: Ordered(timeout, base, row[i], row[j]))
  }

  /** The members of `xs` that are in `ys`, in the order of `xs`. */
  function Keep(xs: seq<nat>, ys: seq<nat>): (r: seq<nat>)
    ensures forall x :: x in r <==> x in xs && x in ys
  {
    if xs == [] then []
    else if xs[0] in ys then [xs[0]] + Keep(xs[1..], ys)
    else Keep(xs[1..], ys)
  }

  /** `upper` is a subsequence of `lower`. */
  ghost predicate Above(upper: seq<nat>, lower: seq<nat>) {
    upper == Keep(lower, upper)
  }

  /** Whatever is linked is marked as started. */
  ghost predicate Marked(row: seq<nat>, active: seq<bool>) {
    forall i | 0 <= i < |row| :: row[i] < |active| && active[row[i]]
  }

  /** Row `r` lies under a subsequence of it. */
  ghost predicate Stacked(rows: seq<seq<nat>>, r: nat)
    requires 0 < r < |rows|
  {
    Above(rows[r - 1], rows[r])
  }

  ghost predicate InOrder(rows: seq<seq<nat>>, timeout: seq<Tick>, base: Tick) {
    && (forall r | 0 <= r < |rows| :: InRange(rows[r], |timeout|) && Sorted(rows[r], timeout, base))
    && (forall r | 0 < r < |rows| :: Stacked(rows, r))
  }

  ghost predicate Inv(w: Wheel, base: Tick) {
    && Shape(w)
    && InOrder(w.rows, w.timeout, base)
    && Marked(Bottom(w), w.active)
    && (w.firing.Some? ==> w.firing.value !in Bottom(w))
  }
}
