/** Order in the timer rows, and what an expiry pass runs. */
module TimerTheorems {
  import opened Common
  import opened TimerSpec

  // ----- modular order -----

  /** Inside a window of half the range, the source's modular test is a plain comparison. */
  lemma LaterIsGreater(base: Tick, a: Tick, b: Tick)
    requires Key(base, a) < HALF && Key(base, b) < HALF
    ensures Later(a, b) <==> Key(base, b) < Key(base, a)
  {
  }

  /**
   Timeouts being pairwise less than half the range apart is not enough: these three are, and yet each is
   later than the one before it all the way round.
   */
  lemma PairwiseIsNotEnough()
    ensures var a: Tick, b: Tick, c: Tick := 0, 0x5555_5555, 0xaaaa_aaaa;
      && (forall x, y | x in {a, b, c} && y in {a, b, c} :: Minus(x, y) < HALF || Minus(y, x) < HALF)
      && Later(b, a) && Later(c, b) && Later(a, c)
  {
  }

  /**
   How late a pass may be: a timer due at `x` counts as later than one that is started now, which is then put in
   front of it, exactly if the ticks since `x` and the new period together exceed HALF + 2.
   */
  lemma OvertakenExactly(tick: Tick, x: Tick, period: Tick)
    requires Minus(tick, x) < HALF && period < HALF
    ensures Later(x, Plus(tick, period)) <==> Minus(tick, x) + period > HALF + 2
  {
  }

  /** Each later entry of a row is at most half the range after each earlier one, by the source's own test. */
  ghost predicate Consistent(row: seq<nat>, timeout: seq<Tick>)
    requires InRange(row, |timeout|)
  {
    forall i, j | 0 <= i < j < |row| :: !Later(timeout[row[i]], timeout[row[j]]) && Minus(timeout[row[j]], timeout[row[i]]) < HALF
  }

  /** The source's own test agrees with an order by distance from a common base. */
  lemma ConsistentIsSorted(row: seq<nat>, timeout: seq<Tick>)
    requires InRange(row, |timeout|) && NoDup(row)
    ensures Consistent(row, timeout) <==> exists base: Tick :: Sorted(row, timeout, base)
  {
    if Consistent(row, timeout) {
      var base: Tick := if row == [] then 0 else timeout[row[0]];
      forall i | 0 <= i < |row| ensures Key(base, timeout[row[i]]) < HALF {
        if i > 0 {
          assert Minus(timeout[row[i]], timeout[row[0]]) < HALF;
        }
      }
      forall i, j | 0 <= i < j < |row| ensures Ordered(timeout, base, row[i], row[j]) {
        LaterIsGreater(base, timeout[row[i]], timeout[row[j]]);
      }
      assert Sorted(row, timeout, base);
    }
    if base: Tick :| Sorted(row, timeout, base) {
      forall i, j | 0 <= i < j < |row|
        ensures !Later(timeout[row[i]], timeout[row[j]]) && Minus(timeout[row[j]], timeout[row[i]]) < HALF
      {
        assert Ordered(timeout, base, row[i], row[j]);
      }
    }
  }

  /** A list of exactly these timers that is in order for the source's test. */
  ghost predicate Arranges(row: seq<nat>, timers: set<nat>, timeout: seq<Tick>) {
    && NoDup(row) && (forall t :: t in row <==> t in timers)
    && InRange(row, |timeout|) && Consistent(row, timeout)
  }

  /** All of these timers expire less than half the range after `base`. */
  ghost predicate InWindow(timers: set<nat>, timeout: seq<Tick>, base: Tick) {
    forall t | t in timers :: t < |timeout| && Key(base, timeout[t]) < HALF
  }

  /** Timers can be put in an order that the source's test agrees with exactly if all their timeouts fit in one window. */
  lemma WindowIsEnoughAndNeeded(timers: set<nat>, timeout: seq<Tick>)
    ensures (exists row :: Arranges(row, timers, timeout)) <==> (exists base: Tick :: InWindow(timers, timeout, base))
  {
    if row :| Arranges(row, timers, timeout) {
      var base: Tick := if row == [] then 0 else timeout[row[0]];
      forall t | t in timers ensures t < |timeout| && Key(base, timeout[t]) < HALF {
        var i: nat :| i < |row| && row[i] == t;
        if i > 0 {
          assert Minus(timeout[row[i]], timeout[row[0]]) < HALF;
        }
      }
      assert InWindow(timers, timeout, base);
    }
    if base: Tick :| InWindow(timers, timeout, base) {
      var row := Arrange(timers, timeout, base);
      ConsistentIsSorted(row, timeout);
      assert Arranges(row, timers, timeout);
    }
  }

  /** Scanning the timers in one by one puts those of a window in order. */
  lemma {:induction false} Arrange(timers: set<nat>, timeout: seq<Tick>, base: Tick) returns (row: seq<nat>)
    requires InWindow(timers, timeout, base)
    ensures InRange(row, |timeout|) && Sorted(row, timeout, base) && forall t :: t in row <==> t in timers
    decreases timers
  {
    if timers == {} {
      row := [];
    } else {
      var t :| t in timers;
      var rest := Arrange(timers - {t}, timeout, base);
      ScanSorted(rest, timeout, t, base);
      ScanMembers(rest, timeout, t);
      row := Scan(rest, timeout, t);
    }
  }

  // ----- rows -----

  /** Everything in `row` is later than timer `t`. */
  ghost predicate AllLater(row: seq<nat>, timeout: seq<Tick>, t: nat, base: Tick)
    requires t < |timeout| && InRange(row, |timeout|)
  {
    forall i | 0 <= i < |row| ::
      Later(timeout[row[i]], timeout[t]) && Key(base, timeout[t]) < Key(base, timeout[row[i]])
  }

  lemma HeadLater(row: seq<nat>, timeout: seq<Tick>, t: nat, base: Tick)
    requires t < |timeout| && InRange(row, |timeout|) && Sorted(row, timeout, base) && Key(base, timeout[t]) < HALF
    requires row != [] ==> Later(timeout[row[0]], timeout[t])
    ensures AllLater(row, timeout, t, base)
  {
    forall i | 0 <= i < |row|
      ensures Later(timeout[row[i]], timeout[t]) && Key(base, timeout[t]) < Key(base, timeout[row[i]])
    {
      LaterIsGreater(base, timeout[row[0]], timeout[t]);
      LaterIsGreater(base, timeout[row[i]], timeout[t]);
      if i > 0 {
        assert Ordered(timeout, base, row[0], row[i]);
      }
    }
  }

  /** Where a scan puts a timer: behind all that are as early or earlier, in front of all later ones. */
  lemma {:induction false} ScanPlaces(row: seq<nat>, timeout: seq<Tick>, t: nat, base: Tick) returns (k: nat)
    requires t < |timeout| && InRange(row, |timeout|) && Sorted(row, timeout, base) && Key(base, timeout[t]) < HALF
    ensures k <= |row| && Scan(row, timeout, t) == row[..k] + [t] + row[k..]
    ensures forall i | 0 <= i < k :: Ordered(timeout, base, row[i], t)
    ensures AllLater(row[k..], timeout, t, base)
  {
    if row == [] {
      k := 0;
    } else if Later(timeout[row[0]], timeout[t]) {
      k := 0;
      HeadLater(row, timeout, t, base);
      assert row[0..] == row;
    } else {
      LaterIsGreater(base, timeout[row[0]], timeout[t]);
      TailSorted(row, timeout, base);
      var j := ScanPlaces(row[1..], timeout, t, base);
      k := j + 1;
      assert row[..k] == [row[0]] + row[1..][..j];
      assert row[k..] == row[1..][j..];
      forall i | 0 <= i < k ensures Ordered(timeout, base, row[i], t) {
        if i > 0 {
          assert Ordered(timeout, base, row[1..][i - 1], t);
        }
      }
    }
  }

  lemma TailSorted(row: seq<nat>, timeout: seq<Tick>, base: Tick)
    requires row != [] && InRange(row, |timeout|) && Sorted(row, timeout, base)
    ensures Sorted(row[1..], timeout, base)
  {
    var tail := row[1..];
    forall i, j | 0 <= i < j < |tail| ensures Ordered(timeout, base, tail[i], tail[j]) {
      assert Ordered(timeout, base, row[i + 1], row[j + 1]);
    }
  }

  lemma ScanMembers(row: seq<nat>, timeout: seq<Tick>, t: nat)
    requires t < |timeout| && InRange(row, |timeout|)
    ensures forall x :: x in Scan(row, timeout, t) <==> x == t || x in row
  {
    if row == [] {
    } else {
      ScanMembers(row[1..], timeout, t);
      assert forall x :: x in row <==> x == row[0] || x in row[1..];
    }
  }

  lemma ScanSorted(row: seq<nat>, timeout: seq<Tick>, t: nat, base: Tick)
    requires t < |timeout| && InRange(row, |timeout|) && Sorted(row, timeout, base) && Key(base, timeout[t]) < HALF
    requires t !in row
    ensures Sorted(Scan(row, timeout, t), timeout, base)
  {
    hide Scan;
    var k := ScanPlaces(row, timeout, t, base);
    var q := row[..k] + [t] + row[k..];
    forall i | 0 <= i < |q| ensures q[i] == (if i < k then row[i] else if i == k then t else row[i - 1]) {
    }
    forall i, j | 0 <= i < j < |q| ensures Ordered(timeout, base, q[i], q[j]) && q[i] != q[j] {
      if i < k && k < j {
        assert Ordered(timeout, base, row[i], row[j - 1]);
      } else if j < k {
        assert Ordered(timeout, base, row[i], row[j]);
      } else if k < i {
        assert Ordered(timeout, base, row[i - 1], row[j - 1]);
      } else if k == i {
        assert row[k..][j - 1 - k] == row[j - 1];
      }
    }
  }

  lemma SortedFrame(row: seq<nat>, timeout: seq<Tick>, t: nat, x: Tick, base: Tick)
    requires t < |timeout| && InRange(row, |timeout|) && Sorted(row, timeout, base) && t !in row
    ensures Sorted(row, timeout[t := x], base)
  {
    forall i, j | 0 <= i < j < |row| ensures Ordered(timeout[t := x], base, row[i], row[j]) {
      assert Ordered(timeout, base, row[i], row[j]);
    }
  }

  /** A timer that is no later than any of a row may stand in front of it. */
  lemma PrependSorted(t: nat, row: seq<nat>, timeout: seq<Tick>, base: Tick)
    requires t < |timeout| && InRange(row, |timeout|) && Sorted(row, timeout, base) && Key(base, timeout[t]) < HALF
    requires forall i | 0 <= i < |row| :: row[i] != t && Ordered(timeout, base, t, row[i])
    ensures InRange([t] + row, |timeout|) && Sorted([t] + row, timeout, base)
  {
    hide Key;
    var r := [t] + row;
    forall i, j | 0 <= i < j < |r| ensures Ordered(timeout, base, r[i], r[j]) {
      if i > 0 {
        assert Ordered(timeout, base, row[i - 1], row[j - 1]);
      }
    }
  }

  lemma HeadFirst(row: seq<nat>, timeout: seq<Tick>, base: Tick, t: nat)
    requires row != [] && InRange(row, |timeout|) && Sorted(row, timeout, base) && t in row[1..]
    ensures t < |timeout| && t != row[0] && Ordered(timeout, base, row[0], t)
  {
    hide Key;
    var k: nat :| k < |row[1..]| && row[1..][k] == t;
    assert row[k + 1] == t;
  }

  lemma {:induction false} RemoveSorted(row: seq<nat>, timeout: seq<Tick>, t: nat, base: Tick)
    requires InRange(row, |timeout|) && Sorted(row, timeout, base)
    ensures InRange(Remove(row, t), |timeout|) && Sorted(Remove(row, t), timeout, base)
  {
    hide Key, Ordered;
    if row == [] {
    } else {
      TailSorted(row, timeout, base);
      if row[0] != t {
        RemoveSorted(row[1..], timeout, t, base);
        var q := Remove(row[1..], t);
        forall i | 0 <= i < |q| ensures q[i] != row[0] && q[i] < |timeout| && Ordered(timeout, base, row[0], q[i]) {
          assert q[i] in q;
          HeadFirst(row, timeout, base, q[i]);
        }
        PrependSorted(row[0], q, timeout, base);
      }
    }
  }

  // ----- one row above another -----

  lemma {:induction false} KeepExtra(xs: seq<nat>, ys: seq<nat>, zs: seq<nat>)
    requires forall x | x in xs :: x in ys <==> x in zs
    ensures Keep(xs, ys) == Keep(xs, zs)
  {
    if xs == [] {
    } else {
      assert xs[0] in xs && forall x | x in xs[1..] :: x in xs;
      KeepExtra(xs[1..], ys, zs);
    }
  }

  lemma {:induction false} KeepRemove(xs: seq<nat>, ys: seq<nat>, t: nat)
    requires NoDup(xs)
    ensures Keep(Remove(xs, t), ys) == Remove(Keep(xs, ys), t)
  {
    if xs == [] {
    } else if xs[0] == t {
      assert t !in xs[1..];
      assert Keep(xs[1..], ys) == Remove(Keep(xs[1..], ys), t);
    } else {
      KeepRemove(xs[1..], ys, t);
    }
  }

  lemma RemoveAbove(upper: seq<nat>, lower: seq<nat>, t: nat)
    requires NoDup(lower) && NoDup(upper) && Above(upper, lower)
    ensures Above(Remove(upper, t), Remove(lower, t))
  {
    KeepRemove(lower, upper, t);
    RemoveNoDup(lower, t);
    RemoveNoDup(upper, t);
    KeepExtra(Remove(lower, t), upper, Remove(upper, t));
  }

  lemma {:induction false} KeepScan(xs: seq<nat>, ys: seq<nat>, timeout: seq<Tick>, t: nat, base: Tick)
    requires t < |timeout| && InRange(xs, |timeout|) && Sorted(xs, timeout, base) && Key(base, timeout[t]) < HALF
    requires t in ys
    ensures InRange(Keep(xs, ys), |timeout|)
    ensures Keep(Scan(xs, timeout, t), ys) == Scan(Keep(xs, ys), timeout, t)
  {
    KeepInRange(xs, ys, |timeout|);
    if xs == [] {
    } else if Later(timeout[xs[0]], timeout[t]) {
      var q := Keep(xs, ys);
      if q != [] {
        assert q[0] in xs;
        var k :| 0 <= k < |xs| && xs[k] == q[0];
        if k > 0 {
          assert Ordered(timeout, base, xs[0], xs[k]);
        }
        LaterIsGreater(base, timeout[xs[0]], timeout[t]);
        LaterIsGreater(base, timeout[q[0]], timeout[t]);
      }
      assert ([t] + xs)[1..] == xs;
    } else {
      TailSorted(xs, timeout, base);
      KeepScan(xs[1..], ys, timeout, t, base);
      var rest := Scan(xs[1..], timeout, t);
      assert ([xs[0]] + rest)[1..] == rest;
      KeepInRange(xs[1..], ys, |timeout|);
    }
  }

  lemma KeepInRange(xs: seq<nat>, ys: seq<nat>, n: nat)
    requires InRange(xs, n)
    ensures InRange(Keep(xs, ys), n)
  {
    var q := Keep(xs, ys);
    forall i | 0 <= i < |q| ensures q[i] < n {
      assert q[i] in xs;
      var k: nat :| k < |xs| && xs[k] == q[i];
    }
  }

  /** A new timer enters a row and the one below, or only the one below. */
  lemma ScanAbove(upper: seq<nat>, lower: seq<nat>, timeout: seq<Tick>, t: nat, base: Tick)
    requires t < |timeout| && InRange(upper, |timeout|) && InRange(lower, |timeout|) && Above(upper, lower)
    requires Sorted(lower, timeout, base) && Key(base, timeout[t]) < HALF && t !in lower && t !in upper
    ensures Above(Scan(upper, timeout, t), Scan(lower, timeout, t))
    ensures Above(upper, Scan(lower, timeout, t))
  {
    ScanMembers(upper, timeout, t);
    var q := Scan(upper, timeout, t);
    KeepExtra(lower, upper, q);
    KeepScan(lower, q, timeout, t, base);
    KeepScanOut(lower, upper, timeout, t);
  }

  lemma {:induction false} KeepScanOut(xs: seq<nat>, ys: seq<nat>, timeout: seq<Tick>, t: nat)
    requires t < |timeout| && InRange(xs, |timeout|) && t !in ys
    ensures Keep(Scan(xs, timeout, t), ys) == Keep(xs, ys)
  {
    if xs == [] {
    } else if Later(timeout[xs[0]], timeout[t]) {
      assert ([t] + xs)[1..] == xs;
    } else {
      KeepScanOut(xs[1..], ys, timeout, t);
      var rest := Scan(xs[1..], timeout, t);
      assert ([xs[0]] + rest)[1..] == rest;
    }
  }

  /** A timer is in the row `j` above the bottom one exactly when the counter is a multiple of 4 to the `j`. */
  lemma {:induction false} HeightRule(random: nat, level: nat, j: nat)
    requires 0 < level && j < level
    ensures j < Height(random, level) <==> random % Pow4(j) == 0
    decreases j
  {
    if j == 0 {
    } else {
      HeightRule(random / 4, level - 1, j - 1);
      Pow4Divides(random, j);
    }
  }

  function Pow4(j: nat): (r: nat)
    ensures r > 0
  {
    if j == 0 then 1 else 4 * Pow4(j - 1)
  }

  lemma Pow4Divides(r: nat, j: nat)
    requires j > 0
    ensures r % Pow4(j) == 0 <==> r % 4 == 0 && (r / 4) % Pow4(j - 1) == 0
  {
    var p := Pow4(j - 1);
    if r % Pow4(j) == 0 {
      var q := r / Pow4(j);
      FourTimes(p, q);
      var x := p * q;
      assert r == 4 * x;
      MultipleOf(q, p);
    }
    if r % 4 == 0 && (r / 4) % p == 0 {
      var q := r / 4 / p;
      var x := p * q;
      assert r / 4 == x;
      FourTimes(p, q);
      MultipleOf(q, 4 * p);
    }
  }

  lemma FourTimes(p: nat, q: nat)
    ensures (4 * p) * q == 4 * (p * q)
  {
  }

  lemma MultipleOf(q: nat, p: nat)
    requires p > 0
    ensures (p * q) % p == 0
  {
    var d, m := (p * q) / p, (p * q) % p;
    assert p * q == p * d + m;
    assert m == p * (q - d);
    AtLeastOnce(p, q - d);
  }

  lemma AtLeastOnce(p: int, d: int)
    requires p > 0
    ensures d >= 1 ==> p * d >= p
    ensures d <= -1 ==> p * d <= -p
  {
    if d >= 1 {
      assert p * d == p + p * (d - 1) && p * (d - 1) >= 0;
    } else if d <= -1 {
      assert p * d == -(p * (-1 - d)) - p && p * (-1 - d) >= 0;
    }
  }

  // ----- what the operations keep -----

  /** A timer linked anywhere is linked in the bottom row. */
  lemma {:induction false} LinkedAtBottom(w: Wheel, base: Tick, r: nat, t: nat)
    requires Inv(w, base) && r < |w.rows| && t in w.rows[r]
    ensures t in Bottom(w)
    decreases |w.rows| - r
  {
    if r < |w.rows| - 1 {
      assert Stacked(w.rows, r + 1);
      LinkedAtBottom(w, base, r + 1, t);
    }
  }

  ghost predicate Nowhere(rows: seq<seq<nat>>, t: nat) {
    forall r | 0 <= r < |rows| :: t !in rows[r]
  }

  lemma UnlinkRows(w: Wheel, t: nat, base: Tick)
    requires Inv(w, base)
    ensures var u := Unlink(w, t);
      InOrder(u.rows, u.timeout, base) && Nowhere(u.rows, t)
  {
    var u := Unlink(w, t);
    forall r | 0 <= r < |w.rows|
      ensures InRange(u.rows[r], |u.timeout|) && Sorted(u.rows[r], u.timeout, base) && t !in u.rows[r]
    {
      RemoveSorted(w.rows[r], w.timeout, t, base);
      RemoveNoDup(w.rows[r], t);
    }
    forall r | 0 < r < |w.rows| ensures Stacked(u.rows, r) {
      assert Stacked(w.rows, r);
      RemoveAbove(w.rows[r - 1], w.rows[r], t);
    }
  }

  lemma UnlinkKeeps(w: Wheel, t: nat, base: Tick)
    requires Inv(w, base)
    ensures Inv(Unlink(w, t), base)
    ensures Nowhere(Unlink(w, t).rows, t)
    ensures Bottom(Unlink(w, t)) == Remove(Bottom(w), t)
  {
    UnlinkRows(w, t, base);
    MarkedRemove(Bottom(w), w.active, t);
  }

  lemma LinkedRow(row: seq<nat>, timeout: seq<Tick>, t: nat, x: Tick, base: Tick)
    requires t < |timeout| && InRange(row, |timeout|) && Sorted(row, timeout, base) && t !in row && Key(base, x) < HALF
    ensures Sorted(row, timeout[t := x], base) && Sorted(Scan(row, timeout[t := x], t), timeout[t := x], base)
  {
    SortedFrame(row, timeout, t, x, base);
    ScanSorted(row, timeout[t := x], t, base);
  }

  lemma LinkAbove(w: Wheel, t: nat, x: Tick, height: nat, base: Tick, r: nat)
    requires Inv(w, base) && t < |w.timeout| && Key(base, x) < HALF && height >= 1 && 0 < r < |w.rows|
    requires t !in w.rows[r] && t !in w.rows[r - 1]
    ensures Stacked(Link(w.rows, w.timeout[t := x], t, height), r)
  {
    var timeout := w.timeout[t := x];
    assert Stacked(w.rows, r);
    LinkedRow(w.rows[r], w.timeout, t, x, base);
    ScanAbove(w.rows[r - 1], w.rows[r], timeout, t, base);
  }

  lemma LinkRows(w: Wheel, t: nat, x: Tick, height: nat, base: Tick)
    requires Inv(w, base) && t < |w.timeout| && Key(base, x) < HALF && height >= 1
    requires Nowhere(w.rows, t)
    ensures var rows := Link(w.rows, w.timeout[t := x], t, height);
      InOrder(rows, w.timeout[t := x], base)
  {
    hide Sorted, Stacked, Scan, Key, Marked;
    var timeout := w.timeout[t := x];
    var rows := Link(w.rows, timeout, t, height);
    forall r | 0 <= r < |rows| ensures InRange(rows[r], |w.timeout|) && Sorted(rows[r], timeout, base) {
      LinkedRow(w.rows[r], w.timeout, t, x, base);
    }
    forall r | 0 < r < |rows| ensures Stacked(rows, r) {
      assert t !in w.rows[r] && t !in w.rows[r - 1];
      LinkAbove(w, t, x, height, base, r);
    }
  }

  /** The timer fields and rows after linking `t` with timeout `x`. */
  function Linked(w: Wheel, t: nat, x: Tick, random: Tick, height: nat): Wheel
    requires Shape(w) && t < |w.timeout|
  {
    var timeout := w.timeout[t := x];
    w.(timeout := timeout, random := random, active := w.active[t := true], rows := Link(w.rows, timeout, t, height))
  }

  /** Linking an unlinked timer whose new timeout is in the window. */
  lemma LinkKeeps(w: Wheel, t: nat, x: Tick, random: Tick, height: nat, base: Tick)
    requires Inv(w, base) && t < |w.timeout| && Key(base, x) < HALF && height >= 1
    requires w.firing != Some(t) && Nowhere(w.rows, t)
    ensures Inv(Linked(w, t, x, random, height), base)
  {
    LinkRows(w, t, x, height, base);
    LinkBottom(w, t, x, random, height);
  }

  lemma LinkBottom(w: Wheel, t: nat, x: Tick, random: Tick, height: nat)
    requires Shape(w) && t < |w.timeout| && height >= 1 && w.firing != Some(t) && Marked(Bottom(w), w.active)
    requires w.firing.Some? ==> w.firing.value !in Bottom(w)
    ensures var v := Linked(w, t, x, random, height);
      Marked(Bottom(v), v.active) && (v.firing.Some? ==> v.firing.value !in Bottom(v))
  {
    hide Marked, Scan, Later;
    assert Bottom(Linked(w, t, x, random, height)) == Scan(Bottom(w), w.timeout[t := x], t);
    MarkedScan(Bottom(w), w.timeout[t := x], w.active, t);
    ScanMembers(Bottom(w), w.timeout[t := x], t);
  }

  lemma {:induction false} MarkedScan(row: seq<nat>, timeout: seq<Tick>, active: seq<bool>, t: nat)
    requires t < |timeout| == |active| && InRange(row, |timeout|) && Marked(row, active)
    ensures Marked(Scan(row, timeout, t), active[t := true])
  {
    if row != [] && !Later(timeout[row[0]], timeout[t]) {
      MarkedScan(row[1..], timeout, active, t);
    }
  }

  lemma MarkedRemove(row: seq<nat>, active: seq<bool>, t: nat)
    requires Marked(row, active)
    ensures Marked(Remove(row, t), active)
  {
    var q := Remove(row, t);
    forall i | 0 <= i < |q| ensures q[i] < |active| && active[q[i]] {
      assert q[i] in row;
      var k :| 0 <= k < |row| && row[k] == q[i];
    }
  }

  /** The tick and every period fit in the window. */
  ghost predicate Paced(w: Wheel, base: Tick) {
    forall t | 0 <= t < |w.init| :: Key(base, w.tick) + w.init[t] < HALF
  }

  /** Starting a timer whose new timeout falls in the window. */
  lemma StartKeeps(w: Wheel, t: nat, base: Tick)
    requires Inv(w, base) && t < |w.timeout| && Key(base, w.tick) + w.init[t] < HALF
    ensures Inv(StartTimer(w, t), base)
  {
    UnlinkKeeps(w, t, base);
    var random := Plus(w.random, 1);
    var x := Plus(w.tick, w.init[t]);
    assert Key(base, x) == Key(base, w.tick) + w.init[t];
    assert StartTimer(w, t) == Linked(Unlink(w, t), t, x, random, Height(random, |w.rows|));
    LinkKeeps(Unlink(w, t), t, Plus(w.tick, w.init[t]), random, Height(random, |w.rows|), base);
  }

  /** A timer that is not marked as started is linked nowhere. */
  lemma InactiveUnlinked(w: Wheel, t: nat, base: Tick)
    requires Inv(w, base) && t < |w.active| && !w.active[t]
    ensures Nowhere(w.rows, t)
  {
    forall r | 0 <= r < |w.rows| ensures t !in w.rows[r] {
      if t in w.rows[r] {
        LinkedAtBottom(w, base, r, t);
      }
    }
  }

  lemma StopActive(w: Wheel, t: nat, base: Tick)
    requires Inv(w, base) && t < |w.timeout| && w.active[t]
    ensures Inv(StopTimer(w, t), base)
    ensures Nowhere(StopTimer(w, t).rows, t)
    ensures Bottom(StopTimer(w, t)) == Remove(Bottom(w), t)
  {
    hide Sorted, Stacked, InRange;
    var u := Unlink(w, t);
    UnlinkKeeps(w, t, base);
    assert t !in Bottom(u) by {
      assert u.rows[|u.rows| - 1] == Bottom(u);
    }
    DeactivateKeeps(u, t, base);
    assert StopTimer(w, t) == u.(active := u.active[t := false]);
  }

  lemma DeactivateKeeps(u: Wheel, t: nat, base: Tick)
    requires Inv(u, base) && t < |u.active| && t !in Bottom(u)
    ensures Inv(u.(active := u.active[t := false]), base)
  {
    MarkedUpdate(Bottom(u), u.active, t);
    SameRows(u, u.(active := u.active[t := false]), base);
  }

  lemma StopKeeps(w: Wheel, t: nat, base: Tick)
    requires Inv(w, base) && t < |w.timeout|
    ensures Inv(StopTimer(w, t), base)
    ensures Nowhere(StopTimer(w, t).rows, t)
    ensures Bottom(StopTimer(w, t)) == Remove(Bottom(w), t)
  {
    if w.active[t] {
      StopActive(w, t, base);
    } else {
      InactiveUnlinked(w, t, base);
    }
  }

  /** The invariant is about the rows, the timeouts, and what is marked. */
  lemma SameRows(w: Wheel, v: Wheel, base: Tick)
    requires Inv(w, base) && Shape(v) && v.rows == w.rows && v.timeout == w.timeout
    requires Marked(Bottom(v), v.active) && (v.firing.Some? ==> v.firing.value !in Bottom(v))
    ensures Inv(v, base)
  {
  }

  lemma MarkedUpdate(row: seq<nat>, active: seq<bool>, t: nat)
    requires Marked(row, active) && t < |active| && t !in row
    ensures Marked(row, active[t := false])
  {
  }

  // ----- the expiry pass -----

  /** The expired part of the bottom row. */
  function Expired(w: Wheel, row: seq<nat>): (r: seq<nat>)
    requires InRange(row, |w.timeout|)
  {
    if row == [] then []
    else if Due(w, row[0]) then [row[0]] + Expired(w, row[1..])
    else Expired(w, row[1..])
  }

  /** Whether a command takes timer `u` off whatever list it is on. */
  predicate Touches(c: Command, u: nat) {
    (c.Start? || c.Stop? || c.SetTime?) && c.u == u
  }

  predicate TouchesAny(cs: seq<Command>, u: nat) {
    exists i | 0 <= i < |cs| :: Touches(cs[i], u)
  }

  function Untouched(row: seq<nat>, cs: seq<Command>): (r: seq<nat>)
    ensures |r| <= |row|
    ensures forall u :: u in r <==> u in row && !TouchesAny(cs, u)
  {
    if row == [] then []
    else if TouchesAny(cs, row[0]) then Untouched(row[1..], cs)
    else [row[0]] + Untouched(row[1..], cs)
  }

  /** Which of the expired timers run, and in which order, when the function of timer `t` does `calls[t]`. */
  function Fires(expired: seq<nat>, calls: seq<seq<Command>>): seq<nat>
    requires InRange(expired, |calls|)
    decreases |expired|
  {
    if expired == [] then []
    else
      UntouchedInRange(expired[1..], calls[expired[0]], |calls|);
      [expired[0]] + Fires(Untouched(expired[1..], calls[expired[0]]), calls)
  }

  lemma UntouchedInRange(row: seq<nat>, cs: seq<Command>, n: nat)
    requires InRange(row, n)
    ensures InRange(Untouched(row, cs), n)
  {
    var q := Untouched(row, cs);
    forall i | 0 <= i < |q| ensures q[i] < n {
      assert q[i] in row;
      var k: nat :| k < |row| && row[k] == q[i];
    }
  }

  /** Periods that move a timeout strictly into the future. */
  ghost predicate Lively(w: Wheel) {
    forall t | 0 <= t < |w.init| :: 1 <= w.init[t]
  }

  /** The commands keep periods positive and inside the window. */
  ghost predicate Tame(cs: seq<Command>, n: nat, room: int) {
    Callable(cs, n) && forall i | 0 <= i < |cs| && cs[i].SetTime? :: 1 <= cs[i].time < room
  }

  ghost predicate Ready(w: Wheel, base: Tick) {
    Inv(w, base) && Paced(w, base) && Lively(w) && Key(base, w.tick) < HALF
  }

  function ExpiredOf(w: Wheel): seq<nat>
    requires Shape(w)
  {
    Expired(w, Bottom(w))
  }

  lemma {:induction false} ExpiredRemove(w: Wheel, row: seq<nat>, t: nat)
    requires InRange(row, |w.timeout|) && InRange(Remove(row, t), |w.timeout|) && NoDup(row)
    ensures Expired(w, Remove(row, t)) == Remove(Expired(w, row), t)
  {
    ExpiredMembers(w, row);
    if row == [] {
    } else if row[0] == t {
      assert t !in row[1..];
      ExpiredMembers(w, row[1..]);
    } else {
      RemoveInRange(row[1..], t, |w.timeout|);
      ExpiredRemove(w, row[1..], t);
    }
  }

  lemma {:induction false} ExpiredMembers(w: Wheel, row: seq<nat>)
    requires InRange(row, |w.timeout|)
    ensures forall u :: u in Expired(w, row) <==> u in row && Due(w, u)
    ensures |Expired(w, row)| <= |row|
  {
    if row == [] {
    } else {
      ExpiredMembers(w, row[1..]);
      assert forall u :: u in row <==> u == row[0] || u in row[1..];
    }
  }

  lemma {:induction false} ExpiredFrame(w: Wheel, v: Wheel, row: seq<nat>)
    requires InRange(row, |w.timeout|) && |v.timeout| == |w.timeout|
    requires forall u | u in row :: u < |w.timeout| && Due(w, u) == Due(v, u)
    ensures Expired(w, row) == Expired(v, row)
  {
    if row == [] {
    } else {
      assert row[0] in row;
      ExpiredFrame(w, v, row[1..]);
    }
  }

  /** Linking a timer that is not due adds nothing to what has expired. */
  lemma {:induction false} ExpiredScan(w: Wheel, row: seq<nat>, t: nat)
    requires t < |w.timeout| && InRange(row, |w.timeout|) && !Due(w, t)
    ensures Expired(w, Scan(row, w.timeout, t)) == Expired(w, row)
  {
    if row == [] {
    } else if Later(w.timeout[row[0]], w.timeout[t]) {
      assert ([t] + row)[1..] == row;
    } else {
      ExpiredScan(w, row[1..], t);
      var rest := Scan(row[1..], w.timeout, t);
      assert ([row[0]] + rest)[1..] == rest;
    }
  }

  lemma StopExpired(w: Wheel, t: nat, base: Tick)
    requires Ready(w, base) && t < |w.timeout|
    ensures Ready(StopTimer(w, t), base)
    ensures ExpiredOf(StopTimer(w, t)) == Remove(ExpiredOf(w), t)
  {
    StopKeeps(w, t, base);
    RemoveInRange(Bottom(w), t, |w.timeout|);
    assert Sorted(Bottom(w), w.timeout, base);
    ExpiredRemove(w, Bottom(w), t);
    ExpiredFrame(w, StopTimer(w, t), Remove(Bottom(w), t));
  }

  /** A timeout in the near future is not due. */
  lemma FutureNotDue(tick: Tick, period: nat)
    requires 1 <= period < HALF
    ensures Minus(tick, Plus(tick, period)) >= HALF
  {
  }

  lemma StartBottom(w: Wheel, t: nat)
    requires Shape(w) && t < |w.timeout|
    ensures InRange(Remove(Bottom(w), t), |w.timeout|)
    ensures Bottom(StartTimer(w, t)) == Scan(Remove(Bottom(w), t), StartTimer(w, t).timeout, t)
  {
    hide Scan;
    RemoveInRange(Bottom(w), t, |w.timeout|);
    UnlinkShape(w, t);
    var rows := Unlink(w, t).rows;
    assert rows[|rows| - 1] == Remove(Bottom(w), t);
  }

  lemma StartNotDue(w: Wheel, t: nat, base: Tick)
    requires Ready(w, base) && t < |w.timeout| && InRange(Remove(Bottom(w), t), |w.timeout|)
    ensures ExpiredOf(StartTimer(w, t)) == Expired(StartTimer(w, t), Remove(Bottom(w), t))
  {
    var r := StartTimer(w, t);
    FutureNotDue(w.tick, w.init[t]);
    StartBottom(w, t);
    ExpiredScan(r, Remove(Bottom(w), t), t);
  }

  /** Taking a timer off the bottom row takes it off what has expired, also with its timeout changed. */
  lemma ExpiredWithout(w: Wheel, v: Wheel, row: seq<nat>, t: nat)
    requires InRange(row, |w.timeout|) && NoDup(row) && InRange(Remove(row, t), |w.timeout|)
    requires |v.timeout| == |w.timeout| && v.tick == w.tick
    requires forall u | 0 <= u < |w.timeout| && u != t :: v.timeout[u] == w.timeout[u]
    ensures Expired(v, Remove(row, t)) == Remove(Expired(w, row), t)
  {
    RemoveNoDup(row, t);
    ExpiredFrame(w, v, Remove(row, t));
    ExpiredRemove(w, row, t);
  }

  lemma StartReady(w: Wheel, t: nat, base: Tick)
    requires Ready(w, base) && t < |w.timeout|
    ensures Ready(StartTimer(w, t), base)
  {
    StartKeeps(w, t, base);
  }

  lemma StartExpired(w: Wheel, t: nat, base: Tick)
    requires Ready(w, base) && t < |w.timeout|
    ensures Ready(StartTimer(w, t), base)
    ensures ExpiredOf(StartTimer(w, t)) == Remove(ExpiredOf(w), t)
  {
    StartReady(w, t, base);
    var row := Bottom(w);
    assert InRange(Remove(row, t), |w.timeout|) by {
      RemoveInRange(row, t, |w.timeout|);
    }
    StartNotDue(w, t, base);
    assert Sorted(row, w.timeout, base);
    ExpiredWithout(w, StartTimer(w, t), row, t);
  }

  lemma DoExpired(w: Wheel, c: Command, base: Tick)
    requires Ready(w, base) && c.u < |w.timeout|
    requires c.SetTime? ==> 1 <= c.time && Key(base, w.tick) + c.time < HALF
    ensures Ready(Do(w, c), base) && Do(w, c).tick == w.tick
    ensures ExpiredOf(Do(w, c)) == if Touches(c, c.u) then Remove(ExpiredOf(w), c.u) else ExpiredOf(w)
  {
    match c
    case Start(t) => StartExpired(w, t, base);
    case Stop(t) => StopExpired(w, t, base);
    case SetTime(t, time) =>
      StopExpired(w, t, base);
      KeepsFrame(StopTimer(w, t), Do(w, c), base);
    case SetOneShot(t) => KeepsFrame(w, Do(w, c), base);
    case SetPeriodic(t) => KeepsFrame(w, Do(w, c), base);
  }

  lemma KeepsFrame(w: Wheel, v: Wheel, base: Tick)
    requires Inv(w, base) && Shape(v)
    requires v.rows == w.rows && v.timeout == w.timeout && v.tick == w.tick && v.active == w.active
    requires v.firing == w.firing || v.firing == None
    ensures Inv(v, base) && ExpiredOf(v) == ExpiredOf(w)
  {
    SameRows(w, v, base);
    ExpiredFrame(w, v, Bottom(w));
  }

  lemma {:induction false} UntouchedStep(row: seq<nat>, cs: seq<Command>)
    requires cs != [] && NoDup(row)
    ensures Untouched(row, cs) ==
      Untouched(if Touches(cs[0], cs[0].u) then Remove(row, cs[0].u) else row, cs[1..])
  {
    var u := cs[0].u;
    if row == [] {
    } else {
      UntouchedStep(row[1..], cs);
      TouchesStep(cs, row[0]);
      if row[0] == u && Touches(cs[0], u) {
        assert u !in row[1..];
        assert Remove(row, u) == Remove(row[1..], u) == row[1..];
      }
    }
  }

  lemma TouchesStep(cs: seq<Command>, u: nat)
    requires cs != []
    ensures TouchesAny(cs, u) <==> Touches(cs[0], u) || TouchesAny(cs[1..], u)
  {
    if TouchesAny(cs, u) {
      var i :| 0 <= i < |cs| && Touches(cs[i], u);
      if i > 0 {
        assert Touches(cs[1..][i - 1], u);
      }
    }
    if TouchesAny(cs[1..], u) {
      var i :| 0 <= i < |cs[1..]| && Touches(cs[1..][i], u);
      assert Touches(cs[i + 1], u);
    }
  }

  lemma ReadyNoDup(w: Wheel, base: Tick)
    requires Ready(w, base)
    ensures NoDup(ExpiredOf(w)) && InRange(ExpiredOf(w), |w.timeout|)
  {
    assert Sorted(Bottom(w), w.timeout, base);
    ExpiredNoDup(w, Bottom(w));
  }

  lemma {:induction false} DoAllReady(w: Wheel, cs: seq<Command>, base: Tick)
    requires Ready(w, base) && Tame(cs, |w.timeout|, HALF - Key(base, w.tick))
    ensures Ready(DoAll(w, cs), base) && DoAll(w, cs).tick == w.tick
    decreases |cs|
  {
    hide Do;
    if cs != [] {
      DoExpired(w, cs[0], base);
      DoAllReady(Do(w, cs[0]), cs[1..], base);
    }
  }

  lemma {:induction false} DoAllExpired(w: Wheel, cs: seq<Command>, base: Tick)
    requires Ready(w, base) && Tame(cs, |w.timeout|, HALF - Key(base, w.tick))
    ensures ExpiredOf(DoAll(w, cs)) == Untouched(ExpiredOf(w), cs)
    decreases |cs|
  {
    hide Do;
    if cs == [] {
      UntouchedAll(ExpiredOf(w));
    } else {
      DoExpired(w, cs[0], base);
      DoAllExpired(Do(w, cs[0]), cs[1..], base);
      ReadyNoDup(w, base);
      UntouchedStep(ExpiredOf(w), cs);
    }
  }

  lemma {:induction false} UntouchedAll(row: seq<nat>)
    ensures Untouched(row, []) == row
  {
    if row != [] {
      UntouchedAll(row[1..]);
    }
  }

  lemma {:induction false} ExpiredNoDup(w: Wheel, row: seq<nat>)
    requires InRange(row, |w.timeout|) && NoDup(row)
    ensures NoDup(Expired(w, row)) && InRange(Expired(w, row), |w.timeout|)
  {
    if row == [] {
    } else {
      ExpiredNoDup(w, row[1..]);
      ExpiredMembers(w, row[1..]);
      var q := Expired(w, row[1..]);
      forall i | 0 <= i < |q| ensures q[i] != row[0] {
        assert q[i] in q;
      }
    }
  }

  lemma {:induction false} NoneExpired(w: Wheel, row: seq<nat>)
    requires InRange(row, |w.timeout|) && forall i | 0 <= i < |row| :: !Due(w, row[i])
    ensures Expired(w, row) == []
  {
    if row != [] {
      NoneExpired(w, row[1..]);
    }
  }

  /** If the head of the list is not due, nothing linked is. */
  lemma HeadDecides(w: Wheel, base: Tick)
    requires Ready(w, base)
    ensures Bottom(w) != [] && Due(w, Bottom(w)[0]) <==> ExpiredOf(w) != []
    ensures ExpiredOf(w) != [] ==> ExpiredOf(w)[0] == Bottom(w)[0]
    ensures ExpiredOf(w) == [] ==> forall u | u in Bottom(w) :: u < |w.timeout| && !Due(w, u)
  {
    var row := Bottom(w);
    assert Sorted(row, w.timeout, base);
    ExpiredMembers(w, row);
    if row != [] && !Due(w, row[0]) {
      forall k | 0 <= k < |row| ensures !Due(w, row[k]) {
        if k > 0 {
          assert Ordered(w.timeout, base, row[0], row[k]);
        }
      }
      NoneExpired(w, row);
    }
  }

  lemma FireKeeps(w: Wheel, t: nat, base: Tick)
    requires Inv(w, base) && Bottom(w) != [] && t == Bottom(w)[0] && t < |w.timeout|
    ensures Inv(Fire(w, t), base) && Bottom(Fire(w, t)) == Bottom(w)[1..] && t !in Bottom(Fire(w, t))
  {
    UnlinkKeeps(w, t, base);
    var u := Unlink(w, t);
    MarkedUpdate(Bottom(u), w.active, t);
    SameRows(u, Fire(w, t), base);
  }

  lemma FireExpired(w: Wheel, t: nat, base: Tick)
    requires Ready(w, base) && Bottom(w) != [] && t == Bottom(w)[0] && Due(w, t)
    ensures Ready(Fire(w, t), base) && Fire(w, t).tick == w.tick && ExpiredOf(w) == [t] + ExpiredOf(Fire(w, t))
    ensures t !in Bottom(Fire(w, t))
  {
    FireKeeps(w, t, base);
    ExpiredFrame(w, Fire(w, t), Bottom(w)[1..]);
  }

  lemma RearmExpired(w: Wheel, t: nat, base: Tick)
    requires Ready(w, base) && t < |w.timeout| && t !in ExpiredOf(w)
    ensures Ready(Rearm(w, t), base) && Rearm(w, t).tick == w.tick && |Rearm(w, t).timeout| == |w.timeout|
    ensures ExpiredOf(Rearm(w, t)) == ExpiredOf(w)
  {
    if w.firing.Some? {
      var v := w.(firing := None);
      KeepsFrame(w, v, base);
      if v.periodic[t] && v.active[t] {
        StartExpired(v, t, base);
      }
    }
  }

  /** One turn of the loop uses up the head and whatever its function touched. */
  lemma ExpireStep(w: Wheel, t: nat, cs: seq<Command>, base: Tick)
    requires Ready(w, base) && Bottom(w) != [] && t == Bottom(w)[0] && Due(w, t)
    requires Tame(cs, |w.timeout|, HALF - Key(base, w.tick))
    ensures var r := Expire(w, t, cs);
      && Ready(r, base) && r.tick == w.tick && |r.timeout| == |w.timeout|
      && ExpiredOf(w) != [] && ExpiredOf(r) == Untouched(ExpiredOf(w)[1..], cs)
  {
    FireExpired(w, t, base);
    var f := Fire(w, t);
    DoAllReady(f, cs, base);
    DoAllExpired(f, cs, base);
    assert t !in ExpiredOf(f) by {
      ExpiredMembers(f, Bottom(f));
    }
    assert t !in ExpiredOf(DoAll(f, cs));
    RearmExpired(DoAll(f, cs), t, base);
  }

  // ----- the whole pass -----

  ghost predicate AllTame(calls: seq<seq<Command>>, w: Wheel, base: Tick) {
    && |calls| == |w.timeout|
    && forall t | 0 <= t < |calls| :: Tame(calls[t], |w.timeout|, HALF - Key(base, w.tick))
  }

  /** `_timer_check`: the wheel it leaves, and the timers whose functions ran, in order. */
  function Pass(w: Wheel, calls: seq<seq<Command>>, base: Tick): (r: (Wheel, seq<nat>))
    requires Ready(w, base) && AllTame(calls, w, base)
    decreases |ExpiredOf(w)|
  {
    HeadDecides(w, base);
    if Bottom(w) == [] || !Due(w, Bottom(w)[0]) then (w, [])
    else
      var t := Bottom(w)[0];
      ExpireStep(w, t, calls[t], base);
      var rest := Pass(Expire(w, t, calls[t]), calls, base);
      (rest.0, [t] + rest.1)
  }

  /**
   A pass ends, runs exactly what `Fires` says, in that order, keeps the rows in order, and leaves nothing
   linked that is due.
   */
  lemma {:induction false} PassRuns(w: Wheel, calls: seq<seq<Command>>, base: Tick)
    requires Ready(w, base) && AllTame(calls, w, base)
    ensures InRange(ExpiredOf(w), |calls|)
    ensures var (r, fired) := Pass(w, calls, base);
      && fired == Fires(ExpiredOf(w), calls)
      && Ready(r, base) && forall u | u in Bottom(r) :: u < |r.timeout| && !Due(r, u)
    decreases |ExpiredOf(w)|
  {
    HeadDecides(w, base);
    ReadyNoDup(w, base);
    if Bottom(w) == [] || !Due(w, Bottom(w)[0]) {
    } else {
      var t := Bottom(w)[0];
      ExpireStep(w, t, calls[t], base);
      PassRuns(Expire(w, t, calls[t]), calls, base);
    }
  }

  /** `u` comes before `v` in `row`. */
  ghost predicate Before(row: seq<nat>, u: nat, v: nat) {
    row != [] && ((row[0] == u && v in row[1..]) || Before(row[1..], u, v))
  }

  lemma {:induction false} BeforeMembers(row: seq<nat>, u: nat, v: nat)
    requires Before(row, u, v)
    ensures u in row && v in row
  {
    if row[0] != u || v !in row[1..] {
      BeforeMembers(row[1..], u, v);
    }
  }

  lemma {:induction false} UntouchedOrder(row: seq<nat>, cs: seq<Command>, u: nat, v: nat)
    requires u in Untouched(row, cs) && v in Untouched(row, cs)
    ensures Before(Untouched(row, cs), u, v) <==> Before(row, u, v)
  {
    var q := Untouched(row, cs);
    if row == [] {
    } else if TouchesAny(cs, row[0]) {
      UntouchedOrder(row[1..], cs, u, v);
    } else {
      if u in q[1..] && v in q[1..] {
        UntouchedOrder(row[1..], cs, u, v);
      } else {
        if Before(row[1..], u, v) {
          BeforeMembers(row[1..], u, v);
        }
        if Before(q[1..], u, v) {
          BeforeMembers(q[1..], u, v);
        }
      }
    }
  }

  lemma {:induction false} UntouchedKeep(row: seq<nat>, cs: seq<Command>, f: seq<nat>)
    requires forall x | x in f :: !TouchesAny(cs, x)
    ensures Keep(Untouched(row, cs), f) == Keep(row, f)
  {
    if row != [] {
      UntouchedKeep(row[1..], cs, f);
      if !TouchesAny(cs, row[0]) {
        assert ([row[0]] + Untouched(row[1..], cs))[1..] == Untouched(row[1..], cs);
      }
    }
  }

  lemma {:induction false} UntouchedNoDup(row: seq<nat>, cs: seq<Command>)
    requires NoDup(row)
    ensures NoDup(Untouched(row, cs))
  {
    if row != [] {
      UntouchedNoDup(row[1..], cs);
      var q := Untouched(row[1..], cs);
      forall i | 0 <= i < |q| ensures q[i] != row[0] {
        assert q[i] in q;
      }
    }
  }

  /** The function of some timer of `fired` that comes before `u` takes `u` off the list. */
  ghost predicate Prevented(expired: seq<nat>, fired: seq<nat>, calls: seq<seq<Command>>, u: nat) {
    exists v: nat :: v < |calls| && v in fired && Before(expired, v, u) && TouchesAny(calls[v], u)
  }

  lemma PreventedStep(expired: seq<nat>, rest: seq<nat>, calls: seq<seq<Command>>, u: nat)
    requires InRange(expired, |calls|) && NoDup(expired) && expired != [] && u in expired[1..]
    requires var t := expired[0]; forall x | x in rest :: x in Untouched(expired[1..], calls[t])
    ensures var t := expired[0];
      Prevented(expired, [t] + rest, calls, u) <==>
        TouchesAny(calls[t], u) || Prevented(Untouched(expired[1..], calls[t]), rest, calls, u)
  {
    var t := expired[0];
    var q := Untouched(expired[1..], calls[t]);
    if Prevented(expired, [t] + rest, calls, u) && !TouchesAny(calls[t], u) {
      var v: nat :| v < |calls| && v in [t] + rest && Before(expired, v, u) && TouchesAny(calls[v], u);
      assert v != t && v in rest && Before(expired[1..], v, u);
      UntouchedOrder(expired[1..], calls[t], v, u);
    }
    if TouchesAny(calls[t], u) {
      assert t in [t] + rest && Before(expired, t, u);
    } else if Prevented(q, rest, calls, u) {
      var v: nat :| v < |calls| && v in rest && Before(q, v, u) && TouchesAny(calls[v], u);
      UntouchedOrder(expired[1..], calls[t], v, u);
      assert v in [t] + rest && Before(expired, v, u);
    }
  }

  /**
   Of the expired timers, exactly those run that no earlier one that runs has stopped, restarted or re-timed,
   in the order of the list: by timeout, the first started first among equals.
   */
  lemma {:induction false} FiresExactly(expired: seq<nat>, calls: seq<seq<Command>>)
    requires InRange(expired, |calls|) && NoDup(expired)
    ensures var fired := Fires(expired, calls);
      && fired == Keep(expired, fired)
      && forall u: nat | u in expired :: u in fired <==> !Prevented(expired, fired, calls, u)
    decreases |expired|
  {
    if expired == [] {
    } else {
      var t := expired[0];
      var q := Untouched(expired[1..], calls[t]);
      UntouchedInRange(expired[1..], calls[t], |calls|);
      UntouchedNoDup(expired[1..], calls[t]);
      FiresExactly(q, calls);
      var rest := Fires(q, calls);
      var fired := [t] + rest;
      assert forall x | x in rest :: x in q;
      UntouchedKeep(expired[1..], calls[t], rest);
      KeepExtra(expired[1..], rest, fired);
      forall u: nat | u in expired ensures u in fired <==> !Prevented(expired, fired, calls, u) {
        if u == t {
          FirstUnprevented(expired, fired, calls);
        } else {
          PreventedStep(expired, rest, calls, u);
        }
      }
    }
  }

  lemma FirstUnprevented(expired: seq<nat>, fired: seq<nat>, calls: seq<seq<Command>>)
    requires NoDup(expired) && expired != []
    ensures !Prevented(expired, fired, calls, expired[0])
  {
    forall v: nat ensures !Before(expired, v, expired[0]) {
      if Before(expired, v, expired[0]) {
        BeforeMembers(expired[1..], v, expired[0]);
      }
    }
  }

  // ----- what becomes of the timer that fired -----

  /** While timer `t` is the one being fired, what its function has done to it so far. */
  ghost predicate Progress(w: Wheel, t: nat, wasPeriodic: bool, init: Tick, touched: bool)
    requires Shape(w) && t < |w.timeout|
  {
    && (w.firing == Some(t) ==> t !in Bottom(w) && w.active[t] == wasPeriodic && (touched ==> !wasPeriodic))
    && (!touched ==> w.firing == Some(t) && w.init[t] == init)
    && (w.firing == Some(t) || w.firing == None)
  }

  lemma DoProgress(w: Wheel, c: Command, t: nat, wasPeriodic: bool, init: Tick, touched: bool)
    requires Shape(w) && t < |w.timeout| && c.u < |w.timeout| && Progress(w, t, wasPeriodic, init, touched)
    ensures Progress(Do(w, c), t, wasPeriodic, init, touched || Touches(c, t))
  {
    hide Remove, AllInRange;
    UnlinkShape(w, c.u);
    match c
    case Start(u) =>
      StartBottom(w, u);
      ScanMembers(Remove(Bottom(w), u), StartTimer(w, u).timeout, u);
    case Stop(u) =>
    case SetTime(u, time) =>
    case SetOneShot(u) =>
    case SetPeriodic(u) =>
  }

  lemma {:induction false} DoAllProgress(w: Wheel, cs: seq<Command>, t: nat, wasPeriodic: bool, init: Tick, touched: bool)
    requires Shape(w) && t < |w.timeout| && Callable(cs, |w.timeout|) && Progress(w, t, wasPeriodic, init, touched)
    ensures Progress(DoAll(w, cs), t, wasPeriodic, init, touched || TouchesAny(cs, t))
    decreases |cs|
  {
    if cs == [] {
    } else {
      TouchesStep(cs, t);
      DoProgress(w, cs[0], t, wasPeriodic, init, touched);
      DoAllProgress(Do(w, cs[0]), cs[1..], t, wasPeriodic, init, touched || Touches(cs[0], t));
    }
  }

  lemma FireProgress(w: Wheel, t: nat, base: Tick)
    requires Ready(w, base) && Bottom(w) != [] && t == Bottom(w)[0] && t < |w.timeout|
    ensures Progress(Fire(w, t), t, w.periodic[t], w.init[t], false)
  {
    FireKeeps(w, t, base);
    assert Marked(Bottom(w), w.active);
  }

  lemma RearmOff(d: Wheel, t: nat)
    requires Shape(d) && t < |d.timeout| && d.firing in {None, Some(t)}
    requires d.firing == Some(t) ==> t !in Bottom(d)
    requires d.firing == None || !(d.periodic[t] && d.active[t])
    ensures Rearm(d, t) == d.(firing := None)
    ensures d.firing == Some(t) ==> t !in Bottom(Rearm(d, t))
  {
  }

  lemma RearmOn(d: Wheel, t: nat)
    requires Shape(d) && t < |d.timeout| && d.firing == Some(t) && d.periodic[t] && d.active[t]
    ensures var r := Rearm(d, t);
      t in Bottom(r) && r.active[t] && r.timeout[t] == Plus(d.tick, d.init[t]) && r.firing == None
  {
    var v := d.(firing := None);
    StartBottom(v, t);
    ScanMembers(Remove(Bottom(v), t), StartTimer(v, t).timeout, t);
  }

  /**
   The loop itself re-arms the timer it fired exactly when that was periodic, still is, and its function did
   not stop, restart or re-time it; whatever the function did to it otherwise stands.
   */
  lemma RearmRule(w: Wheel, t: nat, cs: seq<Command>, base: Tick)
    requires Ready(w, base) && Bottom(w) != [] && t == Bottom(w)[0] && t < |w.timeout| && Callable(cs, |w.timeout|)
    ensures var d, r := DoAll(Fire(w, t), cs), Expire(w, t, cs);
      && t < |d.timeout| && r.firing == None
      && (TouchesAny(cs, t) ==> r == d.(firing := None))
      && (!TouchesAny(cs, t) && w.periodic[t] && d.periodic[t] ==>
           t in Bottom(r) && r.active[t] && r.timeout[t] == Plus(d.tick, w.init[t]))
      && (!TouchesAny(cs, t) && !(w.periodic[t] && d.periodic[t]) ==> t !in Bottom(r) && r.active[t] == w.periodic[t])
  {
    var d := DoAll(Fire(w, t), cs);
    assert Progress(d, t, w.periodic[t], w.init[t], TouchesAny(cs, t)) by {
      FireProgress(w, t, base);
      DoAllProgress(Fire(w, t), cs, t, w.periodic[t], w.init[t], false);
    }
    if d.firing == Some(t) && d.periodic[t] && d.active[t] {
      RearmOn(d, t);
    } else {
      RearmOff(d, t);
    }
  }

  /** The bottom row has no repetition, and once timer `t` has been touched its mark says whether it is linked. */
  ghost predicate Agrees(w: Wheel, t: nat, touched: bool)
    requires Shape(w) && t < |w.timeout|
  {
    NoDup(Bottom(w)) && (touched ==> (w.active[t] <==> t in Bottom(w)))
  }

  lemma StartAgrees(w: Wheel, u: nat, t: nat, touched: bool)
    requires Shape(w) && t < |w.timeout| && u < |w.timeout| && Agrees(w, t, touched)
    ensures Agrees(StartTimer(w, u), t, touched || u == t)
  {
    hide Link, Height, NoDup;
    StartBottom(w, u);
    RemoveNoDup(Bottom(w), u);
    ScanMembers(Remove(Bottom(w), u), StartTimer(w, u).timeout, u);
    ScanNoDup(Remove(Bottom(w), u), StartTimer(w, u).timeout, u);
  }

  lemma {:induction false} ScanNoDup(row: seq<nat>, timeout: seq<Tick>, t: nat)
    requires t < |timeout| && InRange(row, |timeout|) && NoDup(row) && t !in row
    ensures NoDup(Scan(row, timeout, t))
  {
    hide Later;
    if row != [] && !Later(timeout[row[0]], timeout[t]) {
      ScanNoDup(row[1..], timeout, t);
      ScanMembers(row[1..], timeout, t);
      var q := Scan(row[1..], timeout, t);
      forall i | 0 <= i < |q| ensures q[i] != row[0] {
        assert q[i] in q;
      }
    }
  }

  /** Before it is touched a fired timer is linked nowhere, so that stopping it when it is unmarked leaves it right. */
  lemma DoAgrees(w: Wheel, c: Command, t: nat, wasPeriodic: bool, init: Tick, touched: bool)
    requires Shape(w) && t < |w.timeout| && c.u < |w.timeout|
    requires Progress(w, t, wasPeriodic, init, touched) && Agrees(w, t, touched)
    ensures Agrees(Do(w, c), t, touched || Touches(c, t))
  {
    hide NoDup, StartTimer;
    UnlinkShape(w, c.u);
    RemoveNoDup(Bottom(w), c.u);
    match c
    case Start(u) => StartAgrees(w, u, t, touched);
    case Stop(u) =>
    case SetTime(u, time) =>
    case SetOneShot(u) =>
    case SetPeriodic(u) =>
  }

  lemma {:induction false} DoAllAgrees(w: Wheel, cs: seq<Command>, t: nat, wasPeriodic: bool, init: Tick, touched: bool)
    requires Shape(w) && t < |w.timeout| && Callable(cs, |w.timeout|)
    requires Progress(w, t, wasPeriodic, init, touched) && Agrees(w, t, touched)
    ensures Agrees(DoAll(w, cs), t, touched || TouchesAny(cs, t))
    decreases |cs|
  {
    hide Progress, Agrees, Do;
    if cs == [] {
    } else {
      TouchesStep(cs, t);
      DoProgress(w, cs[0], t, wasPeriodic, init, touched);
      DoAgrees(w, cs[0], t, wasPeriodic, init, touched);
      DoAllAgrees(Do(w, cs[0]), cs[1..], t, wasPeriodic, init, touched || Touches(cs[0], t));
    }
  }

  /**
   After a timer has fired, its started mark says whether it is linked, in all cases but one: if its function left
   it started but turned it from a periodic timer into a one-shot, it stays marked but is linked nowhere.
   */
  lemma MarkAfterFiring(w: Wheel, t: nat, cs: seq<Command>, base: Tick)
    requires Ready(w, base) && Bottom(w) != [] && t == Bottom(w)[0] && t < |w.timeout| && Callable(cs, |w.timeout|)
    ensures var d, r := DoAll(Fire(w, t), cs), Expire(w, t, cs);
      (r.active[t] <==> t in Bottom(r)) <==> TouchesAny(cs, t) || (w.periodic[t] ==> d.periodic[t])
  {
    hide DoAll, Rearm, Due;
    RearmRule(w, t, cs, base);
    if TouchesAny(cs, t) {
      FireProgress(w, t, base);
      FireKeeps(w, t, base);
      assert Sorted(Bottom(Fire(w, t)), Fire(w, t).timeout, base);
      DoAllAgrees(Fire(w, t), cs, t, w.periodic[t], w.init[t], false);
    }
  }

  /** Why periods must be positive: a lone periodic timer of period zero is due again as soon as it has run, for ever. */
  lemma ZeroPeriodNeverEnds(w: Wheel, t: nat, base: Tick)
    requires Inv(w, base) && Paced(w, base) && Key(base, w.tick) < HALF && t < |w.timeout|
    requires Bottom(w) == [t] && Due(w, t) && w.periodic[t] && w.init[t] == 0
    ensures var r := Expire(w, t, []);
      && |r.timeout| == |w.timeout| && Inv(r, base) && Paced(r, base) && Key(base, r.tick) < HALF
      && Bottom(r) == [t] && Due(r, t) && r.periodic[t] && r.init[t] == 0
  {
    assert Marked(Bottom(w), w.active);
    FireKeeps(w, t, base);
    RestartAlone(Fire(w, t), t, base);
  }

  lemma RestartAlone(f: Wheel, t: nat, base: Tick)
    requires Inv(f, base) && Paced(f, base) && t < |f.timeout| && f.firing == Some(t)
    requires Bottom(f) == [] && f.periodic[t] && f.active[t] && f.init[t] == 0
    ensures var r := Rearm(f, t);
      && |r.timeout| == |f.timeout| && Inv(r, base) && r.tick == f.tick && r.init == f.init
      && Bottom(r) == [t] && r.timeout[t] == f.tick && r.periodic[t]
  {
    RestartFields(f, t);
    RestartKeeps(f, t, base);
  }

  lemma RestartFields(f: Wheel, t: nat)
    requires Shape(f) && t < |f.timeout| && f.firing == Some(t)
    requires Bottom(f) == [] && f.periodic[t] && f.active[t] && f.init[t] == 0
    ensures var r := Rearm(f, t);
      && r == StartTimer(f.(firing := None), t)
      && |r.timeout| == |f.timeout| && r.tick == f.tick && r.init == f.init
      && Bottom(r) == [t] && r.timeout[t] == f.tick && r.periodic[t]
  {
    hide Height, Link, Later;
    StartBottom(f.(firing := None), t);
  }

  lemma RestartKeeps(f: Wheel, t: nat, base: Tick)
    requires Inv(f, base) && Paced(f, base) && t < |f.timeout|
    ensures Inv(StartTimer(f.(firing := None), t), base)
  {
    SameRows(f, f.(firing := None), base);
    StartKeeps(f.(firing := None), t, base);
  }
}
