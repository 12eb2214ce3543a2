/** Small facts about sequences that several kernel modules share. */
module Common {

  datatype Option<+T> = None | Some(value: T)

  function Min(a: int, b: int): int {
    if a < b then a else b
  }

  function Max(a: int, b: int): int {
    if a < b then b else a
  }

  function Sum(xs: seq<nat>): nat {
    if xs == [] then 0 else xs[0] + Sum(xs[1..])
  }

  lemma {:induction false} SumUpdate(xs: seq<nat>, i: nat, v: nat)
    requires i < |xs|
    ensures Sum(xs[i := v]) + xs[i] == Sum(xs) + v
  {
    if i == 0 {
      assert xs[i := v][1..] == xs[1..];
    } else {
      assert xs[i := v][1..] == xs[1..][i - 1 := v];
      SumUpdate(xs[1..], i - 1, v);
    }
  }

  lemma {:induction false} SumBound(xs: seq<nat>, b: nat)
    requires forall i | 0 <= i < |xs| :: xs[i] <= b
    ensures Sum(xs) <= b * |xs|
  {
    if xs == [] {
    } else {
      SumBound(xs[1..], b);
    }
  }

  ghost predicate NoDup<T>(xs: seq<T>) {
    forall i, j | 0 <= i < j < |xs| :: xs[i] != xs[j]
  }

  /** What unlinking the node of `x` from a list leaves behind. */
  function Remove<T(==)>(xs: seq<T>, x: T): (r: seq<T>)
    ensures x !in xs ==> r == xs
    ensures forall y | y in r :: y in xs
  {
    if xs == [] then []
    else if xs[0] == x then xs[1..]
    else [xs[0]] + Remove(xs[1..], x)
  }

  lemma {:induction false} RemoveNoDup<T>(xs: seq<T>, x: T)
    requires NoDup(xs)
    ensures NoDup(Remove(xs, x))
    ensures forall y :: y in Remove(xs, x) <==> y in xs && y != x
    ensures x in xs ==> |Remove(xs, x)| == |xs| - 1
  {
    if xs == [] {
    } else if xs[0] == x {
      assert forall y | y in xs :: y == xs[0] || y in xs[1..];
    } else {
      RemoveNoDup(xs[1..], x);
      assert forall y | y in xs :: y == xs[0] || y in xs[1..];
      var r := Remove(xs[1..], x);
      forall j | 0 <= j < |r| ensures r[j] != xs[0] {
        assert r[j] in xs[1..];
      }
    }
  }

  /** A repetition-free sequence of numbers below `n` has at most `n` of them. */
  lemma {:induction false} Pigeonhole(xs: seq<nat>, n: nat)
    requires NoDup(xs)
    requires forall i | 0 <= i < |xs| :: xs[i] < n
    ensures |xs| <= n
    decreases n
  {
    if xs == [] {
    } else {
      assert xs[0] < n;
      var ys := Remove<nat>(xs, n - 1);
      RemoveNoDup<nat>(xs, n - 1);
      forall i | 0 <= i < |ys| ensures ys[i] < n - 1 {
        assert ys[i] in ys;
      }
      Pigeonhole(ys, n - 1);
    }
  }
}
