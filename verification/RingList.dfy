/** Doubly linked rings of headers, each closed by a sentinel, as two maps from an address to its neighbours. */
module RingList {
  import opened Common

  type Links = map<int, int>

  /** The node at a position; before the first and after the last comes the sentinel. */
  function At(h: int, xs: seq<int>, i: int): int {
    if 0 <= i < |xs| then xs[i] else h
  }

  ghost predicate Joined(next: Links, prev: Links, x: int, y: int) {
    x in next && next[x] == y && y in prev && prev[y] == x
  }

  /** Following `next` from the sentinel visits exactly `xs`, once each, and `prev` leads the same way back. */
  ghost predicate Ring(next: Links, prev: Links, h: int, xs: seq<int>) {
    && NoDup(xs) && h !in xs
    && forall i | -1 <= i < |xs| :: Joined(next, prev, At(h, xs, i), At(h, xs, i + 1))
  }

  lemma RingNeighbours(next: Links, prev: Links, h: int, xs: seq<int>, i: nat)
    requires Ring(next, prev, h, xs) && i < |xs|
    ensures xs[i] in next && next[xs[i]] == At(h, xs, i + 1)
    ensures xs[i] in prev && prev[xs[i]] == At(h, xs, i - 1)
    ensures At(h, xs, i + 1) in prev && At(h, xs, i - 1) in next
    ensures h in next && next[h] == At(h, xs, 0) && h in prev && next[h] in prev
  {
    assert Joined(next, prev, At(h, xs, i), At(h, xs, i + 1));
    assert Joined(next, prev, At(h, xs, i - 1), At(h, xs, i));
    assert Joined(next, prev, At(h, xs, -1), At(h, xs, 0));
    assert Joined(next, prev, At(h, xs, |xs| - 1), At(h, xs, |xs|));
  }

  lemma RingStart(next: Links, prev: Links, h: int, xs: seq<int>)
    requires Ring(next, prev, h, xs)
    ensures h in next && next[h] == At(h, xs, 0) && h in prev && next[h] in prev
  {
    assert Joined(next, prev, At(h, xs, -1), At(h, xs, 0));
    assert Joined(next, prev, At(h, xs, |xs| - 1), At(h, xs, |xs|));
  }

  function Without(xs: seq<int>, k: nat): seq<int>
    requires k < |xs|
  {
    xs[..k] + xs[k + 1..]
  }

  function With(xs: seq<int>, k: nat, x: int): seq<int>
    requires k <= |xs|
  {
    xs[..k] + [x] + xs[k..]
  }

  lemma WithoutNoDup(xs: seq<int>, k: nat)
    requires NoDup(xs) && k < |xs|
    ensures NoDup(Without(xs, k)) && forall x :: x in Without(xs, k) <==> x in xs && x != xs[k]
  {
    var r := Without(xs, k);
    forall i | 0 <= i < |r| ensures r[i] == xs[if i < k then i else i + 1] {
    }
    forall x | x in xs && x != xs[k] ensures x in r {
      var i :| 0 <= i < |xs| && xs[i] == x;
      assert r[if i < k then i else i - 1] == x;
    }
  }

  /** Linking the neighbours of node `k` past it takes it out of the ring. */
  lemma UnlinkKeeps(next: Links, prev: Links, h: int, xs: seq<int>, k: nat)
    requires Ring(next, prev, h, xs) && k < |xs|
    requires xs[k] in next && xs[k] in prev
    ensures var x := xs[k];
      Ring(next[prev[x] := next[x]], prev[next[x] := prev[x]], h, Without(xs, k))
  {
    RingNeighbours(next, prev, h, xs, k);
    var x := xs[k];
    var n, p := next[prev[x] := next[x]], prev[next[x] := prev[x]];
    var r := Without(xs, k);
    WithoutNoDup(xs, k);
    forall i | -1 <= i < |r| ensures Joined(n, p, At(h, r, i), At(h, r, i + 1)) {
      UnlinkJoined(next, prev, h, xs, k, i);
    }
  }

  lemma UnlinkJoined(next: Links, prev: Links, h: int, xs: seq<int>, k: nat, i: int)
    requires Ring(next, prev, h, xs) && k < |xs| && -1 <= i < |xs| - 1
    requires next.Keys >= {xs[k]} && prev.Keys >= {xs[k]}
    ensures var x := xs[k]; var r := Without(xs, k);
      Joined(next[prev[x] := next[x]], prev[next[x] := prev[x]], At(h, r, i), At(h, r, i + 1))
  {
    RingNeighbours(next, prev, h, xs, k);
    var r := Without(xs, k);
    if i < k - 1 {
      assert Joined(next, prev, At(h, xs, i), At(h, xs, i + 1));
      assert At(h, r, i) == At(h, xs, i) && At(h, r, i + 1) == At(h, xs, i + 1);
      assert At(h, xs, i) != At(h, xs, k - 1) && At(h, xs, i + 1) != At(h, xs, k + 1);
    } else if i == k - 1 {
      assert At(h, r, i) == At(h, xs, k - 1) && At(h, r, i + 1) == At(h, xs, k + 1);
    } else {
      assert Joined(next, prev, At(h, xs, i + 1), At(h, xs, i + 2));
      assert At(h, r, i) == At(h, xs, i + 1) && At(h, r, i + 1) == At(h, xs, i + 2);
      assert At(h, xs, i + 1) != At(h, xs, k - 1) && At(h, xs, i + 2) != At(h, xs, k + 1);
    }
  }

  lemma WithNoDup(xs: seq<int>, k: nat, x: int)
    requires NoDup(xs) && k <= |xs| && x !in xs
    ensures NoDup(With(xs, k, x)) && forall y :: y in With(xs, k, x) <==> y in xs || y == x
  {
    var r := With(xs, k, x);
    forall i | 0 <= i < |r| ensures r[i] == if i < k then xs[i] else if i == k then x else xs[i - 1] {
    }
    forall y | y in xs ensures y in r {
      var i :| 0 <= i < |xs| && xs[i] == y;
      assert r[if i < k then i else i + 1] == y;
    }
  }

  /** Linking a new node in at position `k`. */
  lemma InsertKeeps(next: Links, prev: Links, h: int, xs: seq<int>, k: nat, x: int)
    requires Ring(next, prev, h, xs) && k <= |xs| && x !in xs && x != h
    ensures var y, z := At(h, xs, k - 1), At(h, xs, k);
      Ring(next[x := z][y := x], prev[x := y][z := x], h, With(xs, k, x))
  {
    var y, z := At(h, xs, k - 1), At(h, xs, k);
    var n, p := next[x := z][y := x], prev[x := y][z := x];
    var r := With(xs, k, x);
    WithNoDup(xs, k, x);
    forall i | -1 <= i < |r| ensures Joined(n, p, At(h, r, i), At(h, r, i + 1)) {
      InsertJoined(next, prev, h, xs, k, x, i);
    }
  }

  lemma InsertJoined(next: Links, prev: Links, h: int, xs: seq<int>, k: nat, x: int, i: int)
    requires Ring(next, prev, h, xs) && k <= |xs| && x !in xs && x != h && -1 <= i <= |xs|
    ensures var y, z := At(h, xs, k - 1), At(h, xs, k); var r := With(xs, k, x);
      Joined(next[x := z][y := x], prev[x := y][z := x], At(h, r, i), At(h, r, i + 1))
  {
    var r := With(xs, k, x);
    if i < k - 1 {
      assert Joined(next, prev, At(h, xs, i), At(h, xs, i + 1));
      assert At(h, r, i) == At(h, xs, i) && At(h, r, i + 1) == At(h, xs, i + 1);
      assert At(h, xs, i) != At(h, xs, k - 1) && At(h, xs, i + 1) != At(h, xs, k);
    } else if i == k - 1 {
      assert At(h, r, i) == At(h, xs, k - 1) && At(h, r, i + 1) == x;
    } else if i == k {
      assert At(h, r, i) == x && At(h, r, i + 1) == At(h, xs, k);
    } else {
      assert Joined(next, prev, At(h, xs, i - 1), At(h, xs, i));
      assert At(h, r, i) == At(h, xs, i - 1) && At(h, r, i + 1) == At(h, xs, i);
      assert At(h, xs, i - 1) != At(h, xs, k - 1) && At(h, xs, i) != At(h, xs, k);
    }
  }
}
