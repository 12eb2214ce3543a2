/** Copying between the payloads of a heap, and what such a copy leaves alone. */
module Bytes {
  /** `n` bytes at `to` are now what the bytes at `from` were. */
  ghost predicate Carried(was: seq<bv8>, now: seq<bv8>, from: int, to: int, n: int) {
    0 <= n && 0 <= from <= from + n <= |was| && 0 <= to <= to + n <= |now| && now[to..to + n] == was[from..from + n]
  }

  lemma CarriedLess(was: seq<bv8>, now: seq<bv8>, from: int, to: int, n: int, m: int)
    requires Carried(was, now, from, to, n) && 0 <= m <= n
    ensures Carried(was, now, from, to, m)
  {
    assert now[to..to + m] == now[to..to + n][..m];
    assert was[from..from + m] == was[from..from + n][..m];
  }

  ghost predicate Outside(was: seq<bv8>, now: seq<bv8>, lo: int, hi: int) {
    |was| == |now| && forall x | 0 <= x < |was| && !(lo <= x < hi) :: now[x] == was[x]
  }

  /** `rt_memcpy` between two payloads that do not overlap. */
  method Copy(data: array<bv8>, to: nat, from: nat, n: nat)
    requires to + n <= data.Length && from + n <= data.Length
    requires to + n <= from || from + n <= to
    modifies data
    ensures Carried(old(data[..]), data[..], from, to, n)
    ensures Outside(old(data[..]), data[..], to, to + n)
  {
    ghost var was := data[..];
    var x := 0;
    while x < n
      invariant x <= n
      invariant data[to..to + x] == was[from..from + x]
      invariant Outside(was, data[..], to, to + x)
    {
      data[to + x] := data[from + x];
      assert data[to + x] == was[from + x];
      x := x + 1;
      assert was[from..from + x] == was[from..from + x - 1] + [was[from + x - 1]];
      assert data[to..to + x] == data[to..to + x - 1] + [data[to + x - 1]];
    }
    assert data[..][to..to + n] == data[to..to + n];
  }
}
