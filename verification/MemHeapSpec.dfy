/**
 The memory heap with a separate free list: the chain of blocks (see HeapChain; headers are larger here),
 the free list, and the count of available bytes. Offsets are bytes from the start of the pool, and the
 tail header, which is always used, sits at the end of the chain.
 */
module MemHeapSpec {
  import opened Common
  import opened HeapChain

  const HEAD: nat := 24      // RT_MEMHEAP_SIZE on a 32-bit core
  const MIN_ALLOC: nat := 16 // RT_MEMHEAP_MINIALLOC

  datatype Heap = Heap(blocks: seq<Blk>, free: seq<nat>, available: int)

  /** `MEMITEM_SIZE` */
  function Space(b: Blk): int {
    b.end - b.start - HEAD
  }

  /** Where the free blocks start. */
  function FreeStarts(bs: seq<Blk>): multiset<nat> {
    if bs == [] then multiset{} else (if bs[0].used then multiset{} else multiset{bs[0].start}) + FreeStarts(bs[1..])
  }

  function FreeBytes(bs: seq<Blk>): int {
    if bs == [] then 0 else (if bs[0].used then 0 else Space(bs[0])) + FreeBytes(bs[1..])
  }

  function UsedBytes(bs: seq<Blk>): int {
    if bs == [] then 0 else (if bs[0].used then Space(bs[0]) else 0) + UsedBytes(bs[1..])
  }

  ghost predicate Whole(bs: seq<Blk>) {
    forall i | 0 <= i < |bs| :: bs[i].start + HEAD <= bs[i].end
  }

  ghost predicate Chained(bs: seq<Blk>, end: nat) {
    Tiles(bs, end) && Whole(bs) && Coalesced(bs)
  }

  /** The free list holds the free blocks of the chain, once each, and `available` is what they can hold. */
  ghost predicate Sound(h: Heap, end: nat) {
    && Chained(h.blocks, end)
    && multiset(h.free) == FreeStarts(h.blocks)
    && h.available == FreeBytes(h.blocks)
  }

  // ----- the operations on this view -----

  predicate Splits(b: Blk, size: nat) {
    Space(b) >= size + HEAD + MIN_ALLOC
  }

  /** Block `b` is large enough for `size` bytes, and what it has beyond them could not stand alone. */
  predicate Suits(b: Blk, size: nat) {
    size <= Space(b) < size + HEAD + MIN_ALLOC
  }

  /** The part of `rt_memheap_alloc` after free block `i` has been chosen. */
  function Take(h: Heap, i: nat, size: nat): Heap
    requires i < |h.blocks|
  {
    var b := h.blocks[i];
    var rest := Remove(h.free, b.start);
    if Splits(b, size) then
      var at := b.start + HEAD + size;
      Heap(Split(h.blocks, i, at, true), [at] + rest, h.available - size - HEAD)
    else Heap(h.blocks[i := b.(used := true)], rest, h.available - Space(b))
  }

  predicate FreeAfter(bs: seq<Blk>, i: nat) {
    i + 1 < |bs| && !bs[i + 1].used
  }

  predicate FreeBefore(bs: seq<Blk>, i: nat) {
    0 < i <= |bs| && !bs[i - 1].used
  }

  /** `rt_memheap_free`: a block merged into its predecessor has its place in the free list already. */
  function Release(h: Heap, i: nat): Heap
    requires i < |h.blocks|
  {
    var bs := h.blocks;
    var rest := if FreeAfter(bs, i) then Remove(h.free, bs[i + 1].start) else h.free;
    Heap(Free(bs, i),
      if FreeBefore(bs, i) then rest else [bs[i].start] + rest,
      h.available + Space(bs[i]) + (if FreeBefore(bs, i) then HEAD else 0) + (if FreeAfter(bs, i) then HEAD else 0))
  }

  /** The blocks from used block `i` up to the next one in use, with the boundary between used and free at `at`. */
  function Bounded(bs: seq<Blk>, i: nat, at: nat): seq<Blk>
    requires i < |bs|
  {
    var n := if FreeAfter(bs, i) then 2 else 1;
    bs[..i] + [Blk(bs[i].start, at, true), Blk(at, bs[i + n - 1].end, false)] + bs[i + n..]
  }

  /** Used block `i` grown into its free successor, or cut down: either way the free part behind it is a new block. */
  function Reshape(h: Heap, i: nat, newsize: nat): Heap
    requires i < |h.blocks|
  {
    var bs := h.blocks;
    var at := bs[i].start + HEAD + newsize;
    Heap(Bounded(bs, i, at),
      [at] + (if FreeAfter(bs, i) then Remove(h.free, bs[i + 1].start) else h.free),
      h.available + Space(bs[i]) - newsize - (if FreeAfter(bs, i) then 0 else HEAD))
  }

  // ----- measures of a chain are sums over its parts -----

  lemma {:induction false} Concat(a: seq<Blk>, b: seq<Blk>)
    ensures FreeStarts(a + b) == FreeStarts(a) + FreeStarts(b)
    ensures FreeBytes(a + b) == FreeBytes(a) + FreeBytes(b)
    ensures UsedBytes(a + b) == UsedBytes(a) + UsedBytes(b)
  {
    if a == [] {
      assert a + b == b;
    } else {
      assert (a + b)[1..] == a[1..] + b;
      Concat(a[1..], b);
    }
  }

  lemma One(b: Blk)
    ensures FreeStarts([b]) == if b.used then multiset{} else multiset{b.start}
    ensures FreeBytes([b]) == if b.used then 0 else Space(b)
    ensures UsedBytes([b]) == if b.used then Space(b) else 0
  {
    assert [b][1..] == [];
  }

  lemma Two(b: Blk, c: Blk)
    ensures FreeStarts([b, c]) == FreeStarts([b]) + FreeStarts([c])
    ensures FreeBytes([b, c]) == FreeBytes([b]) + FreeBytes([c])
    ensures UsedBytes([b, c]) == UsedBytes([b]) + UsedBytes([c])
  {
    Concat([b], [c]);
    assert [b] + [c] == [b, c];
  }

  lemma Three(a: seq<Blk>, mid: seq<Blk>, b: seq<Blk>)
    ensures FreeStarts(a + mid + b) == FreeStarts(a) + FreeStarts(mid) + FreeStarts(b)
    ensures FreeBytes(a + mid + b) == FreeBytes(a) + FreeBytes(mid) + FreeBytes(b)
    ensures UsedBytes(a + mid + b) == UsedBytes(a) + UsedBytes(mid) + UsedBytes(b)
  {
    Concat(a + mid, b);
    Concat(a, mid);
  }

  /** Putting `mid` in the place of the `n` blocks from number `i` on. */
  function Replace(bs: seq<Blk>, i: nat, n: nat, mid: seq<Blk>): seq<Blk>
    requires i + n <= |bs|
  {
    bs[..i] + mid + bs[i + n..]
  }

  lemma Replaced(bs: seq<Blk>, i: nat, n: nat, mid: seq<Blk>)
    requires i + n <= |bs|
    ensures var r := Replace(bs, i, n, mid); var was := bs[i..i + n];
      && FreeStarts(r) + FreeStarts(was) == FreeStarts(bs) + FreeStarts(mid)
      && FreeBytes(r) == FreeBytes(bs) - FreeBytes(was) + FreeBytes(mid)
      && UsedBytes(r) == UsedBytes(bs) - UsedBytes(was) + UsedBytes(mid)
  {
    assert bs == bs[..i] + bs[i..i + n] + bs[i + n..];
    Three(bs[..i], mid, bs[i + n..]);
    Three(bs[..i], bs[i..i + n], bs[i + n..]);
  }

  // ----- the free list -----

  lemma {:induction false} RemoveCount(xs: seq<nat>, x: nat)
    requires x in xs
    ensures multiset(Remove(xs, x)) + multiset{x} == multiset(xs)
  {
    assert xs == [xs[0]] + xs[1..];
    if xs[0] != x {
      RemoveCount(xs[1..], x);
    }
  }

  lemma {:induction false} FreeIsListed(bs: seq<Blk>, x: nat)
    ensures x in FreeStarts(bs) <==> exists i | 0 <= i < |bs| :: !bs[i].used && bs[i].start == x
  {
    if bs != [] {
      FreeIsListed(bs[1..], x);
      assert bs == [bs[0]] + bs[1..];
      if x in FreeStarts(bs[1..]) {
        var i :| 0 <= i < |bs[1..]| && !bs[1..][i].used && bs[1..][i].start == x;
        assert !bs[i + 1].used && bs[i + 1].start == x;
      }
      forall i | 0 <= i < |bs| && !bs[i].used && bs[i].start == x ensures x in FreeStarts(bs) {
        if i > 0 {
          assert bs[1..][i - 1] == bs[i];
        }
      }
    }
  }

  lemma ListedFree(h: Heap, i: nat)
    requires multiset(h.free) == FreeStarts(h.blocks) && i < |h.blocks| && !h.blocks[i].used
    ensures h.blocks[i].start in h.free
  {
    FreeIsListed(h.blocks, h.blocks[i].start);
    assert h.blocks[i].start in multiset(h.free);
  }

  /** A free list entry is a free block of the chain. */
  lemma FreeOf(h: Heap, x: nat) returns (i: nat)
    requires multiset(h.free) == FreeStarts(h.blocks) && x in h.free
    ensures i < |h.blocks| && !h.blocks[i].used && h.blocks[i].start == x
  {
    assert x in multiset(h.free);
    FreeIsListed(h.blocks, x);
    i :| 0 <= i < |h.blocks| && !h.blocks[i].used && h.blocks[i].start == x;
  }

  lemma {:induction false} StartsOnce(bs: seq<Blk>)
    requires forall i, j | 0 <= i < j < |bs| :: bs[i].start != bs[j].start
    ensures forall x :: FreeStarts(bs)[x] <= 1
  {
    if bs != [] {
      StartsOnce(bs[1..]);
      FreeIsListed(bs[1..], bs[0].start);
    }
  }

  lemma {:induction false} CountNoDup(xs: seq<nat>)
    requires forall x :: multiset(xs)[x] <= 1
    ensures NoDup(xs)
  {
    if xs != [] {
      assert xs == [xs[0]] + xs[1..];
      forall x ensures multiset(xs[1..])[x] <= 1 {
        assert multiset(xs)[x] == multiset([xs[0]])[x] + multiset(xs[1..])[x];
      }
      CountNoDup(xs[1..]);
      assert multiset(xs)[xs[0]] == 1 + multiset(xs[1..])[xs[0]];
      assert xs[0] !in xs[1..];
    }
  }

  /** Nobody is in the free list twice. */
  lemma FreeNoDup(h: Heap, end: nat)
    requires Sound(h, end)
    ensures NoDup(h.free)
  {
    Order(h.blocks, end);
    StartsOnce(h.blocks);
    CountNoDup(h.free);
  }

  // ----- what the operations keep -----

  lemma SplitWhole(bs: seq<Blk>, end: nat, i: nat, at: nat)
    requires Tiles(bs, end) && Whole(bs) && i < |bs| && bs[i].start + HEAD <= at && at + HEAD <= bs[i].end
    ensures Tiles(Split(bs, i, at, true), end) && Whole(Split(bs, i, at, true))
  {
    SplitTiles(bs, end, i, at, true);
  }

  /** Splitting a free block leaves the neighbours of the free rest used. */
  lemma TakeCoalesced(bs: seq<Blk>, i: nat, at: nat)
    requires Coalesced(bs) && i < |bs| && !bs[i].used
    ensures Coalesced(Split(bs, i, at, true)) && Coalesced(bs[i := bs[i].(used := true)])
  {
    var r := Split(bs, i, at, true);
    SplitCoalesced(bs, i, at);
    assert i + 1 < |bs| ==> Separated(bs, i);
    forall j | 0 <= j < |r| - 1 ensures Separated(r, j) {
    }
    var m := bs[i := bs[i].(used := true)];
    forall j | 0 <= j < |m| - 1 ensures Separated(m, j) {
      assert Separated(bs, j);
    }
  }

  lemma MarkWhole(bs: seq<Blk>, end: nat, i: nat, used: bool)
    requires Tiles(bs, end) && Whole(bs) && i < |bs|
    ensures Tiles(bs[i := bs[i].(used := used)], end) && Whole(bs[i := bs[i].(used := used)])
  {
    MarkKeeps(bs, end, i, used);
  }

  lemma Cancel(a: multiset<nat>, b: multiset<nat>, x: multiset<nat>)
    requires a + x == b + x
    ensures a == b
  {
    forall e ensures a[e] == b[e] {
      assert (a + x)[e] == a[e] + x[e] && (b + x)[e] == b[e] + x[e];
    }
  }

  lemma PushCount(xs: seq<nat>, x: nat)
    ensures multiset([x] + xs) == multiset(xs) + multiset{x}
  {
  }

  lemma TakeStarts(h: Heap, i: nat, size: nat)
    requires multiset(h.free) == FreeStarts(h.blocks) && i < |h.blocks| && !h.blocks[i].used
    ensures var r := Take(h, i, size); multiset(r.free) == FreeStarts(r.blocks)
  {
    hide FreeStarts, FreeBytes, UsedBytes, Remove;
    var b := h.blocks[i];
    var rest := Remove(h.free, b.start);
    ListedFree(h, i);
    RemoveCount(h.free, b.start);
    TakeMeasures(h.blocks, i, size);
    var x := multiset{b.start};
    if Splits(b, size) {
      var at := b.start + HEAD + size;
      PushCount(rest, at);
      var now := FreeStarts(Split(h.blocks, i, at, true));
      assert now + x == multiset(rest) + x + multiset{at};
      assert multiset(rest) + x + multiset{at} == multiset(rest) + multiset{at} + x;
      Cancel(multiset([at] + rest), now, x);
    } else {
      Cancel(multiset(rest), FreeStarts(h.blocks[i := b.(used := true)]), x);
    }
  }

  lemma TakeMeasures(bs: seq<Blk>, i: nat, size: nat)
    requires i < |bs| && !bs[i].used
    ensures var b := bs[i]; var at := b.start + HEAD + size; Splits(b, size) ==>
      && FreeStarts(Split(bs, i, at, true)) + multiset{b.start} == FreeStarts(bs) + multiset{at}
      && FreeBytes(Split(bs, i, at, true)) == FreeBytes(bs) - size - HEAD
    ensures var b := bs[i]; var u := bs[i := b.(used := true)];
      && FreeStarts(u) + multiset{b.start} == FreeStarts(bs)
      && FreeBytes(u) == FreeBytes(bs) - Space(b)
  {
    hide FreeStarts, FreeBytes, UsedBytes;
    var b := bs[i];
    assert bs[i..i + 1] == [b];
    One(b);
    if Splits(b, size) {
      var at := b.start + HEAD + size;
      var p, q := Blk(b.start, at, true), Blk(at, b.end, false);
      Replaced(bs, i, 1, [p, q]);
      Two(p, q);
      One(p);
      One(q);
      assert Replace(bs, i, 1, [p, q]) == Split(bs, i, at, true);
    }
    var u := b.(used := true);
    Replaced(bs, i, 1, [u]);
    One(u);
    assert Replace(bs, i, 1, [u]) == bs[i := u];
  }

  lemma TakeKeeps(h: Heap, end: nat, i: nat, size: nat)
    requires Sound(h, end) && i < |h.blocks| && !h.blocks[i].used && size <= Space(h.blocks[i])
    ensures Sound(Take(h, i, size), end)
  {
    hide FreeStarts, FreeBytes, Remove;
    var b := h.blocks[i];
    TakeStarts(h, i, size);
    TakeMeasures(h.blocks, i, size);
    TakeCoalesced(h.blocks, i, b.start + HEAD + size);
    if Splits(b, size) {
      SplitWhole(h.blocks, end, i, b.start + HEAD + size);
    } else {
      MarkWhole(h.blocks, end, i, true);
    }
  }

  lemma JoinWhole(bs: seq<Blk>, end: nat, i: nat)
    requires Tiles(bs, end) && Whole(bs) && i + 1 < |bs|
    ensures Tiles(Join(bs, i), end) && Whole(Join(bs, i))
  {
    JoinTiles(bs, end, i);
    assert Meets(bs, i);
  }

  lemma PlugWhole(bs: seq<Blk>, end: nat, i: nat)
    requires Tiles(bs, end) && Whole(bs) && i < |bs| && !bs[i].used && CoalescedBut(bs, i)
    ensures Chained(Plug(bs, i), end)
  {
    hide Tiles, Whole, Coalesced, CoalescedBut, Join;
    var n := JoinNext(bs, i);
    JoinNextCoalesced(bs, i);
    if FreeAfter(bs, i) {
      JoinWhole(bs, end, i);
    }
    JoinPrevCoalesced(n, i);
    if i > 0 && !n[i - 1].used {
      JoinWhole(n, end, i - 1);
    }
  }

  lemma FreedButOne(bs: seq<Blk>, i: nat)
    requires Coalesced(bs) && i < |bs|
    ensures CoalescedBut(bs[i := bs[i].(used := false)], i)
  {
    var f := bs[i := bs[i].(used := false)];
    forall j | 0 <= j < |f| - 1 && j != i && j + 1 != i ensures Separated(f, j) {
      assert Separated(bs, j);
    }
  }

  /** Freeing block `i` puts one free block in the place of it and its free neighbours. */
  lemma FreeAsReplace(bs: seq<Blk>, end: nat, i: nat)
    requires Tiles(bs, end) && i < |bs|
    ensures var lo := if FreeBefore(bs, i) then i - 1 else i; var hi := if FreeAfter(bs, i) then i + 2 else i + 1;
      && Free(bs, i) == Replace(bs, lo, hi - lo, [Blk(bs[lo].start, bs[hi - 1].end, false)])
  {
    var f := bs[i := bs[i].(used := false)];
    var n := JoinNext(f, i);
    var hi := if FreeAfter(bs, i) then i + 2 else i + 1;
    assert n == Replace(bs, i, hi - i, [Blk(bs[i].start, bs[hi - 1].end, false)]);
    if FreeBefore(bs, i) {
      assert n[i - 1] == bs[i - 1];
      assert n[..i - 1] == bs[..i - 1] && n[i + 1..] == bs[hi..];
    }
  }

  /** The blocks that freeing block `i` merges into one. */
  function Merged(bs: seq<Blk>, i: nat): seq<Blk>
    requires i < |bs|
  {
    (if FreeBefore(bs, i) then [bs[i - 1]] else []) + [bs[i]] + (if FreeAfter(bs, i) then [bs[i + 1]] else [])
  }

  lemma MergedMeasures(bs: seq<Blk>, i: nat)
    requires i < |bs| && bs[i].used
    ensures var x := if FreeBefore(bs, i) then multiset{bs[i - 1].start} else multiset{};
      var y := if FreeAfter(bs, i) then multiset{bs[i + 1].start} else multiset{};
      FreeStarts(Merged(bs, i)) == x + y
    ensures FreeBytes(Merged(bs, i)) ==
      (if FreeBefore(bs, i) then Space(bs[i - 1]) else 0) + (if FreeAfter(bs, i) then Space(bs[i + 1]) else 0)
  {
    hide FreeStarts, FreeBytes, UsedBytes;
    var a := if FreeBefore(bs, i) then [bs[i - 1]] else [];
    var c := if FreeAfter(bs, i) then [bs[i + 1]] else [];
    Three(a, [bs[i]], c);
    One(bs[i]);
    NoneAtAll();
    if FreeBefore(bs, i) {
      One(bs[i - 1]);
    }
    if FreeAfter(bs, i) {
      One(bs[i + 1]);
    }
  }

  lemma NoneAtAll()
    ensures FreeStarts([]) == multiset{} && FreeBytes([]) == 0 && UsedBytes([]) == 0
  {
  }

  /** Freeing block `i` puts one free block in the place of it and its free neighbours. */
  lemma FreeReplaces(bs: seq<Blk>, end: nat, i: nat)
    requires Tiles(bs, end) && i < |bs| && bs[i].used
    ensures var lo := if FreeBefore(bs, i) then i - 1 else i;
      var whole := Blk(bs[lo].start, bs[if FreeAfter(bs, i) then i + 1 else i].end, false);
      && FreeStarts(Free(bs, i)) + FreeStarts(Merged(bs, i)) == FreeStarts(bs) + multiset{whole.start}
      && FreeBytes(Free(bs, i)) == FreeBytes(bs) - FreeBytes(Merged(bs, i)) + Space(whole)
  {
    hide FreeStarts, FreeBytes, UsedBytes, Free, Tiles;
    FreeAsReplace(bs, end, i);
    var lo := if FreeBefore(bs, i) then i - 1 else i;
    var hi := if FreeAfter(bs, i) then i + 2 else i + 1;
    var whole := Blk(bs[lo].start, bs[hi - 1].end, false);
    Replaced(bs, lo, hi - lo, [whole]);
    One(whole);
    assert bs[lo..hi] == Merged(bs, i);
  }

  /** What freeing does to the measures, by which neighbours are free. */
  lemma ReleaseMeasures(bs: seq<Blk>, end: nat, i: nat)
    requires Tiles(bs, end) && i < |bs| && bs[i].used
    ensures var gone := if FreeAfter(bs, i) then multiset{bs[i + 1].start} else multiset{};
      var come := if FreeBefore(bs, i) then multiset{} else multiset{bs[i].start};
      FreeStarts(Free(bs, i)) + gone == FreeStarts(bs) + come
    ensures FreeBytes(Free(bs, i)) == FreeBytes(bs) + Space(bs[i])
      + (if FreeBefore(bs, i) then HEAD else 0) + (if FreeAfter(bs, i) then HEAD else 0)
  {
    hide FreeStarts, FreeBytes, Free, Merged;
    FreeReplaces(bs, end, i);
    MergedMeasures(bs, i);
    var y := if FreeAfter(bs, i) then multiset{bs[i + 1].start} else multiset{};
    if FreeAfter(bs, i) {
      assert Meets(bs, i);
    }
    if FreeBefore(bs, i) {
      assert Meets(bs, i - 1);
      Regroup(FreeStarts(Free(bs, i)), FreeStarts(bs), multiset{bs[i - 1].start}, y);
    }
  }

  lemma Regroup(now: multiset<nat>, was: multiset<nat>, x: multiset<nat>, y: multiset<nat>)
    requires now + (x + y) == was + x
    ensures now + y == was
  {
    forall e ensures (now + y)[e] == was[e] {
      assert (now + (x + y))[e] == now[e] + x[e] + y[e] && (was + x)[e] == was[e] + x[e];
    }
  }

  lemma ReleaseStarts(h: Heap, end: nat, i: nat)
    requires Tiles(h.blocks, end) && i < |h.blocks| && h.blocks[i].used
    requires multiset(h.free) == FreeStarts(h.blocks)
    ensures var r := Release(h, i); multiset(r.free) == FreeStarts(r.blocks)
  {
    hide FreeStarts, FreeBytes, UsedBytes, Remove, Free;
    var bs := h.blocks;
    ReleaseMeasures(bs, end, i);
    var rest := if FreeAfter(bs, i) then Remove(h.free, bs[i + 1].start) else h.free;
    PushCount(rest, bs[i].start);
    if FreeAfter(bs, i) {
      ListedFree(h, i + 1);
      RemoveCount(h.free, bs[i + 1].start);
      var x := multiset{bs[i + 1].start};
      var r := Release(h, i);
      if !FreeBefore(bs, i) {
        var y := multiset{bs[i].start};
        assert multiset(rest) + x + y == multiset(rest) + y + x;
      }
      Cancel(multiset(r.free), FreeStarts(r.blocks), x);
    } else {
      assert FreeStarts(Free(bs, i)) + multiset{} == FreeStarts(Free(bs, i));
    }
  }

  lemma ReleaseKeeps(h: Heap, end: nat, i: nat)
    requires Sound(h, end) && i < |h.blocks| && h.blocks[i].used
    ensures Sound(Release(h, i), end)
  {
    hide FreeStarts, FreeBytes, Remove;
    ReleaseStarts(h, end, i);
    ReleaseMeasures(h.blocks, end, i);
    MarkWhole(h.blocks, end, i, false);
    FreedButOne(h.blocks, i);
    PlugWhole(h.blocks[i := h.blocks[i].(used := false)], end, i);
  }

  lemma BoundedAt(bs: seq<Blk>, i: nat, at: nat, j: nat)
    requires i < |bs| && j < |Bounded(bs, i, at)|
    ensures var r := Bounded(bs, i, at); var n := if FreeAfter(bs, i) then 2 else 1;
      && |r| == |bs| + 2 - n
      && (j < i ==> r[j] == bs[j])
      && (j == i ==> r[j] == Blk(bs[i].start, at, true))
      && (j == i + 1 ==> r[j] == Blk(at, bs[i + n - 1].end, false))
      && (j > i + 1 ==> r[j] == bs[j - 2 + n])
  {
  }

  lemma BoundedTiles(bs: seq<Blk>, end: nat, i: nat, at: nat)
    requires Tiles(bs, end) && Whole(bs) && i < |bs| && bs[i].start + HEAD <= at
    requires at + HEAD <= (if FreeAfter(bs, i) then bs[i + 1] else bs[i]).end
    ensures Tiles(Bounded(bs, i, at), end) && Whole(Bounded(bs, i, at))
  {
    hide Bounded;
    var r := Bounded(bs, i, at);
    var n := if FreeAfter(bs, i) then 2 else 1;
    BoundedLength(bs, i, at);
    forall j | 0 <= j < |r| ensures r[j].start + HEAD <= r[j].end {
      BoundedAt(bs, i, at, j);
    }
    forall j | 0 <= j < |r| - 1 ensures Meets(r, j) {
      BoundedAt(bs, i, at, j);
      BoundedAt(bs, i, at, j + 1);
      if j < i {
        assert Meets(bs, j);
      } else if j > i {
        assert Meets(bs, j - 2 + n);
      }
    }
    BoundedAt(bs, i, at, 0);
    BoundedAt(bs, i, at, |r| - 1);
  }

  lemma BoundedCoalesced(bs: seq<Blk>, i: nat, at: nat)
    requires Coalesced(bs) && i < |bs| && bs[i].used
    ensures Coalesced(Bounded(bs, i, at))
  {
    hide Bounded;
    var r := Bounded(bs, i, at);
    var n := if FreeAfter(bs, i) then 2 else 1;
    BoundedLength(bs, i, at);
    assert FreeAfter(bs, i) && i + 2 < |bs| ==> Separated(bs, i + 1);
    forall j | 0 <= j < |r| - 1 ensures Separated(r, j) {
      BoundedAt(bs, i, at, j);
      BoundedAt(bs, i, at, j + 1);
      if j < i {
        assert Separated(bs, j);
      } else if j > i + 1 {
        assert Separated(bs, j - 2 + n);
      }
    }
  }

  lemma BoundedLength(bs: seq<Blk>, i: nat, at: nat)
    requires i < |bs|
    ensures |Bounded(bs, i, at)| == |bs| + (if FreeAfter(bs, i) then 0 else 1)
  {
  }

  lemma BoundedMeasures(bs: seq<Blk>, end: nat, i: nat, at: nat)
    requires Tiles(bs, end) && i < |bs| && bs[i].used
    ensures var gone := if FreeAfter(bs, i) then multiset{bs[i + 1].start} else multiset{};
      FreeStarts(Bounded(bs, i, at)) + gone == FreeStarts(bs) + multiset{at}
    ensures FreeBytes(Bounded(bs, i, at)) ==
      FreeBytes(bs) + bs[i].end - at - (if FreeAfter(bs, i) then 0 else HEAD)
  {
    hide FreeStarts, FreeBytes, UsedBytes;
    var n := if FreeAfter(bs, i) then 2 else 1;
    var p, q := Blk(bs[i].start, at, true), Blk(at, bs[i + n - 1].end, false);
    Replaced(bs, i, n, [p, q]);
    UsedThenFree(p, q);
    assert Replace(bs, i, n, [p, q]) == Bounded(bs, i, at);
    if FreeAfter(bs, i) {
      assert bs[i..i + n] == [bs[i], bs[i + 1]];
      UsedThenFree(bs[i], bs[i + 1]);
      assert Meets(bs, i);
    } else {
      assert bs[i..i + n] == [bs[i]];
      One(bs[i]);
    }
  }

  lemma UsedThenFree(p: Blk, q: Blk)
    requires p.used && !q.used
    ensures FreeStarts([p, q]) == multiset{q.start} && FreeBytes([p, q]) == Space(q)
  {
    hide FreeStarts, FreeBytes, UsedBytes;
    Two(p, q);
    One(p);
    One(q);
  }

  lemma ReshapeStarts(h: Heap, end: nat, i: nat, newsize: nat)
    requires Tiles(h.blocks, end) && i < |h.blocks| && h.blocks[i].used
    requires multiset(h.free) == FreeStarts(h.blocks)
    ensures var r := Reshape(h, i, newsize); multiset(r.free) == FreeStarts(r.blocks)
  {
    hide FreeStarts, FreeBytes, UsedBytes, Remove, Bounded;
    var bs := h.blocks;
    var at: nat := bs[i].start + HEAD + newsize;
    BoundedMeasures(bs, end, i, at);
    var rest := if FreeAfter(bs, i) then Remove(h.free, bs[i + 1].start) else h.free;
    PushCount(rest, at);
    var now := FreeStarts(Bounded(bs, i, at));
    if FreeAfter(bs, i) {
      ListedFree(h, i + 1);
      RemoveCount(h.free, bs[i + 1].start);
      var x := multiset{bs[i + 1].start};
      assert multiset(rest) + x + multiset{at} == multiset(rest) + multiset{at} + x;
      Cancel(multiset([at] + rest), now, x);
    } else {
      assert now + multiset{} == now;
    }
  }

  lemma ReshapeKeeps(h: Heap, end: nat, i: nat, newsize: nat)
    requires Sound(h, end) && i < |h.blocks| && h.blocks[i].used
    requires var b := h.blocks[i]; b.start + HEAD + newsize + HEAD <= (if FreeAfter(h.blocks, i) then h.blocks[i + 1] else b).end
    ensures Sound(Reshape(h, i, newsize), end)
  {
    hide FreeStarts, FreeBytes, Remove, Bounded;
    ReshapeStarts(h, end, i, newsize);
    BoundedMeasures(h.blocks, end, i, h.blocks[i].start + HEAD + newsize);
    BoundedTiles(h.blocks, end, i, h.blocks[i].start + HEAD + newsize);
    BoundedCoalesced(h.blocks, i, h.blocks[i].start + HEAD + newsize);
  }

  // ----- searching -----

  predicate Holds(h: Heap, x: nat, size: nat) {
    exists i | 0 <= i < |h.blocks| :: !h.blocks[i].used && h.blocks[i].start == x && size <= Space(h.blocks[i])
  }

  /** Block `i` is the first of the free list that is large enough. */
  ghost predicate FirstInList(h: Heap, size: nat, i: nat) {
    && i < |h.blocks| && !h.blocks[i].used && size <= Space(h.blocks[i])
    && exists k | 0 <= k < |h.free| ::
         h.free[k] == h.blocks[i].start && forall j | 0 <= j < k :: !Holds(h, h.free[j], size)
  }

  ghost predicate NoneFits(h: Heap, size: nat) {
    forall i | 0 <= i < |h.blocks| && !h.blocks[i].used :: Space(h.blocks[i]) < size
  }

  lemma {:induction false} SpaceBounded(bs: seq<Blk>, i: nat)
    requires Whole(bs)
    ensures FreeBytes(bs) >= 0
    ensures i < |bs| && !bs[i].used ==> Space(bs[i]) <= FreeBytes(bs)
  {
    if bs != [] {
      assert forall j | 0 <= j < |bs[1..]| :: bs[1..][j] == bs[j + 1];
      SpaceBounded(bs[1..], if i > 0 then i - 1 else 0);
    }
  }

  /**
   The test against the total refuses a request that the last free block, and nothing else, would hold
   exactly: then every other free block is empty, or there is none.
   */
  lemma RefusedLastFit(h: Heap, end: nat, size: nat, i: nat)
    requires Sound(h, end) && i < |h.blocks| && !h.blocks[i].used && size <= Space(h.blocks[i])
    ensures size >= h.available <==> size == h.available
    ensures size >= h.available ==> size == Space(h.blocks[i])
    ensures size >= h.available ==>
      forall j | 0 <= j < |h.blocks| && !h.blocks[j].used && j != i :: Space(h.blocks[j]) == 0
  {
    SpaceBounded(h.blocks, i);
    if size >= h.available {
      forall j | 0 <= j < |h.blocks| && !h.blocks[j].used && j != i ensures Space(h.blocks[j]) == 0 {
        TwoSpaces(h.blocks, i, j);
      }
    }
  }

  lemma TwoSpaces(bs: seq<Blk>, i: nat, j: nat)
    requires Whole(bs) && i < |bs| && j < |bs| && i != j && !bs[i].used && !bs[j].used
    ensures Space(bs[i]) + Space(bs[j]) <= FreeBytes(bs)
  {
    hide FreeBytes, FreeStarts, UsedBytes;
    var a, b := if i < j then i else j, if i < j then j else i;
    assert bs == bs[..b] + bs[b..];
    Concat(bs[..b], bs[b..]);
    SpaceBounded(bs[..b], a);
    SpaceBounded(bs[b..], 0);
  }

  // ----- what operations undo, and what they add up to -----

  lemma FreeUndoesSplit(bs: seq<Blk>, i: nat, at: nat)
    requires Coalesced(bs) && i < |bs| && !bs[i].used
    ensures var c := Split(bs, i, at, true);
      Free(c, i) == bs && FreeAfter(c, i) && !FreeBefore(c, i) && c[i + 1].start == at
  {
    var c := Split(bs, i, at, true);
    var f := c[i := c[i].(used := false)];
    assert 0 < i ==> Separated(bs, i - 1);
    assert c[i + 1] == Blk(at, bs[i].end, false);
    assert f[..i] == bs[..i] && f[i + 2..] == bs[i + 1..];
    assert JoinNext(f, i) == bs;
  }

  lemma FreeUndoesMark(bs: seq<Blk>, i: nat)
    requires Coalesced(bs) && i < |bs| && !bs[i].used
    ensures var c := bs[i := bs[i].(used := true)]; Free(c, i) == bs && !FreeAfter(c, i) && !FreeBefore(c, i)
  {
    assert 0 < i ==> Separated(bs, i - 1);
    assert i + 1 < |bs| ==> Separated(bs, i);
    var c := bs[i := bs[i].(used := true)];
    assert c[i := c[i].(used := false)] == bs;
  }

  /**
   Freeing what an allocation has just taken restores the chain and the count exactly; in the free list
   the block comes to the front.
   */
  lemma ReleaseUndoesTake(h: Heap, end: nat, i: nat, size: nat)
    requires Sound(h, end) && i < |h.blocks| && !h.blocks[i].used && size <= Space(h.blocks[i])
    ensures i < |Take(h, i, size).blocks|
    ensures Release(Take(h, i, size), i) == h.(free := [h.blocks[i].start] + Remove(h.free, h.blocks[i].start))
  {
    hide FreeStarts, FreeBytes, Free, FreeAfter, FreeBefore, Remove, Tiles, Whole, Coalesced;
    var b := h.blocks[i];
    var at: nat := b.start + HEAD + size;
    var rest := Remove(h.free, b.start);
    FreeUndoesSplit(h.blocks, i, at);
    FreeUndoesMark(h.blocks, i);
    RemoveHead(rest, at);
  }

  lemma RemoveHead(xs: seq<nat>, x: nat)
    ensures Remove([x] + xs, x) == xs
  {
    assert ([x] + xs)[1..] == xs;
  }

  lemma {:induction false} BytesAddUp(bs: seq<Blk>, end: nat, n: nat)
    requires Tiles(bs, end) && n <= |bs|
    ensures FreeBytes(bs[..n]) + UsedBytes(bs[..n]) + HEAD * n == if n == 0 then 0 else bs[n - 1].end
  {
    hide FreeBytes, FreeStarts, UsedBytes;
    if n == 0 {
      NoneAtAll();
    } else {
      BytesAddUp(bs, end, n - 1);
      assert bs[..n] == bs[..n - 1] + [bs[n - 1]];
      Concat(bs[..n - 1], [bs[n - 1]]);
      One(bs[n - 1]);
      if n > 1 {
        assert Meets(bs, n - 2);
      }
    }
  }

  /** Every byte of the pool is available, allocated, or part of a header. */
  lemma Conserved(h: Heap, end: nat)
    requires Sound(h, end)
    ensures h.available + UsedBytes(h.blocks) + HEAD * |h.blocks| == end
  {
    BytesAddUp(h.blocks, end, |h.blocks|);
    assert h.blocks[..|h.blocks|] == h.blocks;
  }

  /** With everything given back the pool is one free block, all of it available. */
  lemma AllReleased(h: Heap, end: nat)
    requires Sound(h, end) && forall i | 0 <= i < |h.blocks| :: !h.blocks[i].used
    ensures h == Heap([Blk(0, end, false)], [0], end - HEAD)
  {
    AllFreeIsOneBlock(h.blocks, end);
    One(Blk(0, end, false));
    assert multiset(h.free) == multiset{0};
    assert |h.free| == |multiset(h.free)| == 1;
    assert h.free[0] in multiset(h.free);
  }

  // ----- who stays where -----

  /** Taking a free block keeps every used one where it is. */
  lemma TakeMembers(h: Heap, i: nat, size: nat, b: Blk)
    requires i < |h.blocks| && !h.blocks[i].used && b in h.blocks && b.used
    ensures b in Take(h, i, size).blocks
  {
    hide Remove;
    var j :| 0 <= j < |h.blocks| && h.blocks[j] == b;
    var r := Take(h, i, size).blocks;
    assert r[if Splits(h.blocks[i], size) && j > i then j + 1 else j] == b;
  }

  lemma TakenBlock(h: Heap, end: nat, i: nat, size: nat)
    requires Sound(h, end) && i < |h.blocks| && !h.blocks[i].used && size <= Space(h.blocks[i])
    ensures var r := Take(h, i, size).blocks;
      && i < |r| && r[i].used && r[i].start == h.blocks[i].start && Suits(r[i], size) && r[i].end <= h.blocks[i].end
  {
    hide Remove;
  }

  lemma ReshapeMembers(h: Heap, i: nat, newsize: nat, b: Blk)
    requires i < |h.blocks| && h.blocks[i].used && b in h.blocks && b.used && b != h.blocks[i]
    ensures b in Reshape(h, i, newsize).blocks
  {
    hide Remove;
    var bs := h.blocks;
    var j :| 0 <= j < |bs| && bs[j] == b;
    var r := Reshape(h, i, newsize).blocks;
    assert r[if j < i || FreeAfter(bs, i) then j else j + 1] == b;
  }

  /** Where everybody is after taking free block `k`: used block `i` under some number, and apart from the new one. */
  lemma TakeApart(h: Heap, end: nat, i: nat, k: nat, size: nat) returns (i': nat)
    requires Sound(h, end) && i < |h.blocks| && h.blocks[i].used
    requires k < |h.blocks| && !h.blocks[k].used && size <= Space(h.blocks[k])
    ensures var mid := Take(h, k, size).blocks;
      && i' < |mid| && k < |mid| && mid[i'] == h.blocks[i] && mid[k] != h.blocks[i] && mid[k].used
      && forall b | b in h.blocks && b.used :: b in mid && b != mid[k] && Apart(mid[k], b) && b.end <= end
  {
    hide Remove, FreeStarts, FreeBytes;
    var mid := Take(h, k, size).blocks;
    TakeKeeps(h, end, k, size);
    TakenBlock(h, end, k, size);
    TakeMembers(h, k, size, h.blocks[i]);
    i' :| 0 <= i' < |mid| && mid[i'] == h.blocks[i];
    forall b | b in h.blocks && b.used ensures b in mid && b != mid[k] && Apart(mid[k], b) && b.end <= end {
      TakeMembers(h, k, size, b);
      MembersApart(h.blocks, end, b, h.blocks[k]);
      assert mid[k] in mid;
      MembersApart(mid, end, mid[k], b);
    }
  }
}
