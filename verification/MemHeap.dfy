/**
 The memory heap with a free list: its two rings of headers relinked in place. The fields of all headers are
 maps from the header's offset; the chain of blocks and the order of the free list are ghost state.
 */
module MemHeap {
  import opened Common
  import opened HeapChain
  import opened RingList
  import opened Bytes
  import opened MemHeapSpec

  /** Stands for the address of the free list's own header, which is outside the pool. */
  const FREE_LIST: int := -1

  function Starts(bs: seq<Blk>): (r: seq<int>)
    ensures |r| == |bs| && forall i | 0 <= i < |bs| :: r[i] == bs[i].start
  {
    seq(|bs|, i requires 0 <= i < |bs| => bs[i].start)
  }

  /** The used bit in the magic word of every header of the chain, the tail's included. */
  ghost predicate Flagged(used: map<int, bool>, bs: seq<Blk>, tail: int) {
    && (forall i | 0 <= i < |bs| :: bs[i].start in used && used[bs[i].start] == bs[i].used)
    && tail in used && used[tail]
  }

  ghost predicate Intact(was: seq<bv8>, now: seq<bv8>, b: Blk) {
    |was| == |now| && b.start + HEAD <= b.end <= |was| && now[b.start + HEAD..b.end] == was[b.start + HEAD..b.end]
  }

  /** No block can be handed out for a request rounded to `size`. */
  ghost predicate Refused(h: Heap, size: nat) {
    NoneFits(h, size) || size >= h.available
  }

  /** Used block `i` can grow into the free block behind it. */
  predicate Extends(bs: seq<Blk>, i: nat, newsize: nat)
    requires i < |bs|
  {
    FreeAfter(bs, i) && Space(bs[i + 1]) + Space(bs[i]) > newsize + MIN_ALLOC
  }

  /** The block must grow and cannot do so where it is. */
  predicate MustMove(bs: seq<Blk>, i: nat, newsize: nat)
    requires i < |bs|
  {
    newsize > Space(bs[i]) && !Extends(bs, i, newsize)
  }

  /**
   What becomes of used block `i` that is given a new size: nothing if less than a block's worth would be cut
   off, exactly that size in the same place if it is cut or can grow, and otherwise a block as for a fresh request.
   */
  ghost predicate Resized(bs: seq<Blk>, i: nat, now: Blk, size: nat)
    requires i < |bs|
  {
    var was := bs[i];
    if size <= Space(was) <= size + HEAD + MIN_ALLOC then now == was
    else if MustMove(bs, i, size) then Suits(now, size)
    else now == Blk(was.start, was.start + HEAD + size, true)
  }

  /** What becomes of a block that does not have to move: nothing, when less than a block's worth would be cut off. */
  function ResizedInPlace(h: Heap, i: nat, newsize: nat): Heap
    requires i < |h.blocks|
  {
    if newsize <= Space(h.blocks[i]) <= newsize + HEAD + MIN_ALLOC then h else Reshape(h, i, newsize)
  }

  /** A fresh heap refuses a request for exactly what it has, although its one block would hold it. */
  lemma FreshRefusesAll(end: nat)
    requires end % ALIGN == 0 && HEAD + MIN_ALLOC <= end
    ensures var h := Heap([Blk(0, end, false)], [0], end - HEAD);
      && Sound(h, end) && Rounded(h.available) == h.available == Space(h.blocks[0])
      && !NoneFits(h, Rounded(h.available)) && Refused(h, Rounded(h.available))
  {
    One(Blk(0, end, false));
    var h := Heap([Blk(0, end, false)], [0], end - HEAD);
    assert multiset(h.free) == multiset{0};
    assert (end - HEAD) % ALIGN == 0;
    RoundedIsItself(end - HEAD);
    assert Space(h.blocks[0]) == end - HEAD;
  }

  lemma RoundedIsItself(size: nat)
    requires size % ALIGN == 0 && size >= MIN_ALLOC
    ensures Rounded(size) == size
  {
    assert Align(size) - size < ALIGN;
  }

  // ----- what a header and its links say about the chain -----

  lemma Neighbours(next: Links, prev: Links, used: map<int, bool>, bs: seq<Blk>, tail: nat, i: nat)
    requires Tiles(bs, tail) && Ring(next, prev, tail, Starts(bs)) && Flagged(used, bs, tail) && i < |bs|
    ensures var x := bs[i].start;
      && x in next && x in prev && x in used && used[x] == bs[i].used && x < tail
      && next[x] == bs[i].end && next[x] in used && used[next[x]] == !FreeAfter(bs, i) && next[x] in prev
      && prev[x] in used && used[prev[x]] == !FreeBefore(bs, i) && prev[x] in next
    ensures FreeAfter(bs, i) ==> next[bs[i].start] == bs[i + 1].start
    ensures FreeBefore(bs, i) ==> prev[bs[i].start] == bs[i - 1].start
  {
    RingNeighbours(next, prev, tail, Starts(bs), i);
    Order(bs, tail);
    if i + 1 < |bs| {
      assert Meets(bs, i);
    }
  }

  lemma StartsDistinct(bs: seq<Blk>, tail: nat)
    requires Tiles(bs, tail)
    ensures NoDup(Starts(bs)) && tail !in Starts(bs)
  {
    Order(bs, tail);
  }

  lemma StartsOfSplit(bs: seq<Blk>, i: nat, at: nat)
    requires i < |bs|
    ensures Starts(Split(bs, i, at, true)) == With(Starts(bs), i + 1, at)
  {
    var r := Split(bs, i, at, true);
    forall j | 0 <= j < |r| ensures Starts(r)[j] == With(Starts(bs), i + 1, at)[j] {
    }
  }

  lemma StartsOfMark(bs: seq<Blk>, i: nat, used: bool)
    requires i < |bs|
    ensures Starts(bs[i := bs[i].(used := used)]) == Starts(bs)
  {
  }

  lemma NewStart(bs: seq<Blk>, tail: nat, i: nat, at: nat)
    requires Tiles(bs, tail) && i < |bs| && bs[i].start < at < bs[i].end
    ensures at !in Starts(bs) && at != tail
  {
    Order(bs, tail);
  }

  lemma FlagsOfSplit(used: map<int, bool>, bs: seq<Blk>, tail: nat, i: nat, at: nat)
    requires Tiles(bs, tail) && Flagged(used, bs, tail) && i < |bs| && bs[i].start < at < bs[i].end
    ensures Flagged(used[at := false][bs[i].start := true], Split(bs, i, at, true), tail)
  {
    Order(bs, tail);
    var r := Split(bs, i, at, true);
    forall j | 0 <= j < |r|
      ensures j < i ==> r[j] == bs[j]
      ensures j > i + 1 ==> r[j] == bs[j - 1]
    {
    }
  }

  lemma FlagsOfMark(used: map<int, bool>, bs: seq<Blk>, tail: nat, i: nat, flag: bool)
    requires Tiles(bs, tail) && Flagged(used, bs, tail) && i < |bs|
    ensures Flagged(used[bs[i].start := flag], bs[i := bs[i].(used := flag)], tail)
  {
    Order(bs, tail);
  }

  lemma {:induction false} RemoveIsWithout(xs: seq<nat>, k: nat)
    requires NoDup(xs) && k < |xs|
    ensures Remove(xs, xs[k]) == Without(xs, k)
  {
    if k > 0 {
      assert NoDup(xs[1..]) && xs[1..][k - 1] == xs[k];
      RemoveIsWithout(xs[1..], k - 1);
      assert Without(xs, k) == [xs[0]] + Without(xs[1..], k - 1);
    } else {
      assert Without(xs, 0) == xs[1..];
    }
  }

  /** Which block a free list entry is, and that no other block starts there. */
  lemma HoldsAt(h: Heap, end: nat, i: nat, size: nat)
    requires Tiles(h.blocks, end) && i < |h.blocks|
    ensures Holds(h, h.blocks[i].start, size) <==> !h.blocks[i].used && size <= Space(h.blocks[i])
  {
    Order(h.blocks, end);
  }

  lemma StartsOfBounded(bs: seq<Blk>, i: nat, at: nat)
    requires i < |bs|
    ensures !FreeAfter(bs, i) ==> Starts(Bounded(bs, i, at)) == With(Starts(bs), i + 1, at)
    ensures FreeAfter(bs, i) ==> Starts(Bounded(bs, i, at)) == With(Without(Starts(bs), i + 1), i + 1, at)
    ensures FreeAfter(bs, i) ==> Starts(Bounded(bs, i, at)) == Without(With(Starts(bs), i + 1, at), i + 2)
  {
    var r := Bounded(bs, i, at);
    BoundedLength(bs, i, at);
    forall j | 0 <= j < |r|
      ensures Starts(r)[j] == (if j <= i then bs[j].start else if j == i + 1 then at
        else bs[if FreeAfter(bs, i) then j else j - 1].start)
    {
      BoundedAt(bs, i, at, j);
    }
  }

  lemma FlagsOfBounded(used: map<int, bool>, bs: seq<Blk>, tail: nat, i: nat, at: nat)
    requires Tiles(bs, tail) && Flagged(used, bs, tail) && i < |bs| && bs[i].used
    requires bs[i].start < at < (if FreeAfter(bs, i) then bs[i + 1] else bs[i]).end
    ensures Flagged(used[at := false], Bounded(bs, i, at), tail)
  {
    hide Bounded;
    Order(bs, tail);
    var r := Bounded(bs, i, at);
    BoundedLength(bs, i, at);
    var u := used[at := false];
    forall j | 0 <= j < |r| ensures r[j].start in u && u[r[j].start] == r[j].used {
      BoundedAt(bs, i, at, j);
      if j < i {
        assert bs[j].end <= bs[i].start && bs[j].start <= bs[j].end;
      } else if j > i + 1 {
        var k, n := if FreeAfter(bs, i) then j else j - 1, if FreeAfter(bs, i) then i + 1 else i;
        assert r[j] == bs[k] && bs[n].end <= bs[k].start;
      }
    }
  }

  /** The new boundary is none of the headers that stay. */
  lemma BoundaryIsNew(bs: seq<Blk>, tail: nat, i: nat, at: nat)
    requires Tiles(bs, tail) && i + 1 < |bs| && bs[i].start < at < bs[i + 1].end
    ensures at !in Without(Starts(bs), i + 1) && at != tail
  {
    Order(bs, tail);
  }

  lemma BoundaryUnlisted(h: Heap, end: nat, i: nat, at: nat)
    requires Sound(h, end) && i + 1 < |h.blocks| && h.blocks[i].start < at < h.blocks[i + 1].end && !h.blocks[i + 1].used
    ensures at !in Remove(h.free, h.blocks[i + 1].start)
  {
    hide FreeStarts, FreeBytes;
    FreeNoDup(h, end);
    RemoveNoDup<nat>(h.free, h.blocks[i + 1].start);
    if at in h.free && at != h.blocks[i + 1].start {
      var j := FreeOf(h, at);
      Order(h.blocks, end);
    }
  }

  /** Block `j` of the chain after block `i` has been freed. */
  lemma AfterFree(bs: seq<Blk>, tail: nat, i: nat, j: nat)
    requires Tiles(bs, tail) && i < |bs| && j < |HeapChain.Free(bs, i)|
    ensures var lo := if FreeBefore(bs, i) then i - 1 else i; var n := if FreeAfter(bs, i) then i + 2 - lo else i + 1 - lo;
      var r := HeapChain.Free(bs, i);
      && |r| == |bs| + 1 - n
      && (j < lo ==> r[j] == bs[j])
      && (j == lo ==> !r[j].used && r[j].start == bs[lo].start)
      && (j > lo ==> r[j] == bs[j - 1 + n])
  {
    hide HeapChain.Free, Tiles;
    FreeAsReplace(bs, tail, i);
  }

  lemma FlagsOfFree(used: map<int, bool>, bs: seq<Blk>, tail: nat, i: nat)
    requires Tiles(bs, tail) && Flagged(used, bs, tail) && i < |bs|
    ensures Flagged(used[bs[i].start := false], HeapChain.Free(bs, i), tail)
  {
    hide HeapChain.Free, Tiles;
    Order(bs, tail);
    var r := HeapChain.Free(bs, i);
    StartsDistinct(bs, tail);
    var u := used[bs[i].start := false];
    forall j | 0 <= j < |r| ensures r[j].start in u && u[r[j].start] == r[j].used {
      AfterFree(bs, tail, i, j);
      FlagOfOther(used, bs, tail, i);
    }
  }

  lemma FlagOfOther(used: map<int, bool>, bs: seq<Blk>, tail: nat, i: nat)
    requires NoDup(Starts(bs)) && Flagged(used, bs, tail) && i < |bs|
    ensures forall k | 0 <= k < |bs| && k != i :: bs[k].start != bs[i].start && bs[k].start in used && used[bs[k].start] == bs[k].used
  {
    forall k | 0 <= k < |bs| && k != i ensures bs[k].start != bs[i].start {
      assert Starts(bs)[k] == bs[k].start && Starts(bs)[i] == bs[i].start;
    }
  }

  lemma FreeNotEmpty(bs: seq<Blk>, tail: nat, i: nat)
    requires Tiles(bs, tail) && i < |bs|
    ensures |HeapChain.Free(bs, i)| > 0
  {
    FreeAsReplace(bs, tail, i);
  }

  lemma WithoutAt(xs: seq<int>, k: nat, j: nat)
    requires k < |xs| && j + 1 < |xs|
    ensures |Without(xs, k)| == |xs| - 1 && Without(xs, k)[j] == xs[if j < k then j else j + 1]
  {
  }

  lemma StartsOfFree(bs: seq<Blk>, tail: nat, i: nat)
    requires Tiles(bs, tail) && i < |bs|
    ensures var s := if FreeBefore(bs, i) then Without(Starts(bs), i) else Starts(bs);
      var k := if FreeBefore(bs, i) then i - 1 else i;
      && (FreeAfter(bs, i) ==> k + 1 < |s| && s[k + 1] == bs[i + 1].start)
      && Starts(HeapChain.Free(bs, i)) == if FreeAfter(bs, i) then Without(s, k + 1) else s
  {
    hide HeapChain.Free, Tiles, Without;
    FreeNotEmpty(bs, tail, i);
    AfterFree(bs, tail, i, 0);
    var s0 := Starts(bs);
    var s := if FreeBefore(bs, i) then Without(s0, i) else s0;
    var k := if FreeBefore(bs, i) then i - 1 else i;
    if FreeBefore(bs, i) {
      WithoutAt(s0, i, k);
      if FreeAfter(bs, i) {
        WithoutAt(s0, i, i);
      }
    }
    var r := HeapChain.Free(bs, i);
    var t := if FreeAfter(bs, i) then Without(s, k + 1) else s;
    if FreeAfter(bs, i) {
      WithoutAt(s, k + 1, k);
    }
    forall j | 0 <= j < |r| ensures Starts(r)[j] == t[j] {
      AfterFree(bs, tail, i, j);
      var j' := if FreeAfter(bs, i) && j > k then j + 1 else j;
      if FreeAfter(bs, i) {
        WithoutAt(s, k + 1, j);
      }
      if FreeBefore(bs, i) {
        WithoutAt(s0, i, j');
      }
    }
  }

  lemma UsedIsUnlisted(h: Heap, end: nat, i: nat)
    requires Sound(h, end) && i < |h.blocks| && h.blocks[i].used
    ensures h.blocks[i].start !in h.free && forall y :: h.blocks[i].start !in Remove(h.free, y)
  {
    Order(h.blocks, end);
    if h.blocks[i].start in h.free {
      var j := FreeOf(h, h.blocks[i].start);
    }
  }

  /** A header's neighbours in the ring are other headers. */
  lemma NotMyself(next: Links, prev: Links, bs: seq<Blk>, tail: nat, i: nat)
    requires Ring(next, prev, tail, Starts(bs)) && i < |bs| && bs[i].start in next && bs[i].start in prev
    ensures next[bs[i].start] != bs[i].start && prev[bs[i].start] != bs[i].start
  {
    RingNeighbours(next, prev, tail, Starts(bs), i);
  }

  class MemHeap {
    const poolSize: nat
    const tail: nat               // offset of the tail header
    const data: array<bv8>
    // the headers
    var used: map<int, bool>
    var next: Links
    var prev: Links
    var nextFree: Links
    var prevFree: Links
    // the heap object
    var availableSize: int
    var maxUsedSize: int
    ghost var blocks: seq<Blk>
    ghost var freeList: seq<nat>

    ghost function Contents(): Heap
      reads this
    {
      Heap(blocks, freeList, availableSize)
    }

    /** The headers spell out the two lists. */
    ghost predicate Spelled()
      reads this
    {
      && poolSize == tail + HEAD && data.Length == poolSize
      && Ring(next, prev, tail, Starts(blocks)) && Flagged(used, blocks, tail)
      && Ring(nextFree, prevFree, FREE_LIST, freeList)
    }

    ghost predicate Valid()
      reads this
    {
      Spelled() && Sound(Contents(), tail) && poolSize - availableSize <= maxUsedSize
    }

    /** `rt_memheap_init` on a region of at least two headers. */
    constructor (size: nat)
      requires size / ALIGN * ALIGN >= 2 * HEAD
      ensures Valid() && fresh(data) && poolSize == size / ALIGN * ALIGN
      ensures Contents() == Heap([Blk(0, poolSize - HEAD, false)], [0], poolSize - 2 * HEAD)
      ensures maxUsedSize == 2 * HEAD
    {
      poolSize := size / ALIGN * ALIGN;
      tail := size / ALIGN * ALIGN - HEAD;
      data := new bv8[size / ALIGN * ALIGN];
      availableSize := size / ALIGN * ALIGN - 2 * HEAD;
      maxUsedSize := 2 * HEAD;
      var end := size / ALIGN * ALIGN - HEAD;
      used := map[0 := false, end := true];
      next, prev := map[0 := end, end := 0], map[0 := end, end := 0];
      nextFree, prevFree := map[FREE_LIST := 0, 0 := FREE_LIST], map[FREE_LIST := 0, 0 := FREE_LIST];
      blocks, freeList := [Blk(0, end, false)], [0];
      new;
      One(blocks[0]);
      assert multiset(freeList) == multiset{0};
      RingOfOne(next, prev, tail, 0);
      assert Starts(blocks) == [0];
      RingOfOne(nextFree, prevFree, FREE_LIST, 0);
    }

    lemma RingOfOne(n: Links, p: Links, h: int, x: int)
      requires h != x && n == map[x := h, h := x] && p == map[x := h, h := x]
      ensures Ring(n, p, h, [x])
    {
      forall i | -1 <= i < 1 ensures Joined(n, p, At(h, [x], i), At(h, [x], i + 1)) {
      }
    }

    // ----- relinking -----

    /** Takes a node out of the free list. */
    method UnlinkFree(x: nat, ghost k: nat)
      requires Ring(nextFree, prevFree, FREE_LIST, freeList) && k < |freeList| && freeList[k] == x
      modifies this`nextFree, this`prevFree, this`freeList
      ensures Ring(nextFree, prevFree, FREE_LIST, freeList) && freeList == Remove(old(freeList), x)
    {
      RingNeighbours(nextFree, prevFree, FREE_LIST, freeList, k);
      UnlinkKeeps(nextFree, prevFree, FREE_LIST, freeList, k);
      RemoveIsWithout(freeList, k);
      var n, p := nextFree[x], prevFree[x];
      prevFree := prevFree[n := p];
      nextFree := nextFree[p := n];
      freeList := Remove(freeList, x);
    }

    /** Puts a node at the front of the free list. */
    method PushFree(x: nat)
      requires Ring(nextFree, prevFree, FREE_LIST, freeList) && x !in freeList
      modifies this`nextFree, this`prevFree, this`freeList
      ensures Ring(nextFree, prevFree, FREE_LIST, freeList) && freeList == [x] + old(freeList)
    {
      RingStart(nextFree, prevFree, FREE_LIST, freeList);
      InsertKeeps(nextFree, prevFree, FREE_LIST, freeList, 0, x);
      assert With(freeList, 0, x) == [x] + freeList;
      var first := nextFree[FREE_LIST];
      nextFree := nextFree[x := first];
      prevFree := prevFree[x := FREE_LIST];
      prevFree := prevFree[first := x];
      nextFree := nextFree[FREE_LIST := x];
      freeList := [x] + freeList;
    }

    /** Links the header before block header `x` with the one after it. */
    method UnlinkBlock(x: int, ghost starts: seq<int>, ghost k: nat)
      requires Ring(next, prev, tail, starts) && k < |starts| && starts[k] == x
      modifies this`next, this`prev
      ensures Ring(next, prev, tail, Without(starts, k))
      ensures At(tail, starts, k - 1) in next && next[At(tail, starts, k - 1)] == At(tail, starts, k + 1)
    {
      RingNeighbours(next, prev, tail, starts, k);
      UnlinkKeeps(next, prev, tail, starts, k);
      var n, p := next[x], prev[x];
      prev := prev[n := p];
      next := next[p := n];
    }

    /** Links a new header `x` in behind header `header`, which is number `k` of the chain. */
    method InsertBlock(header: int, x: int, ghost starts: seq<int>, ghost k: nat)
      requires Ring(next, prev, tail, starts) && k < |starts| && starts[k] == header && x !in starts && x != tail
      modifies this`next, this`prev
      ensures Ring(next, prev, tail, With(starts, k + 1, x))
    {
      RingNeighbours(next, prev, tail, starts, k);
      InsertKeeps(next, prev, tail, starts, k + 1, x);
      var after := next[header];
      prev := prev[x := header];
      next := next[x := after];
      prev := prev[after := x];
      next := next[header := x];
    }

    // ----- alloc -----

    /** The search in `rt_memheap_alloc`: the first free list entry that is large enough, if any. */
    method FindFit(size: nat) returns (header: int, freeSize: int, ghost i: nat)
      requires Valid() && size > 0
      ensures freeSize < size ==> NoneFits(Contents(), size)
      ensures freeSize >= size ==>
        FirstInList(Contents(), size, i) && header == blocks[i].start && freeSize == Space(blocks[i])
    {
      ghost var h := Contents();
      RingStart(nextFree, prevFree, FREE_LIST, freeList);
      freeSize, i := 0, 0;
      header := nextFree[FREE_LIST];
      ghost var k := 0;
      while header != FREE_LIST && freeSize < size
        invariant k <= |freeList| && header == At(FREE_LIST, freeList, k)
        invariant forall j | 0 <= j < k :: !Holds(h, freeList[j], size)
        invariant freeSize >= size ==> k < |freeList| && i < |blocks| && !blocks[i].used
        invariant freeSize >= size ==> blocks[i].start == header && freeSize == Space(blocks[i])
        decreases |freeList| - k, if freeSize < size then 1 else 0
      {
        i := FreeOf(h, freeList[k]);
        Neighbours(next, prev, used, blocks, tail, i);
        RingNeighbours(nextFree, prevFree, FREE_LIST, freeList, k);
        HoldsAt(h, tail, i, size);
        freeSize := next[header] - header - HEAD;
        if freeSize < size {
          header := nextFree[header];
          k := k + 1;
        }
      }
      if freeSize < size {
        forall j | 0 <= j < |blocks| && !blocks[j].used ensures Space(blocks[j]) < size {
          ListedFree(h, j);
          HoldsAt(h, tail, j, size);
        }
      }
    }

    /** A new free header at `newPtr`, within block `i`. */
    method AddHeader(header: nat, newPtr: nat, ghost i: nat)
      requires Ring(next, prev, tail, Starts(blocks)) && Flagged(used, blocks, tail) && Tiles(blocks, tail)
      requires i < |blocks| && blocks[i].start == header && header < newPtr < blocks[i].end
      modifies this`next, this`prev, this`used
      ensures Ring(next, prev, tail, Starts(Split(blocks, i, newPtr, true)))
      ensures Flagged(used[header := true], Split(blocks, i, newPtr, true), tail)
      ensures used == old(used)[newPtr := false]
    {
      hide Ring, Flagged, Tiles;
      NewStart(blocks, tail, i, newPtr);
      StartsOfSplit(blocks, i, newPtr);
      FlagsOfSplit(used, blocks, tail, i, newPtr);
      used := used[newPtr := false];
      InsertBlock(header, newPtr, Starts(blocks), i);
    }

    /** The rest of `rt_memheap_alloc`, once free block `i` has been chosen. */
    method TakeBlock(header: nat, size: nat, freeSize: int, ghost i: nat)
      requires Valid() && i < |blocks| && !blocks[i].used && blocks[i].start == header
      requires freeSize == Space(blocks[i]) && size <= freeSize
      modifies this
      ensures Valid() && Contents() == Take(old(Contents()), i, size)
      ensures maxUsedSize == Max(old(maxUsedSize), poolSize - availableSize)
    {
      hide Sound, Ring, Flagged, Tiles, Starts, Remove;
      ghost var h := Contents();
      SoundParts(h, tail);
      TakeKeeps(h, tail, i, size);
      ListedFree(h, i);
      ghost var k :| 0 <= k < |freeList| && freeList[k] == header;
      if freeSize >= size + HEAD + MIN_ALLOC {
        var newPtr := header + size + HEAD;
        NewStart(blocks, tail, i, newPtr);
        NewIsUnlisted(h, newPtr);
        AddHeader(header, newPtr, i);
        UnlinkFree(header, k);
        PushFree(newPtr);
        availableSize := availableSize - size - HEAD;
        blocks := Split(blocks, i, newPtr, true);
      } else {
        StartsOfMark(blocks, i, true);
        FlagsOfMark(used, blocks, tail, i, true);
        availableSize := availableSize - freeSize;
        UnlinkFree(header, k);
        blocks := blocks[i := blocks[i].(used := true)];
      }
      if poolSize - availableSize > maxUsedSize {
        maxUsedSize := poolSize - availableSize;
      }
      used := used[header := true];
      assert Contents() == Take(h, i, size);
    }

    lemma ListedIsStart(h: Heap, x: nat)
      requires multiset(h.free) == FreeStarts(h.blocks) && x in h.free
      ensures x in Starts(h.blocks)
    {
      var i := FreeOf(h, x);
      assert Starts(h.blocks)[i] == x;
    }

    lemma NewIsUnlisted(h: Heap, x: nat)
      requires multiset(h.free) == FreeStarts(h.blocks) && x !in Starts(h.blocks)
      ensures x !in h.free && forall y :: x !in Remove(h.free, y)
    {
      if x in h.free {
        ListedIsStart(h, x);
      }
    }

    /**
     `rt_memheap_alloc`: null exactly when no free block is large enough or the request is not below the
     total that is available; otherwise the first large enough block in the order of the free list.
     */
    method Alloc(size0: nat) returns (ptr: Option<nat>, ghost i: nat)
      requires Valid()
      modifies this
      ensures Valid()
      ensures ptr.None? <==> Refused(old(Contents()), Rounded(size0))
      ensures ptr.None? ==> Contents() == old(Contents()) && maxUsedSize == old(maxUsedSize)
      ensures ptr.Some? ==>
        && FirstInList(old(Contents()), Rounded(size0), i) && ptr.value == old(blocks)[i].start + HEAD
        && Contents() == Take(old(Contents()), i, Rounded(size0))
        && Allocated(ptr.value, i) && Suits(blocks[i], Rounded(size0))
        && maxUsedSize == Max(old(maxUsedSize), poolSize - availableSize)
    {
      i := 0;
      var size := Align(size0);
      if size < MIN_ALLOC {
        size := MIN_ALLOC;
      }
      if size < availableSize {
        var header, freeSize;
        header, freeSize, i := FindFit(size);
        if freeSize >= size {
          FitExists(Contents(), size, i);
          TakenBlock(Contents(), tail, i, size);
          TakeBlock(header, size, freeSize, i);
          return Some(header + HEAD), i;
        }
      }
      ptr := None;
    }

    lemma FitExists(h: Heap, size: nat, i: nat)
      requires i < |h.blocks| && !h.blocks[i].used && size <= Space(h.blocks[i])
      ensures !NoneFits(h, size)
    {
    }

    ghost predicate Allocated(p: nat, i: nat)
      reads this
    {
      i < |blocks| && blocks[i].used && p == blocks[i].start + HEAD
    }

    // ----- free -----

    /** The left half of the merging in `rt_memheap_free`. */
    method MergePrevious(header0: int, ghost i: nat) returns (header: int, insertHeader: bool, ghost starts: seq<int>, ghost k: nat)
      requires Tiles(blocks, tail) && i < |blocks| && blocks[i].start == header0
      requires Ring(next, prev, tail, Starts(blocks)) && header0 in next && header0 in used && !used[header0]
      requires Flagged(used[header0 := true], blocks, tail) && blocks[i].used
      modifies this`next, this`prev, this`availableSize
      ensures insertHeader == !FreeBefore(blocks, i)
      ensures k == (if FreeBefore(blocks, i) then i - 1 else i) && k < |blocks| && header == blocks[k].start
      ensures header in next && next[header] == old(next)[header0]
      ensures starts == (if FreeBefore(blocks, i) then Without(Starts(blocks), i) else Starts(blocks))
      ensures Ring(next, prev, tail, starts)
      ensures availableSize == old(availableSize) + if FreeBefore(blocks, i) then HEAD else 0
    {
      Neighbours(next, prev, used[header0 := true], blocks, tail, i);
      NotMyself(next, prev, blocks, tail, i);
      RingNeighbours(next, prev, tail, Starts(blocks), i);
      header, insertHeader, starts, k := header0, true, Starts(blocks), i;
      var before := prev[header];
      if !used[before] {
        availableSize := availableSize + HEAD;
        UnlinkBlock(header, starts, i);
        starts, k := Without(starts, i), i - 1;
        header := before;
        insertHeader := false;
      }
    }

    /** The right half. */
    method MergeNext(header: int, ghost i: nat, ghost starts: seq<int>, ghost k: nat)
      requires Ring(next, prev, tail, starts) && header in next && next[header] in used
      requires used[next[header]] == !FreeAfter(blocks, i)
      requires FreeAfter(blocks, i) ==> i + 1 < |blocks| && k + 1 < |starts| && starts[k + 1] == next[header] == blocks[i + 1].start
      requires Ring(nextFree, prevFree, FREE_LIST, freeList)
      requires FreeAfter(blocks, i) ==> blocks[i + 1].start in freeList
      modifies this`next, this`prev, this`nextFree, this`prevFree, this`freeList, this`availableSize
      ensures Ring(next, prev, tail, if FreeAfter(blocks, i) then Without(starts, k + 1) else starts)
      ensures Ring(nextFree, prevFree, FREE_LIST, freeList)
      ensures freeList == if FreeAfter(blocks, i) then Remove(old(freeList), blocks[i + 1].start) else old(freeList)
      ensures availableSize == old(availableSize) + if FreeAfter(blocks, i) then HEAD else 0
    {
      if !used[next[header]] {
        availableSize := availableSize + HEAD;
        var newPtr := next[header];
        UnlinkBlock(newPtr, starts, k + 1);
        ghost var f :| 0 <= f < |freeList| && freeList[f] == newPtr;
        UnlinkFree(newPtr, f);
      }
    }

    /** What there is to merge around block `i`, and what has to be in the free list for it. */
    ghost predicate ReadyToMerge(i: nat)
      reads this
    {
      && i < |blocks| && blocks[i].used && Tiles(blocks, tail)
      && Ring(next, prev, tail, Starts(blocks)) && Ring(nextFree, prevFree, FREE_LIST, freeList)
      && Flagged(used, blocks, tail)
      && blocks[i].start !in freeList
      && (FreeAfter(blocks, i) ==> blocks[i + 1].start in freeList)
    }

    /** All of `rt_memheap_free` but the counting of the block itself. */
    method MergeBoth(header: nat, ghost i: nat)
      requires ReadyToMerge(i) && blocks[i].start == header
      modifies this`next, this`prev, this`used, this`nextFree, this`prevFree, this`freeList, this`availableSize
      ensures Ring(next, prev, tail, Starts(HeapChain.Free(blocks, i))) && Flagged(used, HeapChain.Free(blocks, i), tail)
      ensures Ring(nextFree, prevFree, FREE_LIST, freeList)
      ensures freeList == Release(old(Contents()), i).free
      ensures availableSize == old(availableSize)
        + (if FreeBefore(blocks, i) then HEAD else 0) + (if FreeAfter(blocks, i) then HEAD else 0)
    {
      hide Ring, Flagged, Tiles, Starts, Remove, HeapChain.Free, FreeAfter, FreeBefore;
      Neighbours(next, prev, used, blocks, tail, i);
      NotMyself(next, prev, blocks, tail, i);
      FlagsOfFree(used, blocks, tail, i);
      StartsOfFree(blocks, tail, i);
      RemoveKeepsOut(freeList, header);
      used := used[header := false];
      assert used[header := true] == old(used);
      var first, insertHeader; ghost var starts, k;
      first, insertHeader, starts, k := MergePrevious(header, i);
      MergeNext(first, i, starts, k);
      if insertHeader {
        PushFree(first);
      }
    }

    lemma RemoveKeepsOut(xs: seq<nat>, x: nat)
      ensures x !in xs ==> forall y :: x !in Remove(xs, y)
    {
    }

    /** `rt_memheap_free` of the pointer handed out for block `i`. */
    method Free(ptr: nat, ghost i: nat)
      requires Valid() && Allocated(ptr, i)
      modifies this
      ensures Valid() && Contents() == Release(old(Contents()), i) && maxUsedSize == old(maxUsedSize)
    {
      hide Sound, Ring, Flagged, Tiles, Starts, Remove, HeapChain.Free, FreeAfter, FreeBefore;
      ghost var h := Contents();
      SoundParts(h, tail);
      ReleaseKeeps(h, tail, i);
      UsedIsUnlisted(h, tail, i);
      NextListed(h, i);
      Neighbours(next, prev, used, blocks, tail, i);
      var header := ptr - HEAD;
      availableSize := availableSize + (next[header] - header - HEAD);
      MergeBoth(header, i);
      blocks := HeapChain.Free(blocks, i);
      assert Contents() == Release(h, i);
    }

    lemma SoundParts(h: Heap, end: nat)
      requires Sound(h, end)
      ensures Tiles(h.blocks, end) && multiset(h.free) == FreeStarts(h.blocks)
      ensures forall i | 0 <= i < |h.blocks| :: Space(h.blocks[i]) >= 0
    {
    }

    lemma NextListed(h: Heap, i: nat)
      requires multiset(h.free) == FreeStarts(h.blocks)
      ensures FreeAfter(h.blocks, i) ==> i + 1 < |h.blocks| && h.blocks[i + 1].start in h.free
      ensures FreeBefore(h.blocks, i) ==> 0 < i <= |h.blocks| && h.blocks[i - 1].start in h.free
    {
      if FreeAfter(h.blocks, i) {
        ListedFree(h, i + 1);
      }
      if FreeBefore(h.blocks, i) {
        ListedFree(h, i - 1);
      }
    }

    // ----- realloc -----

    /** The in-place growth of `rt_memheap_realloc`. */
    method GrowBlock(ptr: nat, newsize: nat, oldsize: int, ghost i: nat)
      requires Valid() && Allocated(ptr, i) && Extends(blocks, i, newsize) && oldsize == Space(blocks[i]) < newsize
      modifies this
      ensures Valid() && Contents() == Reshape(old(Contents()), i, newsize)
      ensures maxUsedSize == Max(old(maxUsedSize), poolSize - availableSize)
    {
      hide Sound, Ring, Flagged, Tiles, Starts, Remove, Bounded, With, Without, NoDup;
      ghost var h := Contents();
      var header, at := ptr - HEAD, ptr + newsize;
      SoundParts(h, tail);
      Boundary(h, tail, i, newsize);
      Neighbours(next, prev, used, blocks, tail, i);
      ListedFree(h, i + 1);
      ReshapeKeeps(h, tail, i, newsize);
      BoundaryIsNew(blocks, tail, i, at);
      BoundaryUnlisted(h, tail, i, at);
      StartsOfBounded(blocks, i, at);
      FlagsOfBounded(used, blocks, tail, i, at);
      availableSize := availableSize - (newsize - oldsize);
      if poolSize - availableSize > maxUsedSize {
        maxUsedSize := poolSize - availableSize;
      }
      ghost var k :| 0 <= k < |freeList| && freeList[k] == blocks[i + 1].start;
      UnlinkFree(next[header], k);
      MoveHeader(header, next[header], at, i);
      used := used[at := false];
      PushFree(at);
      blocks := Bounded(blocks, i, at);
      assert Contents() == Reshape(h, i, newsize);
    }

    /** Takes the header behind `header` out of the chain and puts one at `at` in its place. */
    method MoveHeader(header: int, nextPtr: int, at: nat, ghost i: nat)
      requires Ring(next, prev, tail, Starts(blocks)) && i + 1 < |blocks|
      requires header == blocks[i].start && nextPtr == blocks[i + 1].start
      requires at !in Without(Starts(blocks), i + 1) && at != tail
      modifies this`next, this`prev
      ensures Ring(next, prev, tail, With(Without(Starts(blocks), i + 1), i + 1, at))
    {
      hide Ring;
      WithoutAt(Starts(blocks), i + 1, i);
      UnlinkBlock(nextPtr, Starts(blocks), i + 1);
      InsertBlock(header, at, Without(Starts(blocks), i + 1), i);
    }

    lemma Boundary(h: Heap, end: nat, i: nat, newsize: nat)
      requires Tiles(h.blocks, end) && i < |h.blocks|
      requires newsize + HEAD + MIN_ALLOC < Space(h.blocks[i]) || Extends(h.blocks, i, newsize)
      ensures FreeAfter(h.blocks, i) ==> i + 1 < |h.blocks| && !h.blocks[i + 1].used
      ensures var at := h.blocks[i].start + HEAD + newsize;
        at + HEAD <= (if FreeAfter(h.blocks, i) then h.blocks[i + 1] else h.blocks[i]).end
    {
      if FreeAfter(h.blocks, i) {
        assert Meets(h.blocks, i);
        Order(h.blocks, end);
      }
    }

    /** What the shrinking end of `rt_memheap_realloc` does about a free block behind the new one. */
    method AbsorbNext(newPtr: nat, ghost i: nat)
      requires i < |blocks| && Tiles(Split(blocks, i, newPtr, true), tail)
      requires Ring(next, prev, tail, Starts(Split(blocks, i, newPtr, true)))
      requires Flagged(used, Split(blocks, i, newPtr, true), tail)
      requires Ring(nextFree, prevFree, FREE_LIST, freeList)
      requires FreeAfter(blocks, i) ==> i + 1 < |blocks| && blocks[i + 1].start in freeList
      modifies this`next, this`prev, this`nextFree, this`prevFree, this`freeList, this`availableSize
      ensures Ring(next, prev, tail, Starts(Bounded(blocks, i, newPtr)))
      ensures Ring(nextFree, prevFree, FREE_LIST, freeList)
      ensures freeList == if FreeAfter(blocks, i) then Remove(old(freeList), blocks[i + 1].start) else old(freeList)
      ensures availableSize == old(availableSize) - if FreeAfter(blocks, i) then Space(blocks[i + 1]) else 0
    {
      hide Ring, Flagged, Tiles, Starts, Remove, Bounded, Split;
      ghost var mid := Split(blocks, i, newPtr, true);
      SplitParts(blocks, i, newPtr);
      StartsOfSplit(blocks, i, newPtr);
      StartsOfBounded(blocks, i, newPtr);
      Neighbours(next, prev, used, mid, tail, i + 1);
      if !used[next[newPtr]] {
        var freePtr := next[newPtr];
        Neighbours(next, prev, used, mid, tail, i + 2);
        availableSize := availableSize - (next[freePtr] - freePtr - HEAD);
        ghost var k :| 0 <= k < |freeList| && freeList[k] == freePtr;
        UnlinkBlock(freePtr, Starts(mid), i + 2);
        UnlinkFree(freePtr, k);
      }
    }

    /** The shrinking end of `rt_memheap_realloc`. */
    method CutBlock(ptr: nat, newsize: nat, ghost i: nat)
      requires Valid() && Allocated(ptr, i) && newsize + HEAD + MIN_ALLOC < Space(blocks[i])
      modifies this
      ensures Valid() && Contents() == Reshape(old(Contents()), i, newsize) && maxUsedSize == old(maxUsedSize)
    {
      hide Sound, Ring, Flagged, Tiles, Starts, Remove, Bounded, Split, NoDup, FreeStarts, FreeBefore, FreeAfter;
      ghost var h := Contents();
      var header, newPtr := ptr - HEAD, ptr + newsize;
      SoundParts(h, tail);
      NextListed(h, i);
      CutReady(h, tail, i, newsize);
      Neighbours(next, prev, used, blocks, tail, i);
      assert used[header := true] == used;
      FlagsOfBounded(used, blocks, tail, i, newPtr);
      AddHeader(header, newPtr, i);
      assert used[header := true] == used;
      AbsorbNext(newPtr, i);
      PushFree(newPtr);
      blocks := Bounded(blocks, i, newPtr);
      Neighbours(next, prev, used, blocks, tail, i + 1);
      availableSize := availableSize + (next[newPtr] - newPtr - HEAD);
      assert Contents() == Reshape(h, i, newsize);
    }

    lemma CutReady(h: Heap, end: nat, i: nat, newsize: nat)
      requires Sound(h, end) && i < |h.blocks| && h.blocks[i].used && newsize + HEAD + MIN_ALLOC < Space(h.blocks[i])
      ensures var bs := h.blocks; var at := bs[i].start + HEAD + newsize;
        && at < bs[i].end && at < (if FreeAfter(bs, i) then bs[i + 1] else bs[i]).end
        && Tiles(Split(bs, i, at, true), end) && Tiles(Bounded(bs, i, at), end)
        && i + 1 < |Bounded(bs, i, at)|
        && Bounded(bs, i, at)[i + 1] == Blk(at, (if FreeAfter(bs, i) then bs[i + 1] else bs[i]).end, false)
        && (FreeAfter(bs, i) ==> bs[i].end == bs[i + 1].start)
        && at !in h.free && (FreeAfter(bs, i) ==> at !in Remove(h.free, bs[i + 1].start))
      ensures Sound(Reshape(h, i, newsize), end)
    {
      hide FreeStarts, FreeBytes, Remove, Bounded, Split;
      var at: nat := h.blocks[i].start + HEAD + newsize;
      Boundary(h, end, i, newsize);
      SplitWhole(h.blocks, end, i, at);
      ReshapeKeeps(h, end, i, newsize);
      TailOfBounded(h.blocks, end, i, at);
      NewStart(h.blocks, end, i, at);
      NewIsUnlisted(h, at);
    }

    lemma SplitParts(bs: seq<Blk>, i: nat, at: nat)
      requires i < |bs|
      ensures var m := Split(bs, i, at, true);
        && |m| == |bs| + 1 && m[i + 1] == Blk(at, bs[i].end, false) && FreeAfter(m, i + 1) == FreeAfter(bs, i)
        && (FreeAfter(bs, i) ==> m[i + 2] == bs[i + 1] && Starts(m)[i + 2] == bs[i + 1].start)
    {
    }

    lemma TailOfBounded(bs: seq<Blk>, end: nat, i: nat, at: nat)
      requires Tiles(bs, end) && i < |bs|
      ensures var r := Bounded(bs, i, at);
        i + 1 < |r| && r[i + 1] == Blk(at, if FreeAfter(bs, i) then bs[i + 1].end else bs[i].end, false)
      ensures FreeAfter(bs, i) ==> bs[i].end == bs[i + 1].start
    {
      BoundedLength(bs, i, at);
      BoundedAt(bs, i, at, i + 1);
      if FreeAfter(bs, i) {
        assert Meets(bs, i);
      }
    }

    /** Allocate, copy, free: what `rt_memheap_realloc` does when it cannot grow in place. */
    method Move(ptr: nat, newsize: nat, oldsize: nat, ghost i: nat) returns (newPtr: Option<nat>, ghost k: nat)
      requires Valid() && Allocated(ptr, i) && Rounded(newsize) == newsize && oldsize == Space(blocks[i]) < newsize
      modifies this, data
      ensures Valid()
      ensures newPtr.None? <==> Refused(old(Contents()), newsize)
      ensures newPtr.None? ==>
        Contents() == old(Contents()) && data[..] == old(data[..]) && maxUsedSize == old(maxUsedSize)
      ensures newPtr.Some? ==> Allocated(newPtr.value, k) && Suits(blocks[k], newsize)
      ensures newPtr.Some? ==> Carried(old(data[..]), data[..], ptr, newPtr.value, oldsize)
      ensures newPtr.Some? ==>
        forall b | b in old(blocks) && b.used && b != old(blocks)[i] :: b in blocks && Intact(old(data[..]), data[..], b)
    {
      hide Sound, Ring, Flagged, Remove, FirstInList, Release, Outside, Carried, Take, Apart, Tiles, Intact, Refused, Starts, Whole;
      ghost var h, was := Contents(), data[..];
      SoundParts(h, tail);
      newPtr, k := Alloc(newsize);
      assert data[..] == was;
      if newPtr.Some? {
        Chosen(h, newsize, k);
        TakenBlock(h, tail, k, newsize);
        ghost var i' := TakeApart(h, tail, i, k, newsize);
        ghost var mine := blocks[k];
        CopyAndFree(ptr, newPtr.value, oldsize, i', k);
        MovedMembers(h, i, k, newsize, i', mine);
        OthersIntact(h.blocks, mine, oldsize, was, data[..]);
        k :| 0 <= k < |blocks| && blocks[k] == mine;
      }
    }

    method CopyAndFree(from: nat, to: nat, n: nat, ghost i: nat, ghost k: nat)
      requires Valid() && Allocated(from, i) && Allocated(to, k) && Apart(blocks[k], blocks[i])
      requires n <= Space(blocks[i]) && n <= Space(blocks[k])
      modifies this, data
      ensures Valid() && Contents() == Release(old(Contents()), i)
      ensures Carried(old(data[..]), data[..], from, to, n)
      ensures Outside(old(data[..]), data[..], to, to + n)
    {
      hide Sound, Ring, Flagged, Release, Outside, Carried;
      SoundParts(Contents(), tail);
      Order(blocks, tail);
      Copy(data, to, from, n);
      ghost var now := data[..];
      Free(from, i);
      assert data[..] == now;
    }

    lemma Chosen(h: Heap, size: nat, i: nat)
      requires FirstInList(h, size, i)
      ensures i < |h.blocks| && !h.blocks[i].used && size <= Space(h.blocks[i])
    {
    }

    lemma MovedMembers(h: Heap, i: nat, k: nat, size: nat, i': nat, mine: Blk)
      requires i < |h.blocks| && k < |h.blocks| && !h.blocks[k].used && h.blocks[i].used
      requires var mid := Take(h, k, size).blocks;
        i' < |mid| && mid[i'] == h.blocks[i] && mine in mid && mine.used && mine != h.blocks[i]
      ensures mine in Release(Take(h, k, size), i').blocks
      ensures forall b | b in h.blocks && b.used && b != h.blocks[i] :: b in Release(Take(h, k, size), i').blocks
    {
      hide Remove, Take;
      var mid := Take(h, k, size).blocks;
      FreeMembers(mid, i', mine);
      forall b | b in h.blocks && b.used && b != h.blocks[i] ensures b in HeapChain.Free(mid, i') {
        TakeMembers(h, k, size, b);
        FreeMembers(mid, i', b);
      }
    }

    lemma OthersIntact(bs: seq<Blk>, mine: Blk, n: nat, was: seq<bv8>, now: seq<bv8>)
      requires forall b | b in bs && b.used :: Apart(mine, b) && b.start + HEAD <= b.end <= |was|
      requires n <= Space(mine) && Outside(was, now, mine.start + HEAD, mine.start + HEAD + n)
      ensures forall b | b in bs && b.used :: Intact(was, now, b)
    {
      hide Outside, Intact;
      forall b | b in bs && b.used ensures Intact(was, now, b) {
        OutsideIntact(was, now, mine, b, n);
      }
    }

    lemma OutsideIntact(was: seq<bv8>, now: seq<bv8>, mine: Blk, b: Blk, n: nat)
      requires Outside(was, now, mine.start + HEAD, mine.start + HEAD + n) && n <= Space(mine)
      requires Apart(mine, b) && b.start + HEAD <= b.end <= |was|
      ensures Intact(was, now, b)
    {
      forall x | b.start + HEAD <= x < b.end ensures now[x] == was[x] {
      }
    }

    /** The growing branch of `rt_memheap_realloc`. */
    method Expand(ptr: nat, newsize: nat, oldsize: nat, ghost i: nat) returns (newPtr: Option<nat>, ghost k: nat)
      requires Valid() && Allocated(ptr, i) && Rounded(newsize) == newsize && oldsize == Space(blocks[i]) < newsize
      modifies this, data
      ensures Valid()
      ensures newPtr.None? <==> !Extends(old(blocks), i, newsize) && Refused(old(Contents()), newsize)
      ensures newPtr.None? ==>
        Contents() == old(Contents()) && data[..] == old(data[..]) && maxUsedSize == old(maxUsedSize)
      ensures newPtr.Some? ==> Allocated(newPtr.value, k) && newsize <= Space(blocks[k])
      ensures newPtr.Some? ==> Resized(old(blocks), i, blocks[k], newsize)
      ensures newPtr.Some? ==> Carried(old(data[..]), data[..], ptr, newPtr.value, oldsize)
      ensures Extends(old(blocks), i, newsize) ==>
        newPtr == Some(ptr) && data[..] == old(data[..]) && Contents() == ResizedInPlace(old(Contents()), i, newsize)
      ensures newPtr.Some? ==>
        forall b | b in old(blocks) && b.used && b != old(blocks)[i] :: b in blocks && Intact(old(data[..]), data[..], b)
    {
      hide Sound, Ring, Flagged, Remove, Reshape, Refused, Tiles, Starts, Ordered;
      ghost var h := Contents();
      SoundParts(h, tail);
      Neighbours(next, prev, used, blocks, tail, i);
      var nextPtr := next[ptr - HEAD];
      if !used[nextPtr] {
        Neighbours(next, prev, used, blocks, tail, i + 1);
        var nextsize := next[nextPtr] - nextPtr - HEAD;
        if nextsize + oldsize > newsize + MIN_ALLOC {
          Order(blocks, tail);
          AllIntact(blocks, data[..], tail);
          InPlace(h, tail, i, newsize, data[..]);
          GrowBlock(ptr, newsize, oldsize, i);
          return Some(ptr), i;
        }
      }
      newPtr, k := Move(ptr, newsize, oldsize, i);
    }

    /** The other branch, which always succeeds in place. */
    method Shrink(ptr: nat, newsize: nat, oldsize: nat, ghost i: nat)
      requires Valid() && Allocated(ptr, i) && newsize <= oldsize == Space(blocks[i])
      modifies this
      ensures Valid() && Allocated(ptr, i) && newsize <= Space(blocks[i]) && Resized(old(blocks), i, blocks[i], newsize)
      ensures Contents() == ResizedInPlace(old(Contents()), i, newsize)
      ensures forall b | b in old(blocks) && b.used && b != old(blocks)[i] :: b in blocks
    {
      hide Sound, Ring, Flagged, Remove, Reshape;
      if newsize + HEAD + MIN_ALLOC >= oldsize {
        return;
      }
      InPlace(Contents(), blocks[i].end, i, newsize, seq(blocks[i].end, _ => 0));
      CutBlock(ptr, newsize, i);
    }

    /** `rt_memheap_realloc` of a live block, to a size that has been rounded. */
    method Resize(ptr: nat, newsize: nat, ghost i: nat) returns (newPtr: Option<nat>, ghost k: nat)
      requires Valid() && Allocated(ptr, i) && Rounded(newsize) == newsize
      modifies this, data
      ensures Valid()
      ensures newPtr.None? <==> MustMove(old(blocks), i, newsize) && Refused(old(Contents()), newsize)
      ensures newPtr.None? ==> Contents() == old(Contents()) && data[..] == old(data[..])
      ensures newPtr.Some? ==> Allocated(newPtr.value, k) && newsize <= Space(blocks[k])
      ensures newPtr.Some? ==> Resized(old(blocks), i, blocks[k], newsize)
      ensures newPtr.Some? ==>
        Carried(old(data[..]), data[..], ptr, newPtr.value, Min(Space(old(blocks)[i]), newsize))
      ensures !MustMove(old(blocks), i, newsize) ==> newPtr == Some(ptr) && data[..] == old(data[..])
      ensures !MustMove(old(blocks), i, newsize) ==> Contents() == ResizedInPlace(old(Contents()), i, newsize)
      ensures newPtr.Some? ==>
        forall b | b in old(blocks) && b.used && b != old(blocks)[i] :: b in blocks && Intact(old(data[..]), data[..], b)
    {
      hide Sound, Ring, Flagged, Remove, Reshape, Refused, Extends, Intact, Tiles, ResizedInPlace, Starts, NoDup;
      SoundParts(Contents(), tail);
      Neighbours(next, prev, used, blocks, tail, i);
      var header := ptr - HEAD;
      var oldsize := next[header] - header - HEAD;
      if newsize > oldsize {
        newPtr, k := Expand(ptr, newsize, oldsize, i);
        return;
      }
      Order(blocks, tail);
      AllIntact(blocks, data[..], tail);
      Shrink(ptr, newsize, oldsize, i);
      return Some(ptr), i;
    }

    lemma AllIntact(bs: seq<Blk>, bytes: seq<bv8>, end: nat)
      requires Tiles(bs, end) && (forall i | 0 <= i < |bs| :: Space(bs[i]) >= 0) && end <= |bytes|
      ensures forall b | b in bs :: Intact(bytes, bytes, b)
    {
      Order(bs, end);
    }

    lemma InPlace(h: Heap, end: nat, i: nat, newsize: nat, bytes: seq<bv8>)
      requires i < |h.blocks| && h.blocks[i].used && h.blocks[i].end <= end <= |bytes|
      ensures var r := Reshape(h, i, newsize).blocks;
        && i < |r| && r[i] == Blk(h.blocks[i].start, h.blocks[i].start + HEAD + newsize, true)
        && forall b | b in h.blocks && b.used && b != h.blocks[i] :: b in r
    {
      hide Remove, Bounded;
      var at: nat := h.blocks[i].start + HEAD + newsize;
      BoundedLength(h.blocks, i, at);
      BoundedAt(h.blocks, i, at, i);
      forall b | b in h.blocks && b.used && b != h.blocks[i] ensures b in Reshape(h, i, newsize).blocks {
        ReshapeMembers(h, i, newsize, b);
      }
    }

    /**
     `rt_memheap_realloc`: null exactly when nothing is asked for, or the block cannot stay where it is and
     no other can be had. On success its first min(old, new) bytes are kept wherever it ends up, every
     other live block keeps its place and its bytes, and no more is handed out than the size asked for and
     what could not stand alone.
     */
    method Realloc(ptr: Option<nat>, newsize0: nat, ghost i: nat) returns (newPtr: Option<nat>, ghost k: nat)
      requires Valid() && (ptr.Some? ==> Allocated(ptr.value, i))
      modifies this, data
      ensures Valid()
      ensures newsize0 == 0 ==> newPtr.None?
      ensures newsize0 == 0 ==> Contents() == if ptr.Some? then Release(old(Contents()), i) else old(Contents())
      ensures newsize0 > 0 && ptr.None? ==> (newPtr.None? <==> Refused(old(Contents()), Rounded(newsize0)))
      ensures newsize0 > 0 && ptr.Some? ==>
        (newPtr.None? <==> MustMove(old(blocks), i, Rounded(newsize0)) && Refused(old(Contents()), Rounded(newsize0)))
      ensures newsize0 > 0 && newPtr.None? ==> Contents() == old(Contents()) && data[..] == old(data[..])
      ensures newPtr.Some? ==> Allocated(newPtr.value, k) && newsize0 <= Space(blocks[k])
      ensures newPtr.Some? && ptr.None? ==> Suits(blocks[k], Rounded(newsize0))
      ensures newPtr.Some? && ptr.Some? ==> Resized(old(blocks), i, blocks[k], Rounded(newsize0))
      ensures newPtr.Some? && ptr.Some? ==>
        Carried(old(data[..]), data[..], ptr.value, newPtr.value, Min(Space(old(blocks)[i]), Rounded(newsize0)))
      ensures forall b | b in old(blocks) && b.used && (ptr.Some? ==> b != old(blocks)[i]) ::
        b in blocks && Intact(old(data[..]), data[..], b)
    {
      hide Sound, Ring, Flagged, Remove, Reshape, Refused, FirstInList, MustMove, Take;
      k := i;
      ghost var h, was := Contents(), data[..];
      SoundParts(h, tail);
      AllIntact(blocks, data[..], tail);
      if newsize0 == 0 {
        if ptr.Some? {
          Free(ptr.value, i);
          assert data[..] == was;
          forall b | b in h.blocks && b.used && b != h.blocks[i] ensures b in blocks {
            FreeMembers(h.blocks, i, b);
          }
        }
        return None, i;
      }
      var newsize := Align(newsize0);
      if newsize < MIN_ALLOC {
        newsize := MIN_ALLOC;
      }
      RoundedTwice(newsize0);
      if ptr.None? {
        newPtr, k := Alloc(newsize);
        assert data[..] == was;
        if newPtr.Some? {
          Chosen(h, newsize, k);
          TakenBlock(h, tail, k, newsize);
          forall b | b in h.blocks && b.used ensures b in blocks {
            TakeMembers(h, k, newsize, b);
          }
        }
        return;
      }
      newPtr, k := Resize(ptr.value, newsize, i);
    }

    lemma RoundedTwice(size: nat)
      ensures Rounded(Rounded(size)) == Rounded(size)
    {
    }

    /** Once everything has been given back the pool is one free block again, all of it available. */
    lemma NothingUsed()
      requires Valid() && forall i | 0 <= i < |blocks| :: !blocks[i].used
      ensures Contents() == Heap([Blk(0, poolSize - HEAD, false)], [0], poolSize - 2 * HEAD)
    {
      AllReleased(Contents(), tail);
    }
  }
}
