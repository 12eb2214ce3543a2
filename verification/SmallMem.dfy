/** The small-memory allocator: header cells rewritten in place, with the chain of blocks as ghost state. */
module SmallMem {
  import opened Common
  import opened HeapChain
  import opened Bytes

  /** A header cell: the used bit of `pool_ptr`, and the two links. */
  datatype Item = Item(used: bool, next: nat, prev: nat)

  /** Block `i` has its header where it starts. */
  ghost predicate HeaderAt(item: map<nat, Item>, bs: seq<Blk>, i: nat)
    requires i < |bs|
  {
    && bs[i].start in item
    && item[bs[i].start] == Item(bs[i].used, bs[i].end, if i == 0 then 0 else bs[i - 1].start)
  }

  /** The header cells spell out the chain; the sentinel's own `prev` is not maintained. */
  ghost predicate Spells(item: map<nat, Item>, bs: seq<Blk>, end: nat) {
    && (forall i | 0 <= i < |bs| :: HeaderAt(item, bs, i))
    && end in item && item[end].used && item[end].next == end
  }

  lemma Neighbours(item: map<nat, Item>, bs: seq<Blk>, end: nat, i: nat)
    requires Tiles(bs, end) && Spells(item, bs, end) && i < |bs|
    ensures var m := bs[i].start;
      && m < end && m in item && item[m].used == bs[i].used && item[m].next == bs[i].end
      && item[m].next in item && item[m].prev in item && m < item[m].next
      && item[m].next == (if i + 1 < |bs| then bs[i + 1].start else end)
      && (item[m].next != end <==> i + 1 < |bs|)
      && (item[m].prev != m <==> 0 < i)
      && (0 < i ==> item[m].prev == bs[i - 1].start)
  {
    Order(bs, end);
    assert i < |bs| - 1 ==> Meets(bs, i) && HeaderAt(item, bs, i + 1);
    assert HeaderAt(item, bs, i);
    if i > 0 { assert HeaderAt(item, bs, i - 1); }
  }

  ghost predicate SameExcept(item: map<nat, Item>, it: map<nat, Item>, xs: set<nat>) {
    forall x | x in item && x !in xs :: x in it && it[x] == item[x]
  }

  /** Linking past the successor of block `i` joins the two. */
  lemma JoinSpells(item: map<nat, Item>, it: map<nat, Item>, bs: seq<Blk>, end: nat, i: nat)
    requires Tiles(bs, end) && Spells(item, bs, end) && i + 1 < |bs| && !bs[i].used && !bs[i + 1].used
    requires var m, a := bs[i].start, bs[i + 1].end;
      && m in item && a in item && m in it && a in it
      && it[m] == Item(false, a, item[m].prev) && it[a] == item[a].(prev := m)
      && SameExcept(item, it, {m, a})
    ensures Spells(it, Join(bs, i), end)
  {
    var m, a := bs[i].start, bs[i + 1].end;
    Order(bs, end);
    var r := Join(bs, i);
    forall j | 0 <= j < |r| ensures HeaderAt(it, r, j) {
      JoinHeader(item, it, bs, end, i, j);
    }
  }

  lemma JoinHeader(item: map<nat, Item>, it: map<nat, Item>, bs: seq<Blk>, end: nat, i: nat, j: nat)
    requires Tiles(bs, end) && Ordered(bs) && Spells(item, bs, end) && i + 1 < |bs| && j + 1 < |bs|
    requires !bs[i].used && !bs[i + 1].used
    requires var m, a := bs[i].start, bs[i + 1].end;
      && m in item && a in item && m in it && a in it
      && it[m] == Item(false, a, item[m].prev) && it[a] == item[a].(prev := m)
      && SameExcept(item, it, {m, a})
    ensures HeaderAt(it, Join(bs, i), j)
  {
    var m, a := bs[i].start, bs[i + 1].end;
    var r := Join(bs, i);
    var j' := if j <= i then j else j + 1;
    assert r[j].start == bs[j'].start;
    assert HeaderAt(item, bs, j');
    if j < i {
      assert r[j] == bs[j] && (j > 0 ==> r[j - 1] == bs[j - 1]);
      assert bs[j].start != m && bs[j].start != a;
    } else if j == i {
      assert j > 0 ==> r[j - 1] == bs[j - 1];
    } else if j == i + 1 {
      assert Meets(bs, i + 1);
      assert r[j] == bs[j + 1];
    } else {
      assert Meets(bs, i + 1);
      assert r[j] == bs[j + 1] && r[j - 1] == bs[j];
      assert bs[j + 1].start != m && bs[j + 1].start != a;
    }
  }

  /** Writing the header cells of a split. */
  lemma SplitSpells(item: map<nat, Item>, it: map<nat, Item>, bs: seq<Blk>, end: nat, i: nat, at: nat, used: bool)
    requires Tiles(bs, end) && Spells(item, bs, end) && i < |bs|
    requires bs[i].start + HDR <= at && at + HDR <= bs[i].end
    requires var m, n := bs[i].start, bs[i].end;
      && m in item && n in item && m in it && at in it && n in it
      && it[m] == Item(used, at, item[m].prev) && it[at] == Item(false, n, m)
      && it[n] == (if n != end then item[n].(prev := at) else item[n])
      && SameExcept(item, it, {m, at, n})
    ensures Spells(it, Split(bs, i, at, used), end)
  {
    Order(bs, end);
    var r := Split(bs, i, at, used);
    forall j | 0 <= j < |r| ensures HeaderAt(it, r, j) {
      SplitHeader(item, it, bs, end, i, at, used, j);
    }
    assert end !in {bs[i].start, at};
  }

  lemma SplitHeader(item: map<nat, Item>, it: map<nat, Item>, bs: seq<Blk>, end: nat, i: nat, at: nat, used: bool, j: nat)
    requires Tiles(bs, end) && Ordered(bs) && Spells(item, bs, end) && i < |bs| && j < |bs| + 1
    requires bs[i].start + HDR <= at && at + HDR <= bs[i].end
    requires var m, n := bs[i].start, bs[i].end;
      && m in item && n in item && m in it && at in it && n in it
      && it[m] == Item(used, at, item[m].prev) && it[at] == Item(false, n, m)
      && it[n] == (if n != end then item[n].(prev := at) else item[n])
      && SameExcept(item, it, {m, at, n})
    ensures HeaderAt(it, Split(bs, i, at, used), j)
  {
    var m, n := bs[i].start, bs[i].end;
    var r := Split(bs, i, at, used);
    assert HeaderAt(item, bs, i);
    if j < i {
      assert r[j] == bs[j] && (j > 0 ==> r[j - 1] == bs[j - 1]);
      assert HeaderAt(item, bs, j);
      assert bs[j].start !in {m, at, n};
    } else if j == i {
      assert j > 0 ==> r[j - 1] == bs[j - 1];
    } else if j == i + 1 {
    } else {
      assert HeaderAt(item, bs, j - 1);
      Order(bs, end);
      assert r[j] == bs[j - 1];
      assert Meets(bs, i);
      if j > i + 2 {
        assert r[j - 1] == bs[j - 2];
        assert bs[i + 1].end <= bs[j - 1].start;
        assert bs[j - 1].start !in {m, at, n};
      }
    }
  }

  lemma MarkSpells(item: map<nat, Item>, bs: seq<Blk>, end: nat, i: nat, used: bool)
    requires Tiles(bs, end) && Spells(item, bs, end) && i < |bs| && bs[i].start in item
    ensures var m := bs[i].start;
      Spells(item[m := item[m].(used := used)], bs[i := bs[i].(used := used)], end)
  {
    Order(bs, end);
    var m := bs[i].start;
    var r := bs[i := bs[i].(used := used)];
    var it := item[m := item[m].(used := used)];
    forall j | 0 <= j < |r| ensures HeaderAt(it, r, j) {
      assert HeaderAt(item, bs, j);
      assert j != i ==> bs[j].start != m;
    }
  }

  /** The payload of `b` holds the bytes it held. */
  ghost predicate Intact(was: seq<bv8>, now: seq<bv8>, b: Blk) {
    |was| == |now| && b.start + HDR <= b.end <= |was| && now[b.start + HDR..b.end] == was[b.start + HDR..b.end]
  }

  lemma OutsideIntact(was: seq<bv8>, now: seq<bv8>, mine: Blk, b: Blk, n: nat)
    requires Outside(was, now, mine.start + HDR, mine.start + HDR + n) && n <= Payload(mine)
    requires Apart(mine, b) && b.start + HDR <= b.end <= |was|
    ensures Intact(was, now, b)
  {
    forall x | b.start + HDR <= x < b.end ensures now[x] == was[x] {
    }
  }

  lemma AllIntact(bs: seq<Blk>, bytes: seq<bv8>, end: nat)
    requires Tiles(bs, end) && end <= |bytes|
    ensures forall b | b in bs :: Intact(bytes, bytes, b)
  {
    Order(bs, end);
  }

  ghost predicate CannotGrow(bs: seq<Blk>, size: nat) {
    forall j | 0 <= j < |bs| :: !Fits(bs[j], Rounded(size))
  }

  /**
   What becomes of a block that is given a new size: nothing if it has that size, exactly that size in the same
   place if it has enough to spare, and otherwise a block as for a fresh request.
   */
  ghost predicate Resized(was: Blk, now: Blk, size: nat) {
    if Payload(was) == size then now == was
    else if size + HDR + MIN_RAW < Payload(was) then now == Blk(was.start, was.start + HDR + size, true)
    else Serves(now, Rounded(size))
  }

  class SmallMem {
    const heapPtr: nat              // heap_ptr, as an address
    const memSize: nat              // mem_size_aligned
    const heapEnd: nat              // offset of the sentinel header
    const data: array<bv8>          // the bytes of the heap, addressed from heap_ptr
    var item: map<nat, Item>
    var lfree: int
    var used: int
    var max: int
    ghost var blocks: seq<Blk>

    ghost predicate Linked()
      reads this
    {
      && heapEnd == memSize + HDR && data.Length == heapEnd + HDR
      && Tiles(blocks, heapEnd) && Spells(item, blocks, heapEnd)
    }

    ghost predicate Valid()
      reads this
    {
      && Linked() && Coalesced(blocks) && Aligned(blocks) && heapPtr % ALIGN == 0
      && IsLowestFree(blocks, heapEnd, lfree)
      && used == Extent(blocks) && used <= max
    }

    /** The end of `rt_smem_init`: a heap at an aligned address, with room for `memSize` payload bytes. */
    constructor (heapPtr: nat, memSize: nat)
      requires memSize % ALIGN == 0 && heapPtr % ALIGN == 0
      ensures Valid() && this.memSize == memSize && this.heapPtr == heapPtr && fresh(data)
      ensures blocks == [Blk(0, memSize + HDR, false)] && lfree == 0 && used == 0
    {
      this.heapPtr, this.memSize, heapEnd := heapPtr, memSize, memSize + HDR;
      data := new bv8[memSize + 2 * HDR];
      item := map[0 := Item(false, memSize + HDR, 0), memSize + HDR := Item(true, memSize + HDR, memSize + HDR)];
      lfree, used, max := 0, 0, 0;
      blocks := [Blk(0, memSize + HDR, false)];
      new;
      ExtentOne(blocks[0]);
    }

    /** Once everything has been given back, the accounting says so and the heap is one block again. */
    lemma NothingUsed()
      requires Valid() && used == 0
      ensures blocks == [Blk(0, heapEnd, false)] && lfree == 0
    {
      NoExtentNoneUsed(blocks);
      AllFreeIsOneBlock(blocks, heapEnd);
    }

    /** Links `mem` past its successor `nmem`. */
    method Absorb(mem: nat, nmem: nat, ghost i: nat)
      requires Linked() && i + 1 < |blocks| && !blocks[i].used && !blocks[i + 1].used
      requires mem == blocks[i].start && nmem == blocks[i + 1].start
      modifies this`item, this`blocks
      ensures blocks == Join(old(blocks), i) && Linked()
    {
      ghost var was := item;
      JoinTiles(blocks, heapEnd, i);
      Neighbours(item, blocks, heapEnd, i);
      Neighbours(item, blocks, heapEnd, i + 1);
      item := item[mem := item[mem].(next := item[nmem].next)];
      item := item[item[nmem].next := item[item[nmem].next].(prev := mem)];
      JoinSpells(was, item, blocks, heapEnd, i);
      blocks := Join(blocks, i);
    }

    /** The forward half of `plug_holes`. */
    method PlugForward(mem: nat, ghost i: nat)
      requires Linked() && i < |blocks| && blocks[i].start == mem && !blocks[i].used
      requires IsLowestFree(blocks, heapEnd, lfree)
      modifies this`item, this`lfree, this`blocks
      ensures blocks == JoinNext(old(blocks), i) && lfree == old(lfree) && Linked()
    {
      Neighbours(item, blocks, heapEnd, i);
      var nmem := item[mem].next;
      if i + 1 < |blocks| { Neighbours(item, blocks, heapEnd, i + 1); }
      if mem != nmem && !item[nmem].used && nmem != heapEnd {
        lfree := if lfree == nmem then mem else lfree;
        Absorb(mem, nmem, i);
      }
    }

    /** `plug_holes` for the block at `mem`, which is number `i` of the chain. */
    method PlugHoles(mem: nat, ghost i: nat)
      requires Linked() && i < |blocks| && blocks[i].start == mem && CoalescedBut(blocks, i) && !blocks[i].used
      requires IsLowestFree(blocks, heapEnd, lfree)
      modifies this`item, this`lfree, this`blocks
      ensures blocks == Plug(old(blocks), i) && lfree == old(lfree) && Linked()
    {
      JoinNextLowest(blocks, heapEnd, i, lfree);
      PlugForward(mem, i);
      Neighbours(item, blocks, heapEnd, i);
      if i > 0 { Neighbours(item, blocks, heapEnd, i - 1); }
      var pmem := item[mem].prev;
      if pmem != mem && !item[pmem].used {
        lfree := if lfree == mem then pmem else lfree;
        Absorb(pmem, mem, i - 1);
      }
    }

    lemma JoinNextLowest(bs: seq<Blk>, end: nat, i: nat, l: int)
      requires Tiles(bs, end) && i < |bs| && !bs[i].used && IsLowestFree(bs, end, l)
      ensures var r := JoinNext(bs, i); IsLowestFree(r, end, l) && r[i].start == bs[i].start && !r[i].used
    {
      if i + 1 < |bs| && !bs[i + 1].used {
        JoinLowest(bs, end, i, l);
      }
    }

    ghost predicate Allocated(p: nat, i: nat)
      reads this
    {
      i < |blocks| && blocks[i].used && p == blocks[i].start + HDR
    }

    /** Every pointer that is handed out, and not given back yet, is aligned. */
    lemma AllocatedAligned(p: nat, i: nat)
      requires Valid() && Allocated(p, i)
      ensures (heapPtr + p) % ALIGN == 0
    {
      AlignedAddress(blocks, i, heapPtr);
    }

    /** `rt_smem_free` of the pointer handed out for block `i`. */
    method Free(rmem: nat, ghost i: nat)
      requires Valid() && Allocated(rmem, i)
      modifies this
      ensures Valid() && blocks == HeapChain.Free(old(blocks), i)
      ensures used == old(used) - (Payload(old(blocks)[i]) + HDR) && max == old(max)
    {
      var mem := rmem - HDR;
      ghost var bs := blocks;
      Neighbours(item, bs, heapEnd, i);
      MarkSpells(item, bs, heapEnd, i, false);
      MarkKeeps(bs, heapEnd, i, false);
      ExtentOne(bs[i]);
      item := item[mem := item[mem].(used := false)];
      blocks := bs[i := bs[i].(used := false)];
      if mem < lfree {
        lfree := mem;
      }
      FreedLowest(bs, heapEnd, i, old(lfree));
      used := used - (item[mem].next - mem);
      FreedSeparated(bs, i);
      AlignedKept(bs, i, 0);
      PlugKeeps(blocks, heapEnd, i);
      PlugHoles(mem, i);
    }

    /** Finds the next free block at or after `lfree` once the hinted block has been taken. */
    method AdvanceLfree(ghost k0: nat)
      requires Linked() && k0 < |blocks| && blocks[k0].start == lfree
      requires forall j | 0 <= j < k0 :: blocks[j].used
      modifies this`lfree
      ensures IsLowestFree(blocks, heapEnd, lfree)
    {
      ghost var k := k0;
      Neighbours(item, blocks, heapEnd, k);
      while item[lfree].used && lfree != heapEnd
        invariant k <= |blocks| && 0 <= lfree && lfree in item
        invariant lfree == if k < |blocks| then blocks[k].start else heapEnd
        invariant k < |blocks| ==> item[lfree].used == blocks[k].used && lfree < heapEnd
        invariant forall j | 0 <= j < k :: blocks[j].used
        decreases |blocks| - k
      {
        Neighbours(item, blocks, heapEnd, k);
        lfree := item[lfree].next;
        k := k + 1;
        if k < |blocks| { Neighbours(item, blocks, heapEnd, k); }
      }
      Order(blocks, heapEnd);
    }

    /**
     `rt_smem_alloc`: null exactly when nothing was asked for or no free block of the whole heap is
     large enough; otherwise the lowest-addressed fit, cut to size when the rest can stand alone, and
     just the bytes handed out and their header are counted.
     */
    method Alloc(size0: nat) returns (rmem: Option<nat>, ghost k: nat)
      requires Valid()
      modifies this
      ensures Valid()
      ensures rmem.None? <==> size0 == 0 || forall i | 0 <= i < |old(blocks)| :: !Fits(old(blocks)[i], Rounded(size0))
      ensures rmem.None? ==> blocks == old(blocks) && lfree == old(lfree) && used == old(used)
      ensures rmem.Some? ==>
        && IsFirstFit(old(blocks), Rounded(size0), k)
        && blocks == Carve(old(blocks), k, Rounded(size0))
        && Allocated(rmem.value, k) && (heapPtr + rmem.value) % ALIGN == 0
        && Serves(blocks[k], Rounded(size0))
        && used == old(used) + Payload(blocks[k]) + HDR && max == Max(old(max), used)
    {
      hide Tiles;
      if size0 == 0 {
        return None, 0;
      }
      var size := Align(size0);
      if size < MIN_PAYLOAD {
        size := MIN_PAYLOAD;
      }
      if size > memSize {
        Order(blocks, heapEnd);
        return None, 0;
      }
      var ptr;
      ptr, k := FindFit(size);
      if ptr.None? {
        return None, k;
      }
      Take(ptr.value, size, k);
      AlignedAddress(blocks, k, heapPtr);
      return Some(ptr.value + HDR), k;
    }

    /** The search loop, from the hint to the last place where `size` bytes could still begin. */
    method FindFit(size: nat) returns (mem: Option<nat>, ghost k: nat)
      requires Valid() && size <= memSize
      ensures mem.Some? ==> IsFirstFit(blocks, size, k) && mem.value == blocks[k].start
      ensures mem.None? ==> forall i | 0 <= i < |blocks| :: !Fits(blocks[i], size)
    {
      var ptr := lfree;
      k := FreeIndex(blocks, heapEnd, lfree);
      Order(blocks, heapEnd);
      while ptr <= memSize - size
        invariant k <= |blocks| && ptr == if k < |blocks| then blocks[k].start else heapEnd
        invariant forall i | 0 <= i < k :: !Fits(blocks[i], size)
        decreases |blocks| - k
      {
        Neighbours(item, blocks, heapEnd, k);
        if !item[ptr].used && item[ptr].next - (ptr + HDR) >= size {
          return Some(ptr), k;
        }
        ptr := item[ptr].next;
        k := k + 1;
      }
      return None, k;
    }

    /** Where the hint points in the chain; nothing before it is free. */
    lemma FreeIndex(bs: seq<Blk>, end: nat, l: int) returns (k: nat)
      requires Tiles(bs, end) && IsLowestFree(bs, end, l)
      ensures k <= |bs| && l == (if k < |bs| then bs[k].start else end)
      ensures forall i | 0 <= i < k :: bs[i].used
      ensures k < |bs| ==> !bs[k].used
    {
      Order(bs, end);
      if l == end {
        k := |bs|;
      } else {
        k :| 0 <= k < |bs| && !bs[k].used && bs[k].start == l;
      }
    }

    lemma AlignedAddress(bs: seq<Blk>, k: nat, at: nat)
      requires Aligned(bs) && k < |bs| && at % ALIGN == 0
      ensures (at + (bs[k].start + HDR)) % ALIGN == 0
    {
    }

    /** Writes the headers of a block of `size` bytes at `mem`, and of the remainder if there is one. */
    method Cut(mem: nat, size: nat, ghost k: nat) returns (taken: nat)
      requires Linked() && k < |blocks| && mem == blocks[k].start && Fits(blocks[k], size)
      modifies this`item, this`blocks
      ensures Linked() && blocks == Carve(old(blocks), k, size)
      ensures taken == if Carves(old(blocks)[k], size) then size + HDR else old(blocks)[k].end - mem
      ensures k < |blocks| && taken == Payload(blocks[k]) + HDR && Serves(blocks[k], size)
    {
      ghost var bs := blocks;
      CarveTiles(bs, heapEnd, k, size);
      CarveMine(bs, heapEnd, k, size);
      Neighbours(item, bs, heapEnd, k);
      var next := item[mem].next;
      if next - (mem + HDR) >= size + HDR + MIN_PAYLOAD {
        var ptr2 := mem + HDR + size;
        ghost var was := item;
        item := item[ptr2 := Item(false, next, mem)];
        item := item[mem := item[mem].(used := true, next := ptr2)];
        if next != memSize + HDR {
          item := item[next := item[next].(prev := ptr2)];
        }
        SplitSpells(was, item, bs, heapEnd, k, ptr2, true);
        taken := size + HDR;
      } else {
        MarkSpells(item, bs, heapEnd, k, true);
        item := item[mem := item[mem].(used := true)];
        taken := next - mem;
      }
      blocks := Carve(bs, k, size);
    }

    /** Turns free block `k` into a used one of `size` bytes. */
    method Take(mem: nat, size: nat, ghost k: nat)
      requires Valid() && k < |blocks| && mem == blocks[k].start && Fits(blocks[k], size) && size % ALIGN == 0
      modifies this
      ensures Valid() && blocks == Carve(old(blocks), k, size) && Allocated(mem + HDR, k) && Serves(blocks[k], size)
      ensures used == old(used) + Payload(blocks[k]) + HDR && max == Max(old(max), used)
    {
      hide Aligned, Spells, Coalesced, IsLowestFree, Extent;
      ghost var bs := blocks;
      AlignedKept(bs, k, size);
      CarveTiles(bs, heapEnd, k, size);
      CarveExtent(bs, heapEnd, k, size);
      ExtentOne(bs[k]);
      CarveShape(bs, k, size);
      CarveCoalesced(bs, k, size);
      CarveLowest(bs, heapEnd, k, size, lfree);
      var taken := Cut(mem, size, k);
      used := used + taken;
      if max < used {
        max := used;
      }
      if mem == lfree {
        AdvanceLfree(k);
      }
    }

    /** Gives the tail of a used block back, without moving it. */
    method ShrinkBlock(mem: nat, newsize: nat, ghost i: nat)
      requires Valid() && Allocated(mem + HDR, i) && newsize + HDR <= Payload(blocks[i]) && newsize % ALIGN == 0
      modifies this
      ensures Valid() && blocks == Shrink(old(blocks), i, newsize)
      ensures used == old(used) - (Payload(old(blocks)[i]) - newsize) && max == old(max)
    {
      hide Aligned, Tiles;
      AlignedKept(blocks, i, newsize);
      ghost var bs := blocks;
      Neighbours(item, bs, heapEnd, i);
      ShrinkKeeps(bs, heapEnd, i, newsize, lfree);
      var size := item[mem].next - mem - HDR;
      CutTail(mem, newsize, i);
      used := used - (size - newsize);
    }

    method CutTail(mem: nat, newsize: nat, ghost i: nat)
      requires Linked() && Allocated(mem + HDR, i) && newsize + HDR <= Payload(blocks[i])
      requires Coalesced(blocks) && IsLowestFree(blocks, heapEnd, lfree)
      modifies this`item, this`lfree, this`blocks
      ensures Linked() && blocks == Shrink(old(blocks), i, newsize)
      ensures lfree == if mem + HDR + newsize < old(lfree) then mem + HDR + newsize else old(lfree)
    {
      ghost var bs := blocks;
      var ptr2 := mem + HDR + newsize;
      ghost var mid := Split(bs, i, ptr2, true);
      assert Shrink(bs, i, newsize) == Plug(mid, i + 1) by { assert ptr2 == bs[i].start + HDR + newsize; }
      assert Tiles(mid, heapEnd) by { SplitKeeps(bs, heapEnd, i, ptr2, lfree); }
      ShrinkHeaders(mem, ptr2, i);
      assert blocks == mid;
      assert IsLowestFree(blocks, heapEnd, if ptr2 < lfree then ptr2 else lfree) && CoalescedBut(blocks, i + 1) by {
        SplitKeeps(bs, heapEnd, i, ptr2, lfree);
      }
      lfree := if ptr2 < lfree then ptr2 else lfree;
      assert i + 1 < |blocks| && blocks[i + 1] == Blk(ptr2, bs[i].end, false);
      PlugHoles(ptr2, i + 1);
      assert blocks == Plug(mid, i + 1);
    }

    method ShrinkHeaders(mem: nat, ptr2: nat, ghost i: nat)
      requires Linked() && i < |blocks| && mem == blocks[i].start && blocks[i].used
      requires mem + HDR <= ptr2 && ptr2 + HDR <= blocks[i].end
      requires Tiles(Split(blocks, i, ptr2, true), heapEnd)
      modifies this`item, this`blocks
      ensures Linked() && blocks == Split(old(blocks), i, ptr2, true)
    {
      ghost var was := item;
      Neighbours(item, blocks, heapEnd, i);
      var next := item[mem].next;
      item := item[ptr2 := Item(false, next, mem)];
      item := item[mem := item[mem].(next := ptr2)];
      if next != memSize + HDR {
        item := item[next := item[next].(prev := ptr2)];
      }
      SplitSpells(was, item, blocks, heapEnd, i, ptr2, true);
      blocks := Split(blocks, i, ptr2, true);
    }

    /** Copies the contents of block `i` to block `k` and frees block `i`. */
    method CopyAndFree(from: nat, to: nat, n: nat, ghost i: nat, ghost k: nat)
      requires Valid() && Allocated(from, i) && Allocated(to, k) && Apart(blocks[k], blocks[i])
      requires n <= Payload(blocks[i]) && n <= Payload(blocks[k])
      modifies this, data
      ensures Valid() && blocks == HeapChain.Free(old(blocks), i)
      ensures used == old(used) - (Payload(old(blocks)[i]) + HDR)
      ensures Carried(old(data[..]), data[..], from, to, n)
      ensures Outside(old(data[..]), data[..], to, to + n)
    {
      Order(blocks, heapEnd);
      Copy(data, to, from, n);
      ghost var now := data[..];
      Free(from, i);
      assert data[..] == now;
    }

    lemma HeaderFits(bs: seq<Blk>, end: nat, b: Blk)
      requires Tiles(bs, end) && b in bs
      ensures b.start + HDR <= b.end <= end
    {
      Order(bs, end);
    }

    /** Writing within block `mine` alone leaves every other used block's bytes as they were. */
    lemma OthersIntact(bs: seq<Blk>, end: nat, moved: Blk, mine: Blk, to: nat, n: nat, was: seq<bv8>, now: seq<bv8>)
      requires Tiles(bs, end) && end <= |was|
      requires forall b | b in bs && b.used && b != moved :: Apart(mine, b)
      requires n <= Payload(mine) && to == mine.start + HDR && Outside(was, now, to, to + n)
      ensures forall b | b in bs && b.used && b != moved :: Intact(was, now, b)
    {
      hide Tiles, Outside, Intact, Apart;
      forall b | b in bs && b.used && b != moved ensures Intact(was, now, b) {
        HeaderFits(bs, end, b);
        OutsideIntact(was, now, mine, b, n);
      }
    }

    /** Allocate, copy, free: the expanding branch of `rt_smem_realloc`. */
    method Move(rmem: nat, newsize: nat, ghost i: nat) returns (nmem: Option<nat>, ghost k: nat)
      requires Valid() && Allocated(rmem, i) && newsize > 0
      modifies this, data
      ensures Valid()
      ensures nmem.None? <==> CannotGrow(old(blocks), newsize)
      ensures nmem.None? ==> blocks == old(blocks) && used == old(used) && data[..] == old(data[..])
      ensures nmem.Some? ==> Allocated(nmem.value, k) && Serves(blocks[k], Rounded(newsize))
      ensures nmem.Some? ==> used == old(used) - Payload(old(blocks)[i]) + Payload(blocks[k])
      ensures nmem.Some? ==> Carried(old(data[..]), data[..], rmem, nmem.value, Min(Payload(old(blocks)[i]), newsize))
      ensures nmem.Some? ==>
        forall b | b in old(blocks) && b.used && b != old(blocks)[i] :: b in blocks && Intact(old(data[..]), data[..], b)
    {
      hide Spells, Tiles, Coalesced, IsLowestFree, Carried, Outside, Intact, Apart, Carve, HeapChain.Free, Rounded, Align;
      ghost var bs, was := blocks, data[..];
      Neighbours(item, bs, heapEnd, i);
      HeaderFits(bs, heapEnd, bs[i]);
      var size := item[rmem - HDR].next - (rmem - HDR) - HDR;
      nmem, k := Alloc(newsize);
      assert data[..] == was;
      if nmem.Some? {
        ghost var i' := MoveKeeps(bs, heapEnd, i, k, Rounded(newsize));
        ghost var mine := blocks[k];
        var n := if size < newsize then size else newsize;
        CopyAndFree(rmem, nmem.value, n, i', k);
        k :| 0 <= k < |blocks| && blocks[k] == mine;
        OthersIntact(bs, heapEnd, bs[i], mine, nmem.value, n, was, data[..]);
      }
    }

    /** `rt_smem_realloc` of a live block to a size that is aligned, positive and within the heap. */
    method Resize(rmem: nat, newsize: nat, ghost i: nat) returns (nmem: Option<nat>, ghost k: nat)
      requires Valid() && Allocated(rmem, i) && newsize > 0 && newsize % ALIGN == 0
      modifies this, data
      ensures Valid()
      ensures nmem.Some? ==> Allocated(nmem.value, k) && newsize <= Payload(blocks[k])
      ensures nmem.Some? ==> used == old(used) - Payload(old(blocks)[i]) + Payload(blocks[k])
      ensures nmem.Some? ==> Resized(old(blocks)[i], blocks[k], newsize)
      ensures Payload(old(blocks)[i]) == newsize ==> blocks == old(blocks)
      ensures nmem.Some? ==> Carried(old(data[..]), data[..], rmem, nmem.value, Min(Payload(old(blocks)[i]), newsize))
      ensures forall b | b in old(blocks) && b.used && b != old(blocks)[i] :: b in blocks && Intact(old(data[..]), data[..], b)
      ensures nmem.None? ==> blocks == old(blocks) && used == old(used) && data[..] == old(data[..])
      ensures nmem.None? <==>
        && Payload(old(blocks)[i]) != newsize && Payload(old(blocks)[i]) <= newsize + HDR + MIN_RAW
        && CannotGrow(old(blocks), newsize)
    {
      ghost var bs := blocks;
      Order(bs, heapEnd);
      AllIntact(bs, data[..], heapEnd);
      Neighbours(item, bs, heapEnd, i);
      var mem := rmem - HDR;
      var size := item[mem].next - mem - HDR;
      if size == newsize {
        nmem, k := Some(rmem), i;
      } else if newsize + HDR + MIN_RAW < size {
        k := ShrinkInPlace(mem, newsize, i);
        nmem := Some(rmem);
      } else {
        nmem, k := Move(rmem, newsize, i);
      }
    }

    /**
     `rt_smem_realloc`. On success the first min(old, new) bytes of the block are kept, wherever it
     ends up, and every other live block keeps its place and its bytes. A block that has enough to spare
     is cut to just the new size where it is; one of the right size stays as it is.
     */
    method Realloc(rmem: Option<nat>, newsize0: nat, ghost i: nat) returns (nmem: Option<nat>, ghost k: nat)
      requires Valid() && (rmem.Some? ==> Allocated(rmem.value, i))
      modifies this, data
      ensures Valid()
      ensures nmem.Some? ==> Allocated(nmem.value, k) && newsize0 <= Payload(blocks[k])
      ensures nmem.Some? && rmem.None? ==>
        Serves(blocks[k], Rounded(Align(newsize0))) && used == old(used) + Payload(blocks[k]) + HDR
      ensures nmem.Some? && rmem.Some? ==> used == old(used) - Payload(old(blocks)[i]) + Payload(blocks[k])
      ensures nmem.Some? && rmem.Some? ==> Resized(old(blocks)[i], blocks[k], Align(newsize0))
      ensures rmem.Some? && newsize0 > 0 && Payload(old(blocks)[i]) == Align(newsize0) ==> blocks == old(blocks)
      ensures nmem.Some? && rmem.Some? ==>
        Carried(old(data[..]), data[..], rmem.value, nmem.value, Min(Payload(old(blocks)[i]), Align(newsize0)))
      ensures forall b | b in old(blocks) && b.used && (rmem.Some? ==> b != old(blocks)[i]) ::
        b in blocks && Intact(old(data[..]), data[..], b)
      ensures newsize0 == 0 ==>
        && nmem.None? && (blocks == if rmem.Some? then HeapChain.Free(old(blocks), i) else old(blocks))
        && used == old(used) - if rmem.Some? then Payload(old(blocks)[i]) + HDR else 0
      ensures newsize0 > 0 && nmem.None? ==> blocks == old(blocks) && used == old(used) && data[..] == old(data[..])
      ensures newsize0 > 0 && rmem.None? ==> (nmem.None? <==> CannotGrow(old(blocks), Align(newsize0)))
      ensures newsize0 > 0 && rmem.Some? ==> (nmem.None? <==>
        || Align(newsize0) > memSize
        || (&& Payload(old(blocks)[i]) != Align(newsize0) && Payload(old(blocks)[i]) <= Align(newsize0) + HDR + MIN_RAW
            && CannotGrow(old(blocks), Align(newsize0))))
    {
      hide Spells, Tiles, Coalesced, IsLowestFree, Aligned, Carried, Intact, Carve, HeapChain.Free, Rounded, Align, Serves;
      k := i;
      ghost var bs := blocks;
      AllIntact(bs, data[..], heapEnd);
      var newsize := Align(newsize0);
      if newsize > memSize {
        TooLarge(bs, heapEnd, newsize);
        return None, i;
      } else if newsize == 0 {
        if rmem.Some? {
          Free(rmem.value, i);
          forall b | b in bs && b.used && b != bs[i] ensures b in blocks { FreeMembers(bs, i, b); }
        }
        return None, i;
      }
      if rmem.None? {
        nmem, k := Alloc(newsize);
        if nmem.Some? {
          CarveMine(bs, heapEnd, k, Rounded(newsize));
          forall b | b in bs && b.used ensures b in blocks { CarveMembers(bs, k, Rounded(newsize), b); }
        }
        return;
      }
      nmem, k := Resize(rmem.value, newsize, i);
    }

    lemma TooLarge(bs: seq<Blk>, end: nat, size: nat)
      requires Tiles(bs, end) && size + HDR > end
      ensures CannotGrow(bs, size)
    {
      Order(bs, end);
    }

    lemma CarveMine(bs: seq<Blk>, end: nat, k: nat, size: nat)
      requires Tiles(bs, end) && k < |bs| && Fits(bs[k], size)
      ensures k < |Carve(bs, k, size)| && Serves(Carve(bs, k, size)[k], size)
    {
    }

    method ShrinkInPlace(mem: nat, newsize: nat, ghost i: nat) returns (ghost k: nat)
      requires Valid() && Allocated(mem + HDR, i) && newsize + HDR <= Payload(blocks[i]) && newsize % ALIGN == 0
      modifies this
      ensures Valid() && Allocated(mem + HDR, k)
      ensures blocks[k] == Blk(mem, mem + HDR + newsize, true)
      ensures used == old(used) - (Payload(old(blocks)[i]) - newsize)
      ensures forall b | b in old(blocks) && b.used && b != old(blocks)[i] :: b in blocks
    {
      ghost var bs := blocks;
      ShrinkBlock(mem, newsize, i);
      ghost var piece := Blk(bs[i].start, bs[i].start + HDR + newsize, true);
      ShrinkMembers(bs, i, newsize, piece);
      forall b | b in bs && b.used && b != bs[i] ensures b in blocks { ShrinkMembers(bs, i, newsize, b); }
      k :| 0 <= k < |blocks| && blocks[k] == piece;
    }
  }
  /**
   `rt_smem_init` on the `size` bytes from address `begin`, its own object of `own` bytes going first: null
   exactly if there is no room for the two headers behind it, and otherwise a heap that starts at the first
   aligned address behind the object and reaches to the last aligned address of the region.
   */
  method Init(begin: nat, size: nat, own: nat) returns (m: SmallMem?)
    ensures var start, end := Align(begin) + own, (begin + size) / ALIGN * ALIGN;
      && (m == null <==> end < 2 * HDR + 1 || end - 2 * HDR < start)
      && (m != null ==> m.Valid() && fresh(m) && m.heapPtr == Align(start) && m.heapPtr + m.data.Length == end)
  {
    var startAddr := Align(begin) + own;
    var beginAlign := Align(startAddr);
    var endAlign := (begin + size) / ALIGN * ALIGN;
    if endAlign > 2 * HDR && endAlign - 2 * HDR >= startAddr {
      AlignLeast(startAddr, endAlign - 2 * HDR);
      m := new SmallMem(beginAlign, endAlign - beginAlign - 2 * HDR);
    } else {
      m := null;
    }
  }

  /** Rounding up does not pass an aligned address. */
  lemma AlignLeast(n: nat, a: nat)
    requires n <= a && a % ALIGN == 0
    ensures Align(n) <= a && (a - Align(n)) % ALIGN == 0
  {
  }
}
