/**
 The small-memory heap seen from outside: an address-ordered chain of blocks that tiles the heap.
 Offsets are bytes from `heap_ptr`; a block's extent includes its header.
 */
module HeapChain {
  const ALIGN: nat := 8      // RT_ALIGN_SIZE
  const HDR: nat := 16       // SIZEOF_STRUCT_MEM on a 32-bit core
  const MIN_RAW: nat := 12   // MIN_SIZE
  const MIN_PAYLOAD: nat := 16  // MIN_SIZE_ALIGNED

  datatype Blk = Blk(start: nat, end: nat, used: bool)

  function Align(size: nat): (r: nat)
    ensures size <= r < size + ALIGN && r % ALIGN == 0
  {
    (size + ALIGN - 1) / ALIGN * ALIGN
  }

  /** What a request is rounded up to. */
  function Rounded(size: nat): (r: nat)
    ensures size <= r && MIN_PAYLOAD <= r && r % ALIGN == 0
  {
    if Align(size) < MIN_PAYLOAD then MIN_PAYLOAD else Align(size)
  }

  function Payload(b: Blk): int {
    b.end - b.start - HDR
  }

  /** Headers and payloads fill the heap from 0 to `end` without gap or overlap. */
  ghost predicate Tiles(bs: seq<Blk>, end: nat) {
    && bs != [] && bs[0].start == 0 && bs[|bs| - 1].end == end
    && (forall i | 0 <= i < |bs| :: bs[i].start + HDR <= bs[i].end)
    && (forall i | 0 <= i < |bs| - 1 :: Meets(bs, i))
  }

  ghost predicate Meets(bs: seq<Blk>, i: nat)
    requires i + 1 < |bs|
  {
    bs[i].end == bs[i + 1].start
  }

  ghost predicate Ordered(bs: seq<Blk>) {
    forall i, j | 0 <= i < j < |bs| :: bs[i].end <= bs[j].start
  }

  lemma {:induction false} TilesOrdered(bs: seq<Blk>, end: nat, n: nat)
    requires Tiles(bs, end) && n <= |bs|
    ensures forall i, j | 0 <= i < j < n :: bs[i].end <= bs[j].start
    decreases n
  {
    if n > 1 {
      TilesOrdered(bs, end, n - 1);
      assert Meets(bs, n - 2);
    }
  }

  lemma Order(bs: seq<Blk>, end: nat)
    requires Tiles(bs, end)
    ensures Ordered(bs)
    ensures forall i | 0 <= i < |bs| :: bs[i].end <= end
  {
    TilesOrdered(bs, end, |bs|);
  }

  ghost predicate Aligned(bs: seq<Blk>) {
    forall i | 0 <= i < |bs| :: bs[i].start % ALIGN == 0
  }

  ghost predicate Coalesced(bs: seq<Blk>) {
    forall i | 0 <= i < |bs| - 1 :: Separated(bs, i)
  }

  ghost predicate Separated(bs: seq<Blk>, i: nat)
    requires i + 1 < |bs|
  {
    bs[i].used || bs[i + 1].used
  }

  /** Bytes, headers included, of the used blocks. */
  function Extent(bs: seq<Blk>): int {
    if bs == [] then 0 else (if bs[0].used then bs[0].end - bs[0].start else 0) + Extent(bs[1..])
  }

  lemma {:induction false} ExtentConcat(a: seq<Blk>, b: seq<Blk>)
    ensures Extent(a + b) == Extent(a) + Extent(b)
  {
    if a == [] {
      assert a + b == b;
    } else {
      assert (a + b)[1..] == a[1..] + b;
      ExtentConcat(a[1..], b);
    }
  }

  lemma ExtentSplice(a: seq<Blk>, mid: seq<Blk>, b: seq<Blk>)
    ensures Extent(a + mid + b) == Extent(a) + Extent(mid) + Extent(b)
  {
    ExtentConcat(a + mid, b);
    ExtentConcat(a, mid);
  }

  /** `l` is the first free block, or the end of the heap when there is none. */
  ghost predicate IsLowestFree(bs: seq<Blk>, end: nat, l: int) {
    && (forall i | 0 <= i < |bs| && !bs[i].used :: l <= bs[i].start)
    && (l == end || exists i | 0 <= i < |bs| :: !bs[i].used && bs[i].start == l)
  }

  ghost predicate Fits(b: Blk, size: nat) {
    !b.used && size <= Payload(b)
  }

  /** Block `b` is large enough for `size` bytes, and what it has beyond them could not stand alone. */
  ghost predicate Serves(b: Blk, size: nat) {
    size <= Payload(b) < size + HDR + MIN_PAYLOAD
  }

  ghost predicate IsFirstFit(bs: seq<Blk>, size: nat, k: nat) {
    k < |bs| && Fits(bs[k], size) && forall i | 0 <= i < k :: !Fits(bs[i], size)
  }

  // ----- the three ways the chain changes -----

  /** Two pieces in place of block `i`. */
  function Split(bs: seq<Blk>, i: nat, at: nat, used: bool): seq<Blk>
    requires i < |bs|
  {
    bs[..i] + [Blk(bs[i].start, at, used), Blk(at, bs[i].end, false)] + bs[i + 1..]
  }

  function Carves(b: Blk, size: nat): bool {
    Payload(b) >= size + HDR + MIN_PAYLOAD
  }

  /** Taking `size` bytes out of free block `i`. */
  function Carve(bs: seq<Blk>, i: nat, size: nat): seq<Blk>
    requires i < |bs|
  {
    if Carves(bs[i], size) then Split(bs, i, bs[i].start + HDR + size, true)
    else bs[i := bs[i].(used := true)]
  }

  function Join(bs: seq<Blk>, i: nat): seq<Blk>
    requires i + 1 < |bs|
  {
    bs[..i] + [Blk(bs[i].start, bs[i + 1].end, false)] + bs[i + 2..]
  }

  function JoinNext(bs: seq<Blk>, i: nat): (r: seq<Blk>)
    requires i < |bs|
    ensures i < |r|
  {
    if i + 1 < |bs| && !bs[i + 1].used then Join(bs, i) else bs
  }

  function JoinPrev(bs: seq<Blk>, i: nat): seq<Blk>
    requires i < |bs|
  {
    if i > 0 && !bs[i - 1].used then Join(bs, i - 1) else bs
  }

  /** `plug_holes`: a block that has just become free swallows a free successor, then a free predecessor. */
  function Plug(bs: seq<Blk>, i: nat): seq<Blk>
    requires i < |bs|
  {
    JoinPrev(JoinNext(bs, i), i)
  }

  function Free(bs: seq<Blk>, i: nat): seq<Blk>
    requires i < |bs|
  {
    Plug(bs[i := bs[i].(used := false)], i)
  }

  // ----- what they keep -----

  lemma SplitTiles(bs: seq<Blk>, end: nat, i: nat, at: nat, used: bool)
    requires Tiles(bs, end) && i < |bs|
    requires bs[i].start + HDR <= at && at + HDR <= bs[i].end
    ensures Tiles(Split(bs, i, at, used), end)
  {
    var r := Split(bs, i, at, used);
    forall j | 0 <= j < |r| - 1 ensures Meets(r, j) {
      if j < i - 1 || j > i + 1 {
        var j' := if j < i then j else j - 1;
        assert Meets(bs, j');
      } else if j == i - 1 {
        assert Meets(bs, j);
      } else if j == i + 1 {
        assert Meets(bs, i);
      }
    }
  }

  lemma ExtentOne(b: Blk)
    ensures Extent([b]) == if b.used then b.end - b.start else 0
  {
    assert [b][1..] == [];
  }

  /** Replacing block `i` by `mid`. */
  lemma ExtentReplace(bs: seq<Blk>, i: nat, mid: seq<Blk>)
    requires i < |bs|
    ensures Extent(bs[..i] + mid + bs[i + 1..]) == Extent(bs) - Extent([bs[i]]) + Extent(mid)
  {
    assert bs == bs[..i] + [bs[i]] + bs[i + 1..];
    ExtentSplice(bs[..i], mid, bs[i + 1..]);
    ExtentSplice(bs[..i], [bs[i]], bs[i + 1..]);
  }

  lemma SplitExtent(bs: seq<Blk>, i: nat, at: nat, used: bool)
    requires i < |bs|
    ensures Extent(Split(bs, i, at, used)) == Extent(bs) - Extent([bs[i]]) + (if used then at - bs[i].start else 0)
  {
    var p, q := Blk(bs[i].start, at, used), Blk(at, bs[i].end, false);
    ExtentReplace(bs, i, [p, q]);
    ExtentConcat([p], [q]);
    assert [p] + [q] == [p, q];
    ExtentOne(p);
    ExtentOne(q);
  }

  lemma MarkKeeps(bs: seq<Blk>, end: nat, i: nat, used: bool)
    requires Tiles(bs, end) && i < |bs|
    ensures Tiles(bs[i := bs[i].(used := used)], end)
    ensures Extent(bs[i := bs[i].(used := used)]) == Extent(bs) - Extent([bs[i]]) + (if used then bs[i].end - bs[i].start else 0)
  {
    var b := bs[i].(used := used);
    var r := bs[i := b];
    forall j | 0 <= j < |bs| - 1 ensures Meets(r, j) {
      assert Meets(bs, j);
    }
    assert bs[i := b] == bs[..i] + [b] + bs[i + 1..];
    ExtentReplace(bs, i, [b]);
    ExtentOne(b);
  }

  lemma JoinTiles(bs: seq<Blk>, end: nat, i: nat)
    requires Tiles(bs, end) && i + 1 < |bs|
    ensures Tiles(Join(bs, i), end)
  {
    var r := Join(bs, i);
    assert Meets(bs, i);
    forall j | 0 <= j < |r| - 1 ensures Meets(r, j) {
      var j' := if j < i then j else j + 1;
      assert Meets(bs, j');
    }
  }

  lemma JoinExtent(bs: seq<Blk>, i: nat)
    requires i + 1 < |bs| && !bs[i].used && !bs[i + 1].used
    ensures Extent(Join(bs, i)) == Extent(bs)
  {
    var one := Blk(bs[i].start, bs[i + 1].end, false);
    assert bs[..i] + [one] + bs[i + 1..][1..] == Join(bs, i);
    ExtentSplice(bs[..i], [one], bs[i + 2..]);
    ExtentOne(one);
    assert bs == bs[..i] + [bs[i]] + bs[i + 1..];
    ExtentSplice(bs[..i], [bs[i]], bs[i + 1..]);
    ExtentOne(bs[i]);
    assert bs[i + 1..][1..] == bs[i + 2..];
  }

  lemma JoinLowest(bs: seq<Blk>, end: nat, i: nat, l: int)
    requires Tiles(bs, end) && i + 1 < |bs| && !bs[i].used && !bs[i + 1].used && IsLowestFree(bs, end, l)
    ensures IsLowestFree(Join(bs, i), end, l)
  {
    var r := Join(bs, i);
    Order(bs, end);
    forall j | 0 <= j < |r| && !r[j].used ensures l <= r[j].start {
      assert r[j].start == bs[if j <= i then j else j + 1].start;
    }
    if l != end {
      var j :| 0 <= j < |bs| && !bs[j].used && bs[j].start == l;
      assert j != i + 1;
      var k := if j <= i then j else j - 1;
      assert !r[k].used && r[k].start == l;
    }
  }

  /** Free neighbours occur at most next to block `i`. */
  ghost predicate CoalescedBut(bs: seq<Blk>, i: nat) {
    forall j | 0 <= j < |bs| - 1 && j != i && j + 1 != i :: Separated(bs, j)
  }

  lemma JoinNextCoalesced(bs: seq<Blk>, i: nat)
    requires i < |bs| && !bs[i].used && CoalescedBut(bs, i)
    ensures var r := JoinNext(bs, i); !r[i].used && CoalescedBut(r, i) && (i + 1 < |r| ==> r[i + 1].used)
  {
    if i + 1 < |bs| && !bs[i + 1].used {
      var r := Join(bs, i);
      assert i + 1 < |r| ==> r[i + 1] == bs[i + 2] && Separated(bs, i + 1);
      forall j | 0 <= j < |r| - 1 && j != i && j + 1 != i ensures Separated(r, j) {
        var j' := if j < i then j else j + 1;
        assert Separated(bs, j');
      }
    }
  }

  lemma JoinPrevCoalesced(r: seq<Blk>, i: nat)
    requires i < |r| && !r[i].used && CoalescedBut(r, i) && (i + 1 < |r| ==> r[i + 1].used)
    ensures Coalesced(JoinPrev(r, i))
  {
    var p := JoinPrev(r, i);
    if i > 0 && !r[i - 1].used {
      forall j | 0 <= j < |p| - 1 ensures Separated(p, j) {
        if j < i - 2 || j >= i {
          var j' := if j < i then j else j + 1;
          assert Separated(r, j');
        } else if j == i - 2 {
          assert Separated(r, j);
        }
      }
    }
  }

  lemma JoinKeeps(bs: seq<Blk>, end: nat, i: nat)
    requires Tiles(bs, end) && i + 1 < |bs| && !bs[i].used && !bs[i + 1].used
    ensures Tiles(Join(bs, i), end) && Extent(Join(bs, i)) == Extent(bs)
    ensures forall l :: IsLowestFree(bs, end, l) ==> IsLowestFree(Join(bs, i), end, l)
  {
    JoinTiles(bs, end, i);
    JoinExtent(bs, i);
    forall l | IsLowestFree(bs, end, l) ensures IsLowestFree(Join(bs, i), end, l) {
      JoinLowest(bs, end, i, l);
    }
  }

  /** A block that has just been freed may be the lowest free one. */
  lemma FreedLowest(bs: seq<Blk>, end: nat, i: nat, l: int)
    requires i < |bs| && IsLowestFree(bs, end, l) && (l == end ==> bs[i].start <= l)
    ensures IsLowestFree(bs[i := bs[i].(used := false)], end, if bs[i].start < l then bs[i].start else l)
  {
    var r := bs[i := bs[i].(used := false)];
    assert !r[i].used && r[i].start == bs[i].start;
    if l < bs[i].start {
      var j :| 0 <= j < |bs| && !bs[j].used && bs[j].start == l;
      assert !r[j].used && r[j].start == l;
    }
  }

  lemma FreedSeparated(bs: seq<Blk>, i: nat)
    requires i < |bs| && Coalesced(bs)
    ensures CoalescedBut(bs[i := bs[i].(used := false)], i)
  {
    var r := bs[i := bs[i].(used := false)];
    forall j | 0 <= j < |r| - 1 && j != i && j + 1 != i ensures Separated(r, j) {
      assert Separated(bs, j);
    }
  }

  lemma PlugKeeps(bs: seq<Blk>, end: nat, i: nat)
    requires Tiles(bs, end) && i < |bs| && !bs[i].used && CoalescedBut(bs, i)
    ensures Tiles(Plug(bs, i), end) && Coalesced(Plug(bs, i))
    ensures Extent(Plug(bs, i)) == Extent(bs)
    ensures forall l :: IsLowestFree(bs, end, l) ==> IsLowestFree(Plug(bs, i), end, l)
  {
    var r := JoinNext(bs, i);
    JoinNextCoalesced(bs, i);
    if i + 1 < |bs| && !bs[i + 1].used {
      JoinKeeps(bs, end, i);
    }
    JoinPrevCoalesced(r, i);
    if i > 0 && !r[i - 1].used {
      JoinKeeps(r, end, i - 1);
    }
  }

  lemma CarveCoalesced(bs: seq<Blk>, k: nat, size: nat)
    requires Coalesced(bs) && k < |bs| && Fits(bs[k], size)
    ensures Coalesced(Carve(bs, k, size))
  {
    var r := Carve(bs, k, size);
    forall j | 0 <= j < |r| - 1 ensures Separated(r, j) {
      if j < k - 1 || !Carves(bs[k], size) {
        assert Separated(bs, j);
      } else if j > k {
        assert Separated(bs, j - 1);
      }
    }
  }

  /** Taking any other block than the hinted one leaves the hint right. */
  lemma CarveLowest(bs: seq<Blk>, end: nat, k: nat, size: nat, l: int)
    requires Tiles(bs, end) && IsLowestFree(bs, end, l) && k < |bs| && Fits(bs[k], size)
    ensures bs[k].start != l ==> IsLowestFree(Carve(bs, k, size), end, l)
    ensures bs[k].start == l ==> forall j | 0 <= j < k :: bs[j].used
  {
    Order(bs, end);
    if bs[k].start != l {
      var r := Carve(bs, k, size);
      CarveShape(bs, k, size);
      assert l < bs[k].start;
      var j :| 0 <= j < |bs| && !bs[j].used && bs[j].start == l;
      assert j < k && r[j] == bs[j];
      CarveAbove(bs, end, k, size, l);
    }
  }

  lemma CarveAbove(bs: seq<Blk>, end: nat, k: nat, size: nat, l: int)
    requires Tiles(bs, end) && k < |bs| && l < bs[k].start
    requires forall i | 0 <= i < |bs| && !bs[i].used :: l <= bs[i].start
    ensures var r := Carve(bs, k, size); forall i | 0 <= i < |r| && !r[i].used :: l <= r[i].start
  {
    var r := Carve(bs, k, size);
    if Carves(bs[k], size) {
      forall i | 0 <= i < |r| && !r[i].used ensures l <= r[i].start {
        if i < k {
          assert r[i] == bs[i];
        } else if i > k + 1 {
          assert r[i] == bs[i - 1];
        }
      }
    }
  }

  lemma CarveTiles(bs: seq<Blk>, end: nat, k: nat, size: nat)
    requires Tiles(bs, end) && k < |bs| && Fits(bs[k], size)
    ensures Tiles(Carve(bs, k, size), end)
  {
    if Carves(bs[k], size) {
      SplitTiles(bs, end, k, bs[k].start + HDR + size, true);
    } else {
      MarkKeeps(bs, end, k, true);
    }
  }

  lemma CarveExtent(bs: seq<Blk>, end: nat, k: nat, size: nat)
    requires Tiles(bs, end) && k < |bs| && Fits(bs[k], size)
    ensures Extent(Carve(bs, k, size)) ==
      Extent(bs) - Extent([bs[k]]) + (if Carves(bs[k], size) then size + HDR else bs[k].end - bs[k].start)
  {
    hide Extent;
    if Carves(bs[k], size) {
      SplitExtent(bs, k, bs[k].start + HDR + size, true);
    } else {
      MarkKeeps(bs, end, k, true);
    }
  }

  lemma CarveShape(bs: seq<Blk>, k: nat, size: nat)
    requires k < |bs|
    ensures k < |Carve(bs, k, size)| && Carve(bs, k, size)[k].used
    ensures Carve(bs, k, size)[k].start == bs[k].start
    ensures forall j | 0 <= j < k :: Carve(bs, k, size)[j] == bs[j]
  {
  }

  // ----- who stays -----

  lemma CarveMembers(bs: seq<Blk>, k: nat, size: nat, b: Blk)
    requires k < |bs| && !bs[k].used && b in bs && b.used
    ensures b in Carve(bs, k, size)
  {
    var j :| 0 <= j < |bs| && bs[j] == b;
    var r := Carve(bs, k, size);
    if j < k {
      assert r[j] == b;
    } else if Carves(bs[k], size) {
      assert r[j + 1] == b;
    } else {
      assert r[j] == b;
    }
  }

  lemma JoinMembers(bs: seq<Blk>, i: nat, b: Blk)
    requires i + 1 < |bs| && !bs[i].used && !bs[i + 1].used && b in bs && b.used
    ensures b in Join(bs, i)
  {
    var j :| 0 <= j < |bs| && bs[j] == b;
    var r := Join(bs, i);
    assert r[if j < i then j else j - 1] == b;
  }

  lemma PlugMembers(bs: seq<Blk>, i: nat, b: Blk)
    requires i < |bs| && !bs[i].used && b in bs && b.used
    ensures b in Plug(bs, i)
  {
    var r := JoinNext(bs, i);
    if i + 1 < |bs| && !bs[i + 1].used {
      JoinMembers(bs, i, b);
    }
    if i > 0 && !r[i - 1].used {
      JoinMembers(r, i - 1, b);
    }
  }

  /** Freeing block `i` keeps every other used block as it is. */
  lemma FreeMembers(bs: seq<Blk>, i: nat, b: Blk)
    requires i < |bs| && b in bs && b.used && b != bs[i]
    ensures b in Free(bs, i)
  {
    var j :| 0 <= j < |bs| && bs[j] == b;
    var r := bs[i := bs[i].(used := false)];
    assert r[j] == b;
    PlugMembers(r, i, b);
  }

  // ----- shrinking in place -----

  /** Cutting used block `i` down to `newsize` payload bytes. */
  function Shrink(bs: seq<Blk>, i: nat, newsize: nat): seq<Blk>
    requires i < |bs|
  {
    Plug(Split(bs, i, bs[i].start + HDR + newsize, true), i + 1)
  }

  lemma SplitLowest(bs: seq<Blk>, end: nat, i: nat, at: nat, l: int)
    requires Tiles(bs, end) && i < |bs| && bs[i].used && IsLowestFree(bs, end, l)
    requires bs[i].start < at < bs[i].end
    ensures IsLowestFree(Split(bs, i, at, true), end, if at < l then at else l)
  {
    Order(bs, end);
    var r := Split(bs, i, at, true);
    assert !r[i + 1].used && r[i + 1].start == at;
    forall j | 0 <= j < |r| && !r[j].used ensures (if at < l then at else l) <= r[j].start {
      if j < i {
        assert r[j] == bs[j];
      } else if j > i + 1 {
        assert r[j] == bs[j - 1];
      }
    }
    if l <= at {
      var j :| 0 <= j < |bs| && !bs[j].used && bs[j].start == l;
      assert j < i && r[j] == bs[j];
    }
  }

  lemma SplitCoalesced(bs: seq<Blk>, i: nat, at: nat)
    requires Coalesced(bs) && i < |bs|
    ensures CoalescedBut(Split(bs, i, at, true), i + 1)
  {
    var r := Split(bs, i, at, true);
    forall j | 0 <= j < |r| - 1 && j != i + 1 && j + 1 != i + 1 ensures Separated(r, j) {
      if j < i - 1 {
        assert Separated(bs, j);
      } else if j > i + 1 {
        assert Separated(bs, j - 1);
      }
    }
  }

  /** The first piece and every other used block survive a shrink. */
  lemma ShrinkMembers(bs: seq<Blk>, i: nat, newsize: nat, b: Blk)
    requires i < |bs| && bs[i].used && b.used
    requires b == Blk(bs[i].start, bs[i].start + HDR + newsize, true) || (b in bs && b != bs[i])
    ensures b in Shrink(bs, i, newsize)
  {
    var at := bs[i].start + HDR + newsize;
    var r := Split(bs, i, at, true);
    if b == Blk(bs[i].start, at, true) {
      assert r[i] == b;
    } else {
      var j :| 0 <= j < |bs| && bs[j] == b;
      assert r[if j < i then j else j + 1] == b;
    }
    PlugMembers(r, i + 1, b);
  }

  lemma SplitKeeps(bs: seq<Blk>, end: nat, i: nat, at: nat, l: int)
    requires Tiles(bs, end) && Coalesced(bs) && i < |bs| && bs[i].used && IsLowestFree(bs, end, l)
    requires bs[i].start + HDR <= at && at + HDR <= bs[i].end
    ensures var r := Split(bs, i, at, true);
      && Tiles(r, end) && CoalescedBut(r, i + 1) && IsLowestFree(r, end, if at < l then at else l)
      && Extent(r) == Extent(bs) - (bs[i].end - at)
  {
    SplitTiles(bs, end, i, at, true);
    SplitExtent(bs, i, at, true);
    ExtentOne(bs[i]);
    SplitLowest(bs, end, i, at, l);
    SplitCoalesced(bs, i, at);
  }

  lemma ShrinkKeeps(bs: seq<Blk>, end: nat, i: nat, newsize: nat, l: int)
    requires Tiles(bs, end) && Coalesced(bs) && i < |bs| && bs[i].used && IsLowestFree(bs, end, l)
    requires newsize + HDR <= Payload(bs[i])
    ensures var r := Shrink(bs, i, newsize); var at := bs[i].start + HDR + newsize;
      && Tiles(r, end) && Coalesced(r) && IsLowestFree(r, end, if at < l then at else l)
      && Extent(r) == Extent(bs) - (Payload(bs[i]) - newsize)
  {
    hide JoinNext, JoinPrev, Split, Tiles, Coalesced, CoalescedBut, IsLowestFree, Extent;
    var at := bs[i].start + HDR + newsize;
    var s := Split(bs, i, at, true);
    SplitKeeps(bs, end, i, at, l);
    SplitTail(bs, i, at);
    PlugKeeps(s, end, i + 1);
  }

  lemma SplitTail(bs: seq<Blk>, i: nat, at: nat)
    requires i < |bs|
    ensures i + 1 < |Split(bs, i, at, true)| && !Split(bs, i, at, true)[i + 1].used
  {
  }

  ghost predicate Apart(a: Blk, b: Blk) {
    a.end <= b.start || b.end <= a.start
  }

  lemma MembersApart(bs: seq<Blk>, end: nat, a: Blk, b: Blk)
    requires Tiles(bs, end) && a in bs && b in bs && a != b
    ensures Apart(a, b) && a.end <= end
  {
    Order(bs, end);
    var i :| 0 <= i < |bs| && bs[i] == a;
    var j :| 0 <= j < |bs| && bs[j] == b;
  }

  /** Allocating a new block for `i` and then freeing `i`: where everything is in between. */
  lemma MoveKeeps(bs: seq<Blk>, end: nat, i: nat, k: nat, size: nat) returns (i': nat)
    requires Tiles(bs, end) && i < |bs| && bs[i].used && k < |bs| && Fits(bs[k], size)
    ensures var mid := Carve(bs, k, size);
      && i' < |mid| && mid[i'] == bs[i]
      && k < |mid| && mid[k].start == bs[k].start && size <= Payload(mid[k]) && mid[k].end <= end
      && Apart(mid[k], bs[i]) && mid[k].used && mid[k] in Free(mid, i')
      && forall b | b in bs && b.used && b != bs[i] :: b in Free(mid, i') && Apart(mid[k], b) && b.end <= end
  {
    var mid := Carve(bs, k, size);
    CarveShape(bs, k, size);
    CarveMembers(bs, k, size, bs[i]);
    i' :| 0 <= i' < |mid| && mid[i'] == bs[i];
    MoveOther(bs, end, k, size, bs[i]);
    FreeMembers(mid, i', mid[k]);
    forall b | b in bs && b.used && b != bs[i] ensures b in Free(mid, i') && Apart(mid[k], b) && b.end <= end {
      MoveOther(bs, end, k, size, b);
      FreeMembers(mid, i', b);
    }
  }

  lemma MoveOther(bs: seq<Blk>, end: nat, k: nat, size: nat, b: Blk)
    requires Tiles(bs, end) && k < |bs| && Fits(bs[k], size) && b in bs && b.used
    ensures var mid := Carve(bs, k, size);
      && b in mid && k < |mid| && size <= Payload(mid[k]) && mid[k].end <= end
      && b != mid[k] && Apart(mid[k], b) && b.end <= end
  {
    var mid := Carve(bs, k, size);
    CarveTiles(bs, end, k, size);
    CarveShape(bs, k, size);
    CarveMembers(bs, k, size, b);
    MembersApart(bs, end, b, bs[k]);
    assert mid[k] in mid;
    assert b != mid[k] by { assert bs[k].start + HDR <= bs[k].end; }
    MembersApart(mid, end, mid[k], b);
  }

  /** Freeing what an allocation has just taken gives the very chain it started from. */
  lemma FreeUndoesAlloc(bs: seq<Blk>, end: nat, i: nat, size: nat)
    requires Tiles(bs, end) && Coalesced(bs) && i < |bs| && Fits(bs[i], size)
    ensures i < |Carve(bs, i, size)| && Free(Carve(bs, i, size), i) == bs
  {
    var c := Carve(bs, i, size);
    var f := c[i := c[i].(used := false)];
    if Carves(bs[i], size) {
      assert c[i + 1] == Blk(bs[i].start + HDR + size, bs[i].end, false);
      assert f[..i] == bs[..i] && f[i + 2..] == bs[i + 1..];
      assert JoinNext(f, i) == bs;
    } else {
      assert f == bs;
    }
    assert i + 1 < |bs| ==> Separated(bs, i);
    assert 0 < i ==> Separated(bs, i - 1);
  }

  lemma NoLongFreeRun(bs: seq<Blk>)
    requires Coalesced(bs) && |bs| > 1
    ensures bs[0].used || bs[1].used
  {
    assert Separated(bs, 0);
  }

  /** With nothing allocated the heap is one free block again. */
  lemma AllFreeIsOneBlock(bs: seq<Blk>, end: nat)
    requires Tiles(bs, end) && Coalesced(bs)
    requires forall i | 0 <= i < |bs| :: !bs[i].used
    ensures bs == [Blk(0, end, false)] && Extent(bs) == 0
    ensures forall l :: IsLowestFree(bs, end, l) ==> l == 0
  {
    if |bs| > 1 {
      NoLongFreeRun(bs);
    }
  }

  /** The hint is a function of the chain, so an undone chain has the same hint. */
  lemma LowestFreeUnique(bs: seq<Blk>, end: nat, l: int, l': int)
    requires Tiles(bs, end) && IsLowestFree(bs, end, l) && IsLowestFree(bs, end, l')
    ensures l == l'
  {
    Order(bs, end);
    if l != end {
      var i :| 0 <= i < |bs| && !bs[i].used && bs[i].start == l;
    }
    if l' != end {
      var i :| 0 <= i < |bs| && !bs[i].used && bs[i].start == l';
    }
  }

  /** Live payloads never overlap each other nor any header. */
  lemma PayloadsDisjoint(bs: seq<Blk>, end: nat, i: nat, j: nat, x: nat)
    requires Tiles(bs, end) && i < |bs| && j < |bs|
    requires bs[i].start + HDR <= x < bs[i].end
    ensures !(bs[j].start <= x < bs[j].start + HDR)
    ensures i != j ==> !(bs[j].start + HDR <= x < bs[j].end)
    ensures x < end
  {
    Order(bs, end);
  }

  /** Every block, and so every pointer handed out, stays 8-byte aligned. */
  lemma AlignedKept(bs: seq<Blk>, i: nat, size: nat)
    requires Aligned(bs) && i < |bs| && size % ALIGN == 0
    ensures Fits(bs[i], size) ==> Aligned(Carve(bs, i, size))
    ensures Aligned(Free(bs, i)) && Aligned(Shrink(bs, i, size))
  {
    hide Aligned, Split, Plug, Fits;
    var at := bs[i].start + HDR + size;
    AlignedCut(bs, i, size);
    SplitAligned(bs, i, at, true);
    MarkAligned(bs, i, true);
    MarkAligned(bs, i, false);
    PlugAligned(bs[i := bs[i].(used := false)], i);
    SplitTail(bs, i, at);
    PlugAligned(Split(bs, i, at, true), i + 1);
  }

  lemma AlignedCut(bs: seq<Blk>, i: nat, size: nat)
    requires Aligned(bs) && i < |bs| && size % ALIGN == 0
    ensures (bs[i].start + HDR + size) % ALIGN == 0
  {
    assert bs[i].start + HDR + size == bs[i].start + 8 * (2 + size / 8);
  }

  lemma MarkAligned(bs: seq<Blk>, i: nat, used: bool)
    requires Aligned(bs) && i < |bs|
    ensures Aligned(bs[i := bs[i].(used := used)])
  {
  }

  lemma PlugAligned(bs: seq<Blk>, i: nat)
    requires Aligned(bs) && i < |bs|
    ensures Aligned(Plug(bs, i))
  {
    assert Aligned(JoinNext(bs, i));
  }

  lemma SplitAligned(bs: seq<Blk>, i: nat, at: nat, used: bool)
    requires Aligned(bs) && i < |bs| && at % ALIGN == 0
    ensures Aligned(Split(bs, i, at, used))
  {
  }

  lemma {:induction false} NoExtentNoneUsed(bs: seq<Blk>)
    requires forall i | 0 <= i < |bs| :: bs[i].start + HDR <= bs[i].end
    ensures Extent(bs) >= 0
    ensures Extent(bs) == 0 ==> forall i | 0 <= i < |bs| :: !bs[i].used
  {
    if bs == [] {
    } else {
      NoExtentNoneUsed(bs[1..]);
      assert forall i | 1 <= i < |bs| :: bs[i] == bs[1..][i - 1];
    }
  }
}
