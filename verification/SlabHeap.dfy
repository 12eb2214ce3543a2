/** Allocation, release and lookup on the slab as a whole: exactly who is live, where, and when a request fails. */
module SlabHeap {
  import opened Common
  import opened SlabPages
  import opened SlabZones
  import opened SlabSpec
  import opened SlabTheorems

  /** Small requests: from the zones of their size, from a cached zone, or from a zone made of new pages. */
  function AllocSmall(s: Slab, i: nat): (Slab, Option<Handle>)
    requires Inv(s) && i < NZONES && 4 * ChunkOf(i) <= s.zonePages * PAGE
  {
    Shape(s);
    if s.lists[i] != [] then
      TakeChunkKeeps(s, i);
      var (r, k) := TakeChunk(s, i);
      (r, Some(Chunk(s.lists[i][0], k)))
    else if s.cached != [] then
      ReuseZoneKeeps(s, i);
      (OpenZone(s.(cached := s.cached[1..]), s.cached[0], i, ChunkOf(i)), Some(Chunk(s.cached[0], 0)))
    else
      var (at, rest) := PageAlloc(s.runs, s.zonePages);
      if at.None? then (s, None)
      else
        AddZoneKeeps(s, i);
        (OpenZone(AddZone(s, at.value, rest), at.value, i, ChunkOf(i)), Some(Chunk(at.value, 0)))
  }

  function PagesFor(size: nat): nat {
    RoundUp(size, PAGE) / PAGE
  }

  /** `rt_slab_alloc` */
  function Alloc(s: Slab, size: nat): (Slab, Option<Handle>)
    requires Inv(s)
  {
    Shape(s);
    if size == 0 then (s, None)
    else if size >= s.limit then
      var (r, at) := TakeRun(s, PagesFor(size));
      (r, if at.Some? then Some(Pages(at.value)) else None)
    else
      SmallFits(s, size);
      AllocSmall(s, ZoneIndex(size).0)
  }

  /** `rt_slab_free` of what handle `h` stands for. */
  function Release(s: Slab, h: Handle): Slab
    requires Inv(s) && Live(s, h)
  {
    match h
    case Pages(l) =>
      GiveRunKeeps(s, l);
      Shape(s);
      GiveRun(s, l)
    case Chunk(z, k) =>
      PutChunkKeeps(s, z, k);
      Shape(PutChunk(s, z, k));
      Settle(PutChunk(s, z, k), z)
  }

  /** Requests below the limit are rounded to chunks of which a zone holds several. */
  lemma SmallFits(s: Slab, size: nat)
    requires Sizes(s) && 0 < size < s.limit
    ensures var (i, c) := ZoneIndex(size);
      i < NZONES && c == ChunkOf(i) && size <= c && 4 * ChunkOf(i) <= s.zonePages * PAGE
  {
    hide ZoneIndex;
    SmallestChunk(size);
    var q := s.zonePages * PAGE / 4;
    var i := ZoneIndex(size).0;
    assert 4 * q <= s.zonePages * PAGE;
    LimitIsChunk(size, s.limit, i, s.zonePages);
  }

  /** The limit is itself one of the chunk sizes, so rounding does not go beyond it. */
  lemma LimitIsChunk(size: nat, limit: nat, i: nat, zonePages: nat)
    requires 0 < size < limit && size < 16384 && i == ZoneIndex(size).0
    requires zonePages * PAGE >= MIN_ZONE_SIZE
    requires limit == if zonePages * PAGE / 4 > ZONE_LIMIT then ZONE_LIMIT else zonePages * PAGE / 4
    ensures ChunkOf(i) <= limit
  {
    hide ZoneIndex;
    SmallestChunk(size);
    assert zonePages >= 8;
    var j := if limit == 16384 then 71 else if limit >= 15360 then 70 else if limit >= 14336 then 69
      else if limit >= 13312 then 68 else if limit >= 12288 then 67 else if limit >= 11264 then 66
      else if limit >= 10240 then 65 else if limit >= 9216 then 64 else 63;
    assert limit == zonePages * 1024 || limit == 16384;
    assert ChunkOf(j) <= limit;
    assert limit == ChunkOf(j);
    assert i <= j;
    if i < j {
      ChunksGrow(i, j);
    }
  }

  // ----- allocation -----

  ghost predicate NoRunOf(s: Slab, n: nat) {
    forall i | 0 <= i < |s.runs| :: s.runs[i].len < n
  }

  /** When a request cannot be met: by the state of the lists it would be met from, and nothing else. */
  ghost predicate Refused(s: Slab, size: nat) {
    || size == 0
    || (size >= s.limit && NoRunOf(s, PagesFor(size)))
    || (0 < size < s.limit && ZoneIndex(size).0 < |s.lists| && s.lists[ZoneIndex(size).0] == [] && s.cached == []
        && NoRunOf(s, s.zonePages))
  }

  lemma PagesEnough(size: nat)
    ensures size <= PagesFor(size) * PAGE < size + PAGE && (size > 0 ==> PagesFor(size) > 0)
  {
    RoundUpBounds(size, PAGE);
    QuotientAndRest(RoundUp(size, PAGE), PAGE);
  }

  /** One more live handle, and nothing else moved. */
  ghost predicate Added(s: Slab, r: Slab, h: Handle) {
    && Inv(r) && !Live(s, h) && Live(r, h) && Unmoved(s, r)
    && (forall g :: Live(r, g) <==> Live(s, g) || g == h)
    && r.used == s.used + Extent(r, h)
  }

  lemma AllocSmallAdds(s: Slab, i: nat)
    requires Inv(s) && i < NZONES && 4 * ChunkOf(i) <= s.zonePages * PAGE
    ensures |s.lists| == NZONES
    ensures var (r, h) := AllocSmall(s, i);
      && (h.None? <==> s.lists[i] == [] && s.cached == [] && NoRunOf(s, s.zonePages))
      && (h.None? ==> r == s)
      && (h.Some? ==> h.value.Chunk? && Added(s, r, h.value) && Extent(r, h.value) == ChunkOf(i))
  {
    hide Territory, ZonesOk, Lists, Sum, Weights, ChunkOf, PageAlloc, Unmoved;
    Shape(s);
    if s.lists[i] != [] {
      TakeChunkKeeps(s, i);
    } else if s.cached != [] {
      ReuseZoneKeeps(s, i);
    } else {
      SortedRuns(s);
      FreeUndoesAlloc(s.runs, s.zonePages);
      if PageAlloc(s.runs, s.zonePages).0.Some? {
        AddZoneKeeps(s, i);
      }
    }
  }

  lemma SortedRuns(s: Slab)
    requires Inv(s)
    ensures Sorted(s.runs) && s.zonePages > 0
  {
  }

  lemma AllocLargeAdds(s: Slab, n: nat)
    requires Inv(s) && n > 0
    ensures |s.usage| == s.pages
    ensures var (r, at) := TakeRun(s, n);
      && (at.None? <==> NoRunOf(s, n)) && (at.None? ==> r == s)
      && (at.Some? ==> Added(s, r, Pages(at.value)) && Extent(r, Pages(at.value)) == n * PAGE)
  {
    hide Territory, ZonesOk, Lists, Sum, Weights, PageAlloc, Unmoved;
    Shape(s);
    SortedRuns(s);
    FreeUndoesAlloc(s.runs, n);
    if PageAlloc(s.runs, n).0.Some? {
      TakeRunKeeps(s, n);
    }
  }

  /**
   An allocation fails exactly when its lists and the pages have nothing for it, and then changes nothing.
   Otherwise there is exactly one more live block, large enough and no larger than it must be (whole pages, or the
   smallest chunk there is), nobody else's place or size has changed, and the bytes in use have grown by its size.
   */
  lemma AllocAdds(s: Slab, size: nat)
    requires Inv(s)
    ensures var (r, h) := Alloc(s, size);
      && (h.None? <==> Refused(s, size)) && (h.None? ==> r == s)
      && (h.Some? ==> Added(s, r, h.value) && size <= Extent(r, h.value) && (h.value.Pages? <==> size >= s.limit))
      && (h.Some? && h.value.Pages? ==> Extent(r, h.value) < size + PAGE)
      && (h.Some? && h.value.Chunk? ==> forall i | 0 <= i < NZONES && size <= ChunkOf(i) :: Extent(r, h.value) <= ChunkOf(i))
  {
    hide Inv, Added, AllocSmall, TakeRun, ZoneIndex, PagesFor, NoRunOf;
    Shape(s);
    if size >= s.limit {
      LimitPositive(s);
      PagesEnough(size);
      AllocLargeAdds(s, PagesFor(size));
      assert Alloc(s, size).0 == TakeRun(s, PagesFor(size)).0;
      assert Alloc(s, size).1.None? <==> TakeRun(s, PagesFor(size)).1.None?;
      assert Refused(s, size) <==> NoRunOf(s, PagesFor(size));
    } else if size > 0 {
      LimitPositive(s);
      SmallFits(s, size);
      AllocSmallAdds(s, ZoneIndex(size).0);
      NoSmallerChunk(size);
    }
  }

  lemma NoSmallerChunk(size: nat)
    requires 0 < size < 16384
    ensures forall i | 0 <= i < NZONES && size <= ChunkOf(i) :: ZoneIndex(size).1 <= ChunkOf(i)
  {
    hide ZoneIndex, ChunkOf;
    SmallestChunk(size);
    var j := ZoneIndex(size).0;
    forall i | 0 <= i < NZONES && size <= ChunkOf(i) ensures ZoneIndex(size).1 <= ChunkOf(i) {
      if j < i {
        ChunksGrow(j, i);
      }
    }
  }

  lemma LimitPositive(s: Slab)
    requires Inv(s)
    ensures s.limit > 0 && Sizes(s)
  {
  }

  // ----- release -----

  /** One live handle less, and nothing else moved. */
  ghost predicate Gone(s: Slab, r: Slab, h: Handle)
    requires Live(s, h)
  {
    && Inv(r) && Unmoved(s, r)
    && (forall g :: Live(r, g) <==> Live(s, g) && g != h)
    && r.used == s.used - Extent(s, h)
  }

  lemma RunLength(s: Slab, l: nat)
    requires Inv(s) && l in s.large
    ensures l < |s.usage| && s.usage[l].size == s.large[l]
  {
  }

  lemma UnmovedTwice(s: Slab, m: Slab, r: Slab)
    requires Unmoved(s, m) && Unmoved(m, r) && forall g :: Live(r, g) ==> Live(m, g)
    ensures Unmoved(s, r)
  {
  }

  /** Releasing a live block takes just it away. */
  lemma ReleaseRemoves(s: Slab, h: Handle)
    requires Inv(s) && Live(s, h)
    ensures Gone(s, Release(s, h), h)
  {
    hide Inv, Unmoved, Settle;
    match h
    case Pages(l) =>
      GiveRunKeeps(s, l);
      RunLength(s, l);
    case Chunk(z, k) =>
      PutChunkKeeps(s, z, k);
      var m := PutChunk(s, z, k);
      Shape(m);
      SettleKeeps(m, z);
      UnmovedTwice(s, m, Settle(m, z));
  }

  // ----- a fresh heap -----

  /** The pages the page map itself takes up, four bytes for every page. */
  function MapPages(pages: nat): nat {
    RoundUp(4 * pages, PAGE) / PAGE
  }

  lemma MapFits(pages: nat)
    requires pages > 0
    ensures 0 < MapPages(pages) <= pages && (pages <= 1024 ==> MapPages(pages) == 1)
  {
    RoundUpBounds(4 * pages, PAGE);
    QuotientAndRest(RoundUp(4 * pages, PAGE), PAGE);
  }

  /** What `rt_slab_init` leaves: the first pages hold the page map, whose entries are not written yet. */
  function Fresh(pages: nat, zonePages: nat, usage: seq<Usage>): Slab {
    Slab(pages, zonePages, if zonePages * PAGE / 4 > ZONE_LIMIT then ZONE_LIMIT else zonePages * PAGE / 4,
      PageAlloc([SlabPages.Run(0, pages)], MapPages(pages)).1, usage, map[], seq(NZONES, _ => []), [], 0,
      seq(pages, p requires 0 <= p => if p < MapPages(pages) then PageMap else Nobody), map[])
  }

  lemma FirstPagesTaken(n: nat)
    requires n > 0
    ensures var r := PageAlloc([SlabPages.Run(0, n)], MapPages(n)).1;
      Sorted(r) && forall p: int :: IsFree(r, p) <==> MapPages(n) <= p < n
  {
    hide PageAlloc;
    var rs := [SlabPages.Run(0, n)];
    MapFits(n);
    AllocKeeps(rs, MapPages(n));
    FreeUndoesAlloc(rs, MapPages(n));
    assert rs[0].len == n;
    FirstRunTaken(n, MapPages(n));
    forall p: int ensures IsFree(rs, p) <==> 0 <= p < n {
      assert InRun(rs[0], p) <==> 0 <= p < n;
    }
  }

  lemma FirstRunTaken(n: nat, m: nat)
    requires 0 < m <= n
    ensures PageAlloc([SlabPages.Run(0, n)], m).0 == Some(0)
    ensures m < n ==> PageAlloc([SlabPages.Run(0, n)], m).1 == [SlabPages.Run(m, n - m)]
  {
    var rs := [SlabPages.Run(0, n)];
    assert rs[0].len >= m;
    assert FirstFit(rs, m) == 0;
  }

  lemma FreshInv(pages: nat, zonePages: nat, usage: seq<Usage>)
    requires pages > 0 && |usage| == pages && zonePages * PAGE >= MIN_ZONE_SIZE
    ensures Inv(Fresh(pages, zonePages, usage))
  {
    hide Sorted, IsFree, PageAlloc, MapPages;
    NothingWeighs(Fresh(pages, zonePages, usage));
    FirstPagesTaken(pages);
  }

  // ----- finding a block's zone from its address -----

  /** The page a pointer lies in, and what the page map says of it: this is all `rt_slab_free` has to go by. */
  lemma LookupFinds(s: Slab, h: Handle)
    requires Inv(s) && Live(s, h)
    ensures h.Chunk? ==> s.zones[h.z].chunkSize > 0
    ensures var p := Address(s, h) / PAGE; p < |s.usage| && match h
      case Pages(l) => p == l && s.usage[p] == Usage(Large, s.large[l])
      case Chunk(z, _) => s.usage[p].kind == Small && p - s.usage[p].size == z
  {
    hide Sorted, IsFree, Sum, Weights;
    match h
    case Pages(l) =>
      RemainderIs(l * PAGE, PAGE, l, 0);
    case Chunk(z, k) =>
      ZoneSizes(s, z);
      ChunkInZone(z, s.zonePages, s.zones[z].chunkSize, k);
      assert Mapped(s.usage, z, s.zonePages);
  }

  lemma ZoneSizes(s: Slab, z: nat)
    requires Inv(s) && z in s.zones
    ensures var c := s.zones[z].chunkSize;
      && 0 < c && 4 * c <= s.zonePages * PAGE && MIN_ZONE_SIZE <= s.zonePages * PAGE
      && Base(c) <= s.zonePages * PAGE
      && s.zones[z].nmax == Capacity(s.zonePages * PAGE, c) && s.zones[z].uindex < s.zones[z].nmax
      && z + s.zonePages <= s.pages && c == ChunkOf(s.zones[z].index) && s.zones[z].index < NZONES
  {
    hide Sorted, IsFree;
    assert ZoneOk(s.zones[z], s.zonePages);
  }

  /** And the chunk's number follows from the address, so a pointer stands for one handle only. */
  lemma NumberFound(z: nat, size: nat, k: nat)
    requires size > 0
    ensures ChunkAt(z, size, k) >= z * PAGE + Base(size)
    ensures (ChunkAt(z, size, k) - z * PAGE - Base(size)) / size == k
  {
    hide Base;
    RemainderIs(k * size, size, k, 0);
  }

  // ----- nothing live overlaps -----

  /** The pages a live block's zone or run takes up. */
  function FirstPage(h: Handle): nat {
    match h
    case Pages(l) => l
    case Chunk(z, _) => z
  }

  function PageCount(s: Slab, h: Handle): nat
    requires Live(s, h)
  {
    match h
    case Pages(l) => s.large[l]
    case Chunk(_, _) => s.zonePages
  }

  function HolderOf(h: Handle): Owner {
    match h
    case Pages(l) => OfLarge(l)
    case Chunk(z, _) => OfZone(z)
  }

  lemma WithinPages(s: Slab, h: Handle)
    requires Inv(s) && Live(s, h)
    ensures h.Chunk? ==> s.zones[h.z].chunkSize > 0
    ensures Held(s.owner, FirstPage(h), PageCount(s, h), HolderOf(h)) && PageCount(s, h) > 0
    ensures FirstPage(h) * PAGE <= Address(s, h)
    ensures Address(s, h) + Extent(s, h) <= (FirstPage(h) + PageCount(s, h)) * PAGE
    ensures h.Chunk? ==> h.z * PAGE + HEADER <= Address(s, h)
  {
    hide Sorted, IsFree, Sum, Weights;
    if h.Chunk? {
      ZoneSizes(s, h.z);
      ChunkInZone(h.z, s.zonePages, s.zones[h.z].chunkSize, h.k);
    }
  }

  lemma PagesToBytes(a: nat, n: nat, b: nat)
    requires a + n <= b
    ensures (a + n) * PAGE <= b * PAGE
  {
  }

  ghost predicate Apart(a: nat, n: nat, b: nat, m: nat) {
    a + n <= b || b + m <= a
  }

  /** Two live blocks never overlap, nor does one overlap a free page, the page map or the header of its zone. */
  lemma LiveApart(s: Slab, g: Handle, h: Handle)
    requires Inv(s) && Live(s, g) && Live(s, h) && g != h
    ensures (g.Chunk? ==> s.zones[g.z].chunkSize > 0) && (h.Chunk? ==> s.zones[h.z].chunkSize > 0)
    ensures Apart(Address(s, g), Extent(s, g), Address(s, h), Extent(s, h))
  {
    hide Inv, Base, ChunkAt;
    WithinPages(s, g);
    WithinPages(s, h);
    if HolderOf(g) == HolderOf(h) {
      var c := s.zones[g.z].chunkSize;
      if g.k < h.k {
        ChunksApart(g.z, c, g.k, h.k);
      } else {
        ChunksApart(g.z, c, h.k, g.k);
      }
    } else {
      Disjoint(s.owner, FirstPage(g), PageCount(s, g), HolderOf(g), FirstPage(h), PageCount(s, h), HolderOf(h));
      if FirstPage(g) + PageCount(s, g) <= FirstPage(h) {
        PagesToBytes(FirstPage(g), PageCount(s, g), FirstPage(h));
      } else {
        PagesToBytes(FirstPage(h), PageCount(s, h), FirstPage(g));
      }
    }
  }

  lemma ClearOfOthers(s: Slab, h: Handle, p: nat)
    requires Inv(s) && Live(s, h) && p < |s.owner| && s.owner[p] in {Nobody, PageMap}
    ensures h.Chunk? ==> s.zones[h.z].chunkSize > 0
    ensures Apart(Address(s, h), Extent(s, h), p * PAGE, PAGE)
    ensures h.Chunk? ==> h.z * PAGE + HEADER <= Address(s, h)
  {
    hide Inv;
    WithinPages(s, h);
    Disjoint(s.owner, FirstPage(h), PageCount(s, h), HolderOf(h), p, 1, s.owner[p]);
    if FirstPage(h) + PageCount(s, h) <= p {
      PagesToBytes(FirstPage(h), PageCount(s, h), p);
    } else {
      PagesToBytes(p, 1, FirstPage(h));
    }
  }

  /**
   In a heap that starts at address `start`, at a page: chunks whose size is a power of two are aligned to it up
   to the page size, and beyond it exactly when their zone's own address is.
   */
  lemma LiveAligned(s: Slab, z: nat, k: nat, start: nat)
    requires Inv(s) && Live(s, Chunk(z, k)) && IsPower(s.zones[z].chunkSize) && start % PAGE == 0
    ensures var c := s.zones[z].chunkSize;
      && c > 0 && (c <= PAGE ==> (start + Address(s, Chunk(z, k))) % c == 0)
      && ((start + Address(s, Chunk(z, k))) % c == 0 <==> (start + z * PAGE) % c == 0)
  {
    hide Inv, ChunkAt;
    ZoneSizes(s, z);
    PowersAlignedFrom(start, z, s.zones[z].chunkSize, k);
  }

  /** The page an allocation will be served from, read off the state before it: its zone's first, or its run's. */
  function PageFor(s: Slab, size: nat): Option<nat>
    requires Inv(s)
  {
    Shape(s);
    if size == 0 then None
    else if size >= s.limit then PageAlloc(s.runs, PagesFor(size)).0
    else
      SmallFits(s, size);
      var i := ZoneIndex(size).0;
      if s.lists[i] != [] then Some(s.lists[i][0])
      else if s.cached != [] then Some(s.cached[0])
      else PageAlloc(s.runs, s.zonePages).0
  }

  /** Which block an allocation returns lies in the page foreseen, and is of the rounded size. */
  lemma ServedFrom(s: Slab, size: nat)
    requires Inv(s)
    ensures var (r, h) := Alloc(s, size);
      && (h.None? <==> PageFor(s, size).None?)
      && (h.Some? ==> Live(r, h.value) && (h.value.Pages? <==> size >= s.limit) && PageFor(s, size) == Some(FirstPage(h.value)))
      && (h.Some? && h.value.Chunk? ==> r.zones[h.value.z].chunkSize == ZoneIndex(size).1)
  {
    hide Inv, ZoneIndex, PagesFor, PageAlloc, Territory, Unmoved;
    Shape(s);
    AllocAdds(s, size);
    LimitPositive(s);
    if size >= s.limit {
      PagesEnough(size);
      TakenAt(s, PagesFor(size));
    } else if size > 0 {
      SmallFits(s, size);
      AllocSmallAdds(s, ZoneIndex(size).0);
    }
  }

  lemma TakenAt(s: Slab, n: nat)
    requires Inv(s) && n > 0
    ensures |s.usage| == s.pages && TakeRun(s, n).1 == PageAlloc(s.runs, n).0
  {
    hide PageAlloc, ZonesOk, Lists;
    if PageAlloc(s.runs, n).0.Some? {
      TakeRunTerritory(s, n);
    }
  }

  /**
   In a heap that starts at address `start`, at a page, the block returned for a power-of-two request is aligned
   to it exactly if the page it will be served from is: always up to the page size, beyond it not always, for
   chunks and page runs alike.
   */
  lemma AllocAligned(s: Slab, size: nat, start: nat)
    requires Inv(s) && IsPower(size) && start % PAGE == 0
    ensures size > 0
    ensures var (r, h) := Alloc(s, size);
      && (h.None? <==> PageFor(s, size).None?)
      && (h.Some? ==> Live(r, h.value) && (h.value.Chunk? ==> r.zones[h.value.z].chunkSize > 0))
      && (h.Some? ==> ((start + Address(r, h.value)) % size == 0 <==> (start + PageFor(s, size).value * PAGE) % size == 0))
      && (h.Some? && size <= PAGE ==> (start + Address(r, h.value)) % size == 0)
  {
    hide Inv, ZoneIndex, ChunkAt, Alloc, PageFor, IsPower;
    LimitPositive(s);
    LimitBounds(s);
    PowerPositive(size);
    ServedFrom(s, size);
    var (r, h) := Alloc(s, size);
    if h.Some? && h.value.Chunk? {
      PowerRequest(start, h.value.z, size, h.value.k);
    }
  }

  lemma LimitBounds(s: Slab)
    requires Sizes(s)
    ensures PAGE < s.limit <= 16384
  {
  }

  lemma PowerPositive(n: nat)
    requires IsPower(n)
    ensures n > 0
  {
  }

  /**
   And it happens: on any fresh heap of 36 KiB to 4 MiB a request of 8000 bytes, rounded to 8192, gets the chunk
   at offset 12288, which is aligned only if the heap itself starts at an odd page.
   */
  lemma FreshMisaligned(pages: nat, usage: seq<Usage>, start: nat)
    requires 9 <= pages <= 1024 && |usage| == pages && start % PAGE == 0
    ensures var s := Fresh(pages, 8, usage);
      Inv(s) && Alloc(s, 8000).1 == Some(Chunk(1, 0))
    ensures var r := Alloc(Fresh(pages, 8, usage), 8000).0;
      && Inv(r) && Live(r, Chunk(1, 0)) && r.zones[1].chunkSize == 8192 && IsPower(8192)
      && Address(r, Chunk(1, 0)) == 12288
      && ((start + Address(r, Chunk(1, 0))) % 8192 == 0 <==> start % 8192 == 4096)
  {
    hide Inv, PageAlloc, Base, Capacity, IsPower, ZoneIndex, MapPages;
    var s := Fresh(pages, 8, usage);
    FreshInv(pages, 8, usage);
    NotAligned();
    MapFits(pages);
    FirstRunTaken(pages, 1);
    SecondRunTaken(pages);
    assert s.limit == 8192;
    AddZoneKeeps(s, 63);
    assert AllocSmall(s, 63).1 == Some(Chunk(1, 0));
    AllocAdds(s, 8000);
    Halves(start);
  }

  /** The same goes for page runs: the first 8192 bytes from such a heap are the two pages behind the page map. */
  lemma FreshRunMisaligned(pages: nat, usage: seq<Usage>, start: nat)
    requires 3 <= pages <= 1024 && |usage| == pages && start % PAGE == 0
    ensures var s := Fresh(pages, 8, usage);
      && Inv(s) && Alloc(s, 8192).1 == Some(Pages(1)) && Live(Alloc(s, 8192).0, Pages(1))
      && ((start + Address(Alloc(s, 8192).0, Pages(1))) % 8192 == 0 <==> start % 8192 == 4096)
  {
    hide Inv, PageAlloc, Base, Capacity, MapPages, Alloc, TakeRun;
    var s := Fresh(pages, 8, usage);
    FreshInv(pages, 8, usage);
    MapFits(pages);
    FirstRunTaken(pages, 1);
    TwoPagesTaken(pages);
    assert s.limit == 8192 && PagesFor(8192) == 2;
    ServedFrom(s, 8192);
    assert PageFor(s, 8192) == Some(1);
    OddPage(start);
  }

  lemma TwoPagesTaken(pages: nat)
    requires 3 <= pages
    ensures PageAlloc([SlabPages.Run(1, pages - 1)], 2).0 == Some(1)
  {
    var rs := [SlabPages.Run(1, pages - 1)];
    assert rs[0].len >= 2;
    assert FirstFit(rs, 2) == 0;
  }

  lemma OddPage(start: nat)
    requires start % 4096 == 0
    ensures (start + 4096) % 8192 == 0 <==> start % 8192 == 4096
  {
    var q, r := start / 8192, start % 8192;
    QuotientAndRest(start, 8192);
    if r == 4096 {
      RemainderIs(start + 4096, 8192, q + 1, 0);
    } else {
      RemainderIs(start + 4096, 8192, q, r + 4096);
    }
  }

  lemma SecondRunTaken(pages: nat)
    requires 9 <= pages
    ensures PageAlloc([SlabPages.Run(1, pages - 1)], 8).0 == Some(1)
  {
    var rs := [SlabPages.Run(1, pages - 1)];
    assert rs[0].len >= 8;
    assert FirstFit(rs, 8) == 0;
  }

  lemma Halves(start: nat)
    requires start % 4096 == 0
    ensures (start + 12288) % 8192 == 0 <==> start % 8192 == 4096
  {
  }

  // ----- what the counters mean -----

  /** The live chunks of a zone are as many as its counters say. */
  lemma LiveCount(s: Slab, z: nat)
    requires Inv(s) && z in s.zones && z !in s.cached
    ensures var zone := s.zones[z];
      && zone.nfree <= zone.nmax
      && |LiveChunks(s, z)| == zone.nmax - zone.nfree
      && forall k: nat :: k in LiveChunks(s, z) <==> Live(s, Chunk(z, k))
  {
    hide Territory, Lists, Sum, Weights;
    var zone := s.zones[z];
    FreeAtMostAll(zone, s.zonePages);
    CountLess(zone.uindex + 1, zone.freeChunks);
    assert LiveChunks(s, z) == UpTo(zone.uindex + 1) - Elements(zone.freeChunks);
  }

  function LiveChunks(s: Slab, z: nat): (r: set<nat>)
    requires z in s.zones
  {
    set k: nat | k <= s.zones[z].uindex && k !in s.zones[z].freeChunks
  }

  function Elements(xs: seq<nat>): set<nat> {
    set x | x in xs
  }

  lemma CountLess(n: nat, xs: seq<nat>)
    requires NoDup(xs) && forall i | 0 <= i < |xs| :: xs[i] < n
    ensures |UpTo(n) - Elements(xs)| == n - |xs|
  {
    var all, gone := UpTo(n), Elements(xs);
    ElementsOf(xs, gone);
    assert gone <= all;
    assert |all - gone| == |all| - |gone|;
  }

  function UpTo(n: nat): (r: set<nat>)
    ensures |r| == n && forall k: nat :: k in r <==> k < n
  {
    if n == 0 then {} else UpTo(n - 1) + {n - 1}
  }

  lemma {:induction false} ElementsOf(xs: seq<nat>, r: set<nat>)
    requires NoDup(xs) && forall x: nat :: x in r <==> x in xs
    ensures |r| == |xs|
  {
    if xs == [] {
      assert r == {};
    } else {
      assert xs[0] !in xs[1..];
      assert forall x :: x in xs <==> x == xs[0] || x in xs[1..];
      ElementsOf(xs[1..], r - {xs[0]});
    }
  }

  lemma {:induction false} AllZero(w: seq<nat>)
    requires forall i | 0 <= i < |w| :: w[i] == 0
    ensures Sum(w) == 0
  {
    if w != [] {
      AllZero(w[1..]);
    }
  }

  lemma {:induction false} SumAtLeast(w: seq<nat>, i: nat)
    requires i < |w|
    ensures Sum(w) >= w[i]
  {
    if i > 0 {
      SumAtLeast(w[1..], i - 1);
    }
  }

  lemma NothingWeighs(s: Slab)
    requires s.zones == map[] && s.large == map[]
    ensures Sum(Weights(s)) == 0
  {
    AllZero(Weights(s));
  }

  lemma LiveWeighs(s: Slab, h: Handle)
    requires Inv(s) && Live(s, h)
    ensures FirstPage(h) < s.pages && Weight(s, FirstPage(h)) > 0
  {
    hide Inv, LiveChunks;
    Shape(s);
    WithinPages(s, h);
    match h
    case Pages(l) =>
      RunLength(s, l);
      OneMore(s.large[l] - 1, PAGE);
    case Chunk(z, k) =>
      ZoneSizes(s, z);
      LiveCount(s, z);
      NotInLarge(s, z);
      assert k in LiveChunks(s, z);
      var zone := s.zones[z];
      OneMore(zone.nmax - zone.nfree - 1, zone.chunkSize);
  }

  lemma NotInLarge(s: Slab, z: nat)
    requires Inv(s) && z in s.zones
    ensures z !in s.large
  {
    hide Territory;
    ZonePlace(s, z);
  }

  lemma DeadWeighsNothing(s: Slab, p: nat)
    requires Inv(s) && forall h :: !Live(s, h)
    ensures Weight(s, p) == 0
  {
    hide Inv, LiveChunks;
    assert !Live(s, Pages(p));
    if p in s.zones {
      if p in s.cached {
        CachedIsFree(s, p);
      } else {
        LiveCount(s, p);
        assert LiveChunks(s, p) == {} by {
          forall k: nat ensures k !in LiveChunks(s, p) {
            assert !Live(s, Chunk(p, k));
          }
        }
      }
    }
  }

  lemma CachedIsFree(s: Slab, z: nat)
    requires Inv(s) && z in s.zones && z in s.cached
    ensures s.zones[z].nfree == s.zones[z].nmax
  {
    hide Territory, ZonesOk, Sum, Weights;
    assert Listed(s, z);
  }

  /** No byte is counted as used exactly when nothing is allocated. */
  lemma UsedMeansLive(s: Slab)
    requires Inv(s)
    ensures s.used == 0 <==> forall h :: !Live(s, h)
  {
    hide Territory, ZonesOk, Lists, Sum, Weight, Live;
    if h :| Live(s, h) {
      LiveWeighs(s, h);
      SumAtLeast(Weights(s), FirstPage(h));
    } else {
      forall p: nat | p < s.pages ensures Weights(s)[p] == 0 {
        DeadWeighsNothing(s, p);
      }
      AllZero(Weights(s));
    }
  }

  // ----- runs -----

  datatype Op = Allocate(size: nat) | Free(h: Handle)

  ghost predicate Follows(s: Slab, op: Op, r: Slab) {
    Inv(s) ==> match op
      case Allocate(size) => r == Alloc(s, size).0
      case Free(h) => Live(s, h) && r == Release(s, h)
  }

  ghost predicate Run(trace: seq<Slab>, ops: seq<Op>) {
    && |trace| == |ops| + 1 && Inv(trace[0])
    && forall i | 0 <= i < |ops| :: Follows(trace[i], ops[i], trace[i + 1])
  }

  /** Over any run of allocations and releases the whole invariant holds. */
  lemma {:induction false} RunSafe(trace: seq<Slab>, ops: seq<Op>, k: nat)
    requires Run(trace, ops) && k <= |ops|
    ensures Inv(trace[k])
    decreases k
  {
    hide Inv, Alloc, Release;
    if k > 0 {
      RunSafe(trace, ops, k - 1);
      assert Follows(trace[k - 1], ops[k - 1], trace[k]);
      match ops[k - 1]
      case Allocate(size) => AllocAdds(trace[k - 1], size);
      case Free(h) => ReleaseRemoves(trace[k - 1], h);
    }
  }

  /** A block stays where it is, and stays allocated, until it is released. */
  lemma {:induction false} StaysPut(trace: seq<Slab>, ops: seq<Op>, h: Handle, k: nat)
    requires Run(trace, ops) && k <= |ops| && Live(trace[0], h)
    requires forall i | 0 <= i < k :: ops[i] != Free(h)
    ensures Live(trace[k], h) && Extent(trace[k], h) == Extent(trace[0], h)
    ensures h.Chunk? ==> trace[k].zones[h.z].chunkSize == trace[0].zones[h.z].chunkSize
    decreases k
  {
    hide Inv, Alloc, Release;
    if k > 0 {
      RunSafe(trace, ops, k - 1);
      StaysPut(trace, ops, h, k - 1);
      assert Follows(trace[k - 1], ops[k - 1], trace[k]);
      match ops[k - 1]
      case Allocate(size) => AllocAdds(trace[k - 1], size);
      case Free(g) => ReleaseRemoves(trace[k - 1], g);
    }
  }
}
