/** The slab allocator code: page list, page map, zone headers and zone lists updated in place. */
module SlabAllocator {
  import opened Common
  import opened Bytes
  import opened SlabPages
  import opened SlabZones
  import opened SlabSpec
  import SlabTheorems
  import SlabHeap

  lemma {:induction false} FirstFitIs(rs: seq<Run>, n: nat, k: nat)
    requires k <= |rs| && (forall i | 0 <= i < k :: rs[i].len < n) && (k < |rs| ==> rs[k].len >= n)
    ensures FirstFit(rs, n) == k
  {
    if k > 0 {
      FirstFitIs(rs[1..], n, k - 1);
    }
  }

  const MAX_ZONE_SIZE: nat := 131072

  /** The loop of `rt_slab_init` that picks a zone size for a heap of `limsize` bytes. */
  method PickZoneSize(limsize: nat) returns (zoneSize: nat)
    ensures zoneSize in {MIN_ZONE_SIZE, 2 * MIN_ZONE_SIZE, MAX_ZONE_SIZE}
    ensures zoneSize == MAX_ZONE_SIZE || 2 * zoneSize >= limsize / 1024
    ensures zoneSize > MIN_ZONE_SIZE ==> zoneSize < limsize / 1024
  {
    zoneSize := MIN_ZONE_SIZE;
    while zoneSize < MAX_ZONE_SIZE && zoneSize * 2 < limsize / 1024
      invariant zoneSize in {MIN_ZONE_SIZE, 2 * MIN_ZONE_SIZE, MAX_ZONE_SIZE}
      invariant zoneSize > MIN_ZONE_SIZE ==> zoneSize < limsize / 1024
      decreases MAX_ZONE_SIZE - zoneSize
    {
      zoneSize := zoneSize * 2;
    }
  }

  class Allocator {
    const heapStart: nat          // heap_start, as an address
    const pages: nat
    const zonePages: nat          // zone_page_cnt
    const zoneLimit: nat
    const data: array<bv8>        // the bytes from heap_start on
    const memusage: array<Usage>
    var pageList: seq<Run>
    var zones: map<nat, Zone>     // the headers in the zones, by the zone's first page
    var zoneArray: seq<seq<nat>>
    var zoneFree: seq<nat>
    var zoneFreeCnt: nat
    var used: int
    var max: int
    ghost var owner: seq<Owner>
    ghost var large: map<nat, nat>

    ghost function State(): Slab
      reads this, memusage
    {
      Slab(pages, zonePages, zoneLimit, pageList, memusage[..], zones, zoneArray, zoneFree, used, owner, large)
    }

    ghost predicate Valid()
      reads this, memusage
    {
      Inv(State()) && zoneFreeCnt == |zoneFree| && used <= max && data.Length == pages * PAGE
      && heapStart % PAGE == 0 && (data as object) != (memusage as object)
    }

    /** The end of `rt_slab_init`, on `pages` whole pages. */
    constructor (heapStart: nat, pages: nat)
      requires pages > 0 && heapStart % PAGE == 0
      ensures Valid() && this.heapStart == heapStart && this.pages == pages && fresh(data) && fresh(memusage)
      ensures State() == SlabHeap.Fresh(pages, zonePages, memusage[..])
      ensures zonePages == 8 || zonePages * PAGE < pages * PAGE / 1024
      ensures forall h :: !Live(State(), h)
    {
      SlabHeap.MapFits(pages);
      var zoneSize := PickZoneSize(pages * PAGE);
      this.heapStart, this.pages := heapStart, pages;
      zonePages := zoneSize / PAGE;
      zoneLimit := if zoneSize / 4 > ZONE_LIMIT then ZONE_LIMIT else zoneSize / 4;
      data := new bv8[pages * PAGE];
      memusage := new Usage[pages];
      pageList := SlabPages.PageAlloc([SlabPages.Run(0, pages)], SlabHeap.MapPages(pages)).1;
      zones, zoneArray, zoneFree, zoneFreeCnt := map[], seq(NZONES, _ => []), [], 0;
      used, max := 0, 0;
      owner := seq(pages, p requires 0 <= p => if p < SlabHeap.MapPages(pages) then PageMap else Nobody);
      large := map[];
      new;
      assert zonePages * PAGE == zoneSize;
      SlabHeap.FreshInv(pages, zonePages, memusage[..]);
    }

    // ----- pages -----

    /** `rt_slab_page_alloc` */
    method PageAlloc(npages: nat) returns (at: Option<nat>)
      modifies this`pageList
      ensures (at, pageList) == SlabPages.PageAlloc(old(pageList), npages)
    {
      if npages == 0 {
        return None;
      }
      var k := 0;
      while k < |pageList|
        invariant k <= |pageList| && pageList == old(pageList)
        invariant forall i | 0 <= i < k :: pageList[i].len < npages
      {
        var b := pageList[k];
        if b.len > npages {
          FirstFitIs(pageList, npages, k);
          pageList := pageList[k := SlabPages.Run(b.at + npages, b.len - npages)];
          return Some(b.at);
        }
        if b.len == npages {
          FirstFitIs(pageList, npages, k);
          pageList := pageList[..k] + pageList[k + 1..];
          return Some(b.at);
        }
        k := k + 1;
      }
      FirstFitIs(pageList, npages, k);
      at := None;
    }

    /** `rt_slab_page_free` */
    method PageFree(n: nat, npages: nat)
      requires npages > 0
      modifies this`pageList
      ensures pageList == SlabPages.PageFree(old(pageList), n, npages)
    {
      ghost var rs := pageList;
      var k := 0;
      while k < |pageList|
        invariant k <= |pageList| && pageList == rs
        invariant SlabPages.PageFree(rs, n, npages) == FreeFrom(rs, k, n, npages)
      {
        var b := pageList[k];
        if b.at + b.len == n {
          if k + 1 < |pageList| && b.at + (b.len + npages) == pageList[k + 1].at {
            pageList := pageList[..k] + [SlabPages.Run(b.at, b.len + npages + pageList[k + 1].len)] + pageList[k + 2..];
          } else {
            pageList := pageList[..k] + [SlabPages.Run(b.at, b.len + npages)] + pageList[k + 1..];
          }
          return;
        }
        if b.at == n + npages {
          pageList := pageList[..k] + [SlabPages.Run(n, npages + b.len)] + pageList[k + 1..];
          return;
        }
        if b.at > n + npages {
          break;
        }
        k := k + 1;
      }
      pageList := pageList[..k] + [SlabPages.Run(n, npages)] + pageList[k..];
    }

    /** The loop that describes a new zone's pages. */
    method DescribeZone(z: nat)
      requires z + zonePages <= memusage.Length
      modifies memusage
      ensures memusage[..] == MarkZone(old(memusage[..]), z, zonePages)
    {
      var off := 0;
      while off < zonePages
        invariant off <= zonePages
        invariant forall p | 0 <= p < memusage.Length ::
          memusage[p] == if z <= p < z + off then Usage(Small, p - z) else old(memusage[p])
      {
        memusage[z + off] := Usage(Small, off);
        off := off + 1;
      }
    }

    method ForgetZone(z: nat)
      requires z + zonePages <= memusage.Length
      modifies memusage
      ensures memusage[..] == UnmarkZone(old(memusage[..]), z, zonePages)
    {
      var i := 0;
      while i < zonePages
        invariant i <= zonePages
        invariant forall p | 0 <= p < memusage.Length ::
          memusage[p] == if z <= p < z + i then Usage(FreePage, 0) else old(memusage[p])
      {
        memusage[z + i] := Usage(FreePage, 0);
        i := i + 1;
      }
    }

    method Count(bytes: int)
      modifies this`used, this`max
      ensures used == old(used) + bytes && max == Max(old(max), used)
    {
      used := used + bytes;
      if used > max {
        max := used;
      }
    }

    // ----- alloc -----

    /** The pointer is that of live handle `h`. */
    ghost predicate IsAt(ptr: Option<nat>, h: Handle)
      reads this, memusage
    {
      && Live(State(), h) && (h.Chunk? ==> State().zones[h.z].chunkSize > 0)
      && ptr == Some(Address(State(), h))
    }

    /** The part of `rt_slab_alloc` for large requests. */
    method AllocLarge(size0: nat) returns (chunk: Option<nat>)
      requires Valid() && size0 > 0
      modifies this, memusage
      ensures var (r, at) := TakeRun(old(State()), SlabHeap.PagesFor(size0));
        && State() == r && (chunk.None? <==> at.None?) && (at.Some? ==> chunk == Some(at.value * PAGE))
      ensures Valid()
    {
      hide Inv, Sum, SlabPages.PageAlloc;
      ghost var s := State();
      SlabTheorems.Shape(s);
      var n := RoundUp(size0, PAGE) / PAGE;
      SlabHeap.PagesEnough(size0);
      SlabHeap.AllocLargeAdds(s, n);
      LargeInHeap(s, n);
      SlabHeap.SortedRuns(s);
      FreeUndoesAlloc(pageList, n);
      var at := PageAlloc(n);
      if at.None? {
        return None;
      }
      memusage[at.value] := Usage(Large, n);
      Count(n * PAGE);
      owner, large := Claim(owner, at.value, n, OfLarge(at.value)), large[at.value := n];
      assert State() == TakeRun(s, n).0;
      return Some(at.value * PAGE);
    }

    lemma LargeInHeap(s: Slab, n: nat)
      requires Inv(s) && n > 0
      ensures var at := SlabPages.PageAlloc(s.runs, n).0; at.Some? ==> at.value + n <= s.pages
    {
      hide Sum, Weights, SlabPages.PageAlloc;
      AllocKeeps(s.runs, n);
      var at := SlabPages.PageAlloc(s.runs, n).0;
      if at.Some? {
        assert IsFree(s.runs, at.value + n - 1);
      }
    }

    /** A chunk from the first zone on list `zi`. */
    method AllocFromZone(zi: nat) returns (chunk: nat, ghost k: nat)
      requires Valid() && zi < NZONES && zoneArray[zi] != []
      requires zoneArray[zi][0] in zones && zones[zoneArray[zi][0]].nfree > 0
      requires var zone := zones[zoneArray[zi][0]]; zone.uindex + 1 == zone.nmax ==> zone.freeChunks != []
      modifies this
      ensures (State(), k) == TakeChunk(old(State()), zi) && Valid()
      ensures var z := old(zoneArray)[zi][0]; zones[z].chunkSize > 0 && chunk == ChunkAt(z, zones[z].chunkSize, k)
    {
      hide Inv, Base, Sum, ChunkAt;
      ghost var s := State();
      SlabTheorems.Shape(s);
      SlabTheorems.TakeChunkKeeps(s, zi);
      var z := zoneArray[zi][0];
      var zone := zones[z];
      zone := zone.(nfree := zone.nfree - 1);
      if zone.nfree == 0 {
        zoneArray := zoneArray[zi := zoneArray[zi][1..]];
      } else {
        assert zoneArray[zi := zoneArray[zi]] == zoneArray;
      }
      var number;
      if zone.uindex + 1 != zone.nmax {
        zone := zone.(uindex := zone.uindex + 1);
        number := zone.uindex;
      } else {
        number := zone.freeChunks[0];
        zone := zone.(freeChunks := zone.freeChunks[1..]);
      }
      zones := zones[z := zone];
      Count(zone.chunkSize);
      k := number;
      chunk := ChunkAt(z, zone.chunkSize, number);
    }

    /** A zone to set up: a cached one, or new pages, described in the page map. */
    method ObtainZone() returns (z: Option<nat>)
      requires Valid()
      modifies this, memusage
      ensures old(zoneFree) != [] ==>
        z == Some(old(zoneFree)[0]) && State() == old(State()).(cached := old(zoneFree)[1..])
      ensures old(zoneFree) == [] ==> var (at, rest) := SlabPages.PageAlloc(old(pageList), zonePages);
        z == at && State() == if at.None? then old(State()) else AddZone(old(State()), at.value, rest)
      ensures zoneFreeCnt == |zoneFree| && max == old(max)
    {
      hide Inv, SlabPages.PageAlloc;
      ghost var s := State();
      SlabTheorems.Shape(s);
      if zoneFree != [] {
        z := Some(zoneFree[0]);
        zoneFree := zoneFree[1..];
        zoneFreeCnt := zoneFreeCnt - 1;
      } else {
        SlabHeap.SortedRuns(s);
        LargeInHeap(s, zonePages);
        FreeUndoesAlloc(pageList, zonePages);
        z := PageAlloc(zonePages);
        if z.Some? {
          DescribeZone(z.value);
          owner := Claim(owner, z.value, zonePages, OfZone(z.value));
        }
      }
    }

    /** A chunk from a zone that is set up for it. */
    method AllocFromNewZone(zi: nat, size: nat) returns (chunk: Option<nat>)
      requires Valid() && zi < NZONES && zoneArray[zi] == [] && size == ChunkOf(zi) && 4 * size <= zonePages * PAGE
      modifies this, memusage
      ensures var (r, h) := SlabHeap.AllocSmall(old(State()), zi);
        State() == r && (chunk.None? <==> h.None?) && (h.Some? ==> IsAt(chunk, h.value))
      ensures Valid()
    {
      hide Inv, SlabPages.PageAlloc, Base, Capacity, Sum, ChunkAt, SlabHeap.NoRunOf, SlabTheorems.Unmoved, ChunkOf;
      ghost var s := State();
      SlabTheorems.Shape(s);
      SlabHeap.AllocSmallAdds(s, zi);
      if zoneFree != [] {
        SlabTheorems.ReuseZoneKeeps(s, zi);
      }
      var got := ObtainZone();
      if got.None? {
        return None;
      }
      var z := got.value;
      if s.cached == [] {
        SlabTheorems.AddZoneKeeps(s, zi);
      }
      var nmax := Capacity(zonePages * PAGE, size);
      zones := zones[z := Zone(nmax - 1, nmax, 0, size, zi, [])];
      zoneArray := zoneArray[zi := [z] + zoneArray[zi]];
      Count(size);
      return Some(ChunkAt(z, size, 0));
    }

    /**
     `rt_slab_alloc`. By `SlabHeap.AllocAdds` it fails exactly when the lists and the pages have nothing for
     the request, and otherwise adds one live block and disturbs no other.
     */
    method Alloc(size: nat) returns (chunk: Option<nat>, ghost h: Option<Handle>)
      requires Valid()
      modifies this, memusage
      ensures Valid() && (State(), h) == SlabHeap.Alloc(old(State()), size)
      ensures (chunk.None? <==> h.None?) && (h.Some? ==> IsAt(chunk, h.value))
    {
      hide Inv, SlabHeap.AllocSmall, TakeRun, ZoneIndex, Sum, SlabHeap.PagesFor;
      ghost var s := State();
      SlabTheorems.Shape(s);
      SlabHeap.LimitPositive(s);
      h := SlabHeap.Alloc(s, size).1;
      if size == 0 {
        return None, None;
      }
      if size >= zoneLimit {
        SlabHeap.AllocAdds(s, size);
        ghost var at := TakeRun(s, SlabHeap.PagesFor(size)).1;
        assert SlabHeap.Alloc(s, size).1 == if at.Some? then Some(Pages(at.value)) else None;
        chunk := AllocLarge(size);
        return;
      }
      SlabHeap.SmallFits(s, size);
      var (zi, rounded) := ZoneIndex(size);
      SlabHeap.AllocSmallAdds(s, zi);
      if zoneArray[zi] != [] {
        SlabTheorems.TakeChunkKeeps(s, zi);
        var c; ghost var k;
        c, k := AllocFromZone(zi);
        ExistingZone(s, zi);
        return Some(c), h;
      }
      chunk := AllocFromNewZone(zi, rounded);
    }

    lemma ExistingZone(s: Slab, i: nat)
      requires Inv(s) && i < NZONES && 4 * ChunkOf(i) <= s.zonePages * PAGE && |s.lists| == NZONES && s.lists[i] != []
      requires s.lists[i][0] in s.zones && s.zones[s.lists[i][0]].nfree > 0
      requires var zone := s.zones[s.lists[i][0]]; zone.uindex + 1 == zone.nmax ==> zone.freeChunks != []
      ensures var (r, k) := TakeChunk(s, i);
        SlabHeap.AllocSmall(s, i) == (r, Some(Chunk(s.lists[i][0], k)))
    {
      hide Inv;
    }

    // ----- free -----

    /** The part of `rt_slab_free` for large runs. */
    method FreeLarge(l: nat)
      requires Valid() && l in large
      modifies this, memusage
      ensures Valid() && State() == SlabHeap.Release(old(State()), Pages(l))
    {
      hide Inv, SlabPages.PageFree, Sum;
      ghost var s := State();
      SlabTheorems.Shape(s);
      SlabHeap.ReleaseRemoves(s, Pages(l));
      SlabHeap.RunLength(s, l);
      SlabHeap.WithinPages(s, Pages(l));
      var size := memusage[l].size;
      memusage[l] := memusage[l].(size := 0);
      used := used - size * PAGE;
      PageFree(l, size);
      owner, large := Claim(owner, l, size, Nobody), large - {l};
      assert State() == GiveRun(s, l);
    }

    /** Puts chunk number `k` back on its zone's list, and the zone back on the list of its size. */
    method FreeChunk(z: nat, k: nat)
      requires Valid() && Live(State(), Chunk(z, k))
      modifies this
      ensures z in old(zones) && old(zones)[z].index < NZONES == |old(zoneArray)|
      ensures State() == PutChunk(old(State()), z, k) && Valid()
    {
      hide Inv;
      ghost var s := State();
      SlabTheorems.PutChunkKeeps(s, z, k);
      var zone := zones[z];
      used := used - zone.chunkSize;
      zones := zones[z := zone.(nfree := zone.nfree + 1, freeChunks := [k] + zone.freeChunks)];
      if zone.nfree == 0 {
        zoneArray := zoneArray[zone.index := [z] + zoneArray[zone.index]];
      }
    }

    /** The search for a zone's place in its list, and its removal. */
    method Unlist(z: nat, i: nat)
      requires i < |zoneArray| && z in zoneArray[i]
      modifies this`zoneArray
      ensures zoneArray == old(zoneArray)[i := Remove(old(zoneArray)[i], z)]
    {
      ghost var list := zoneArray[i];
      var pz := 0;
      assert list[0..] == list;
      while zoneArray[i][pz] != z
        invariant pz < |list| && zoneArray == old(zoneArray) && z in list[pz..]
        invariant forall j | 0 <= j < pz :: list[j] != z
        decreases |list| - pz
      {
        assert list[pz..] == [list[pz]] + list[pz + 1..];
        pz := pz + 1;
      }
      RemoveFirst(list, z, pz);
      zoneArray := zoneArray[i := zoneArray[i][..pz] + zoneArray[i][pz + 1..]];
    }

    lemma {:induction false} RemoveFirst(xs: seq<nat>, x: nat, k: nat)
      requires k < |xs| && xs[k] == x && forall j | 0 <= j < k :: xs[j] != x
      ensures Remove(xs, x) == xs[..k] + xs[k + 1..]
    {
      if k > 0 {
        RemoveFirst(xs[1..], x, k - 1);
        assert xs[..k] + xs[k + 1..] == [xs[0]] + (xs[1..][..k - 1] + xs[1..][k..]);
      } else {
        assert xs[..0] + xs[1..] == xs[1..];
      }
    }

    /** Gives the zone at the head of the cache back to the page allocator. */
    method EvictZone()
      requires zoneFree != [] && zoneFreeCnt == |zoneFree| && zoneFree[0] in zones && zonePages > 0
      requires zoneFree[0] + zonePages <= memusage.Length
      modifies this, memusage
      ensures State() == Evict(old(State())) && zoneFreeCnt == |zoneFree| && used == old(used) && max == old(max)
    {
      hide SlabPages.PageFree;
      var z := zoneFree[0];
      zoneFree := zoneFree[1..];
      zoneFreeCnt := zoneFreeCnt - 1;
      ForgetZone(z);
      PageFree(z, zonePages);
      owner, zones := Claim(owner, z, zonePages, Nobody), zones - {z};
    }

    /** The end of `rt_slab_free`: a wholly free zone that is not the last of its size leaves the list. */
    method SettleZone(z: nat)
      requires Valid() && z in zones && z !in zoneFree && zones[z].index < |zoneArray| && zones[z].nfree > 0
      modifies this, memusage
      ensures State() == Settle(old(State()), z) && Valid()
    {
      hide Inv, Evict;
      ghost var s := State();
      SlabTheorems.Shape(s);
      SlabTheorems.SettleKeeps(s, z);
      InItsList(s, z);
      var i := zones[z].index;
      if zones[z].nfree == zones[z].nmax && zoneArray[i] != [z] {
        Unlist(z, i);
        zoneFree := [z] + zoneFree;
        zoneFreeCnt := zoneFreeCnt + 1;
        assert State() == Cache(s, z);
        if zoneFreeCnt > CACHED_ZONES {
          EvictZone();
        }
      }
    }

    lemma InItsList(s: Slab, z: nat)
      requires Inv(s) && z in s.zones && z !in s.cached && s.zones[z].nfree > 0
      ensures |s.lists| == NZONES && s.zones[z].index < NZONES && z in s.lists[s.zones[z].index]
      ensures z + s.zonePages <= s.pages && s.zonePages > 0
    {
      hide Sum, Weights, Sorted, IsFree;
      SlabHeap.ZoneSizes(s, z);
      assert Listed(s, z);
    }

    /**
     `rt_slab_free`, which finds out from the page map alone what the pointer stands for. By
     `SlabHeap.ReleaseRemoves` it takes that block away and disturbs no other.
     */
    method Free(ptr: nat, ghost h: Handle)
      requires Valid() && IsAt(Some(ptr), h)
      modifies this, memusage
      ensures Valid() && State() == SlabHeap.Release(old(State()), h)
    {
      hide Inv, Base, Sum, Settle, PutChunk;
      ghost var s := State();
      SlabTheorems.Shape(s);
      SlabHeap.LookupFinds(s, h);
      var kup := memusage[ptr / PAGE];
      if kup.kind == Large {
        FreeLarge(ptr / PAGE);
        return;
      }
      var z := ptr / PAGE - kup.size;
      SlabHeap.NumberFound(z, zones[z].chunkSize, h.k);
      var k := (ptr - z * PAGE - Base(zones[z].chunkSize)) / zones[z].chunkSize;
      SlabTheorems.PutChunkKeeps(s, z, k);
      FreeChunk(z, k);
      SlabTheorems.Shape(State());
      SettleZone(z);
    }

    // ----- realloc -----

    /** What is asked for in the end: a small block's new size is rounded to a chunk size first. */
    function Wanted(large: bool, size: nat): nat
      requires size > 0
    {
      if large then size else ZoneIndex(size).1
    }

    lemma WantedEnough(large: bool, size: nat)
      requires size > 0
      ensures size <= Wanted(large, size)
    {
      if !large && size < 16384 {
        SmallestChunk(size);
      }
    }

    /** A small block stays where it is exactly when the new size is rounded to its own. */
    ghost predicate Stays(s: Slab, h: Handle, size: nat)
      requires Live(s, h) && size > 0
    {
      h.Chunk? && s.zones[h.z].chunkSize == Wanted(false, size)
    }

    /** `n` bytes at `at` are what they were. */
    ghost predicate Intact(was: seq<bv8>, now: seq<bv8>, at: nat, n: nat) {
      |was| == |now| && at + n <= |was| && now[at..at + n] == was[at..at + n]
    }

    /** Whoever is live in `s`, except `h`, is live in `r` in the same place with the same bytes. */
    ghost predicate OthersKept(s: Slab, r: Slab, h: Handle, was: seq<bv8>, now: seq<bv8>) {
      forall g | Live(s, g) && g != h && (g.Chunk? ==> s.zones[g.z].chunkSize > 0) ::
        && Live(r, g) && (g.Chunk? ==> r.zones[g.z].chunkSize > 0)
        && Address(r, g) == Address(s, g) && Extent(r, g) == Extent(s, g)
        && Intact(was, now, Address(s, g), Extent(s, g))
    }

    lemma InHeap(s: Slab, h: Handle)
      requires Inv(s) && Live(s, h)
      ensures h.Chunk? ==> s.zones[h.z].chunkSize > 0
      ensures Address(s, h) + Extent(s, h) <= s.pages * PAGE
    {
      hide Inv;
      SlabTheorems.Shape(s);
      SlabHeap.WithinPages(s, h);
      SlabHeap.PagesToBytes(SlabHeap.FirstPage(h), SlabHeap.PageCount(s, h), s.pages);
    }

    lemma SamePlace(s: Slab, r: Slab, g: Handle)
      requires SlabTheorems.Unmoved(s, r) && Live(s, g) && Live(r, g) && (g.Chunk? ==> s.zones[g.z].chunkSize > 0)
      ensures (g.Chunk? ==> r.zones[g.z].chunkSize > 0) && Address(r, g) == Address(s, g) && Extent(r, g) == Extent(s, g)
    {
    }

    /** Copying into a new block of `m` leaves every block of `s` intact. */
    lemma CopyKeeps(s: Slab, m: Slab, h: Handle, n: nat, was: seq<bv8>, now: seq<bv8>, g: Handle)
      requires SlabHeap.Added(s, m, h) && Live(s, g) && n <= Extent(m, h) && (h.Chunk? ==> m.zones[h.z].chunkSize > 0)
      requires |was| == m.pages * PAGE && Outside(was, now, Address(m, h), Address(m, h) + n)
      requires g.Chunk? ==> s.zones[g.z].chunkSize > 0
      ensures Live(m, g) && (g.Chunk? ==> m.zones[g.z].chunkSize > 0)
      ensures Intact(was, now, Address(s, g), Extent(s, g))
    {
      hide Inv, ChunkAt, SlabTheorems.Unmoved;
      SamePlace(s, m, g);
      SlabHeap.LiveApart(m, g, h);
      InHeap(m, g);
      var at, k := Address(s, g), Extent(s, g);
      forall x | at <= x < at + k ensures now[x] == was[x] {
      }
    }

    lemma AllKept(s: Slab, m: Slab, r: Slab, h: Handle, h': Handle, n: nat, was: seq<bv8>, now: seq<bv8>)
      requires Live(s, h) && SlabHeap.Added(s, m, h') && Live(m, h) && SlabHeap.Gone(m, r, h)
      requires n <= Extent(m, h') && (h'.Chunk? ==> m.zones[h'.z].chunkSize > 0)
      requires |was| == m.pages * PAGE && Outside(was, now, Address(m, h'), Address(m, h') + n)
      ensures OthersKept(s, r, h, was, now)
    {
      hide Inv, ChunkAt, SlabTheorems.Unmoved, Outside, Intact;
      forall g | Live(s, g) && g != h && (g.Chunk? ==> s.zones[g.z].chunkSize > 0)
        ensures Live(r, g) && (g.Chunk? ==> r.zones[g.z].chunkSize > 0)
        ensures Address(r, g) == Address(s, g) && Extent(r, g) == Extent(s, g)
        ensures Intact(was, now, Address(s, g), Extent(s, g))
      {
        CopyKeeps(s, m, h', n, was, now, g);
        SamePlace(s, m, g);
        SamePlace(m, r, g);
      }
    }

    lemma NoneMoved(s: Slab, h: Handle, bytes: seq<bv8>)
      requires Inv(s) && |bytes| == s.pages * PAGE
      ensures OthersKept(s, s, h, bytes, bytes)
    {
      hide Inv, ChunkAt;
      forall g | Live(s, g) && (g.Chunk? ==> s.zones[g.z].chunkSize > 0)
        ensures Intact(bytes, bytes, Address(s, g), Extent(s, g))
      {
        InHeap(s, g);
      }
    }

    /** Allocate, copy, free: both branches of `rt_slab_realloc` end like this. */
    method MoveTo(ptr: nat, size: nat, oldSize: nat, ghost h: Handle) returns (nptr: Option<nat>, ghost h': Option<Handle>)
      requires Valid() && IsAt(Some(ptr), h) && oldSize == Extent(State(), h)
      modifies this, memusage, data
      ensures Valid() && (nptr.None? <==> h'.None?)
      ensures h'.None? <==> SlabHeap.Refused(old(State()), size)
      ensures h'.None? ==> State() == old(State()) && data[..] == old(data[..])
      ensures h'.Some? ==> IsAt(nptr, h'.value) && size <= Extent(State(), h'.value)
      ensures h'.Some? ==> h' == SlabHeap.Alloc(old(State()), size).1 && !Live(State(), h)
      ensures h'.Some? ==> State().used == old(State()).used - oldSize + Extent(State(), h'.value)
      ensures h'.Some? ==> Carried(old(data[..]), data[..], ptr, nptr.value, Min(size, oldSize))
      ensures h'.Some? ==> OthersKept(old(State()), State(), h, old(data[..]), data[..])
    {
      hide Inv, SlabHeap.Alloc, SlabHeap.Release, SlabHeap.Refused, ChunkAt, SlabTheorems.Unmoved, Outside, Carried, OthersKept;
      ghost var s, was := State(), data[..];
      SlabHeap.AllocAdds(s, size);
      nptr, h' := Alloc(size);
      assert data[..] == was;
      if nptr.None? {
        return;
      }
      ghost var m := State();
      SamePlace(s, m, h);
      SlabHeap.LiveApart(m, h, h'.value);
      InHeap(m, h);
      InHeap(m, h'.value);
      var n := if size > oldSize then oldSize else size;
      Copy(data, nptr.value, ptr, n);
      ghost var now := data[..];
      SlabHeap.ReleaseRemoves(m, h);
      Free(ptr, h);
      assert data[..] == now;
      AllKept(s, m, State(), h, h'.value, n, was, now);
      SamePlace(m, State(), h'.value);
    }

    /**
     `rt_slab_realloc`. On success the first min(old, new) bytes are kept, wherever the block ends up, and
     every other live block keeps its place and its bytes; a block that does not stay is exchanged for the one
     an allocation of the size wanted gives, and it fails exactly when that would.
     */
    method Realloc(ptr: Option<nat>, size: nat, ghost h: Handle) returns (nptr: Option<nat>, ghost h': Option<Handle>)
      requires Valid() && (ptr.Some? ==> IsAt(ptr, h))
      modifies this, memusage, data
      ensures Valid() && (nptr.None? <==> h'.None?) && (h'.Some? ==> IsAt(nptr, h'.value))
      ensures ptr.None? ==> (State(), h') == SlabHeap.Alloc(old(State()), size) && data[..] == old(data[..])
      ensures ptr.Some? && size == 0 ==>
        nptr.None? && State() == SlabHeap.Release(old(State()), h) && data[..] == old(data[..])
      ensures ptr.Some? && size > 0 && Stays(old(State()), h, size) ==>
        nptr == ptr && h' == Some(h) && State() == old(State()) && data[..] == old(data[..])
      ensures ptr.Some? && size > 0 && !Stays(old(State()), h, size) ==>
        && (nptr.None? <==> SlabHeap.Refused(old(State()), Wanted(h.Pages?, size)))
        && (nptr.Some? ==> h' == SlabHeap.Alloc(old(State()), Wanted(h.Pages?, size)).1 && !Live(State(), h))
        && (nptr.Some? ==> State().used == old(State()).used - Extent(old(State()), h) + Extent(State(), h'.value))
      ensures ptr.Some? && size > 0 && nptr.None? ==> State() == old(State()) && data[..] == old(data[..])
      ensures ptr.Some? && nptr.Some? ==> size <= Extent(State(), h'.value)
      ensures ptr.Some? && nptr.Some? ==>
        Carried(old(data[..]), data[..], ptr.value, nptr.value, Min(size, Extent(old(State()), h)))
      ensures ptr.Some? && nptr.Some? ==> OthersKept(old(State()), State(), h, old(data[..]), data[..])
    {
      hide Inv, SlabHeap.Alloc, SlabHeap.Release, SlabHeap.Refused, ChunkAt, ZoneIndex, OthersKept;
      ghost var s, was := State(), data[..];
      if ptr.None? {
        nptr, h' := Alloc(size);
        assert data[..] == was;
        return;
      }
      if size == 0 {
        Free(ptr.value, h);
        assert data[..] == was;
        return None, None;
      }
      SlabHeap.LookupFinds(s, h);
      WantedEnough(h.Pages?, size);
      NoneMoved(s, h, was);
      InHeap(s, h);
      var kup := memusage[ptr.value / PAGE];
      if kup.kind == Large {
        nptr, h' := MoveTo(ptr.value, size, kup.size * PAGE, h);
        return;
      }
      var z := ptr.value / PAGE - kup.size;
      var wanted := ZoneIndex(size).1;
      if zones[z].chunkSize == wanted {
        return ptr, Some(h);
      }
      nptr, h' := MoveTo(ptr.value, wanted, zones[z].chunkSize, h);
      if nptr.Some? {
        CarriedLess(was, data[..], ptr.value, nptr.value, Min(wanted, Extent(s, h)), Min(size, Extent(s, h)));
      }
    }
  }
  /**
   `rt_slab_init` on the `size` bytes from address `begin`, its own object of `own` bytes going first: null
   exactly if no whole page is left behind it, otherwise a heap of all the whole pages there are.
   */
  method Init(begin: nat, size: nat, own: nat) returns (m: Allocator?)
    ensures var start, end := RoundUp(RoundUp(begin, 8) + own, PAGE), (begin + size) / PAGE * PAGE;
      && (m == null <==> start >= end)
      && (m != null ==> m.Valid() && fresh(m) && m.heapStart == start && m.heapStart + m.pages * PAGE == end)
  {
    var startAddr := RoundUp(begin, 8) + own;
    var beginAlign := RoundUp(startAddr, PAGE);
    var endAlign := (begin + size) / PAGE * PAGE;
    if beginAlign >= endAlign {
      return null;
    }
    RoundUpBounds(startAddr, PAGE);
    MultipleOf((begin + size) / PAGE, PAGE);
    WholePages(beginAlign, endAlign);
    m := new Allocator(beginAlign, (endAlign - beginAlign) / PAGE);
  }

  lemma WholePages(a: nat, b: nat)
    requires a % PAGE == 0 && b % PAGE == 0 && a < b
    ensures (b - a) / PAGE > 0 && a + (b - a) / PAGE * PAGE == b
  {
    QuotientAndRest(a, PAGE);
    QuotientAndRest(b, PAGE);
  }
}
