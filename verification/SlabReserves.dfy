/**
 How much memory the slab keeps back for zones in which nothing is allocated: when such a zone is cached, when
 it gives its pages back, and how many of them there can ever be.
 */
module SlabReserves {
  import opened Common
  import opened SlabPages
  import opened SlabZones
  import opened SlabSpec
  import opened SlabTheorems
  import opened SlabHeap

  /** Zone `z` is on the list of its size, with nothing allocated in it. */
  ghost predicate Empty(s: Slab, z: nat) {
    z in s.zones && z !in s.cached && s.zones[z].nfree == s.zones[z].nmax
  }

  /** That is what the counters mean. */
  lemma EmptyMeans(s: Slab, z: nat)
    requires Inv(s) && z in s.zones && z !in s.cached
    ensures Empty(s, z) <==> forall k: nat :: !Live(s, Chunk(z, k))
  {
    hide Territory, Sum, Weights, Lists, ZoneOk;
    if Empty(s, z) {
      ZoneIsOk(s, z);
      NoneLive(s, z);
    } else {
      LiveCount(s, z);
      var ks := LiveChunks(s, z);
      assert ks != {};
      var k :| k in ks;
      assert Live(s, Chunk(z, k));
    }
  }

  lemma ZoneIsOk(s: Slab, z: nat)
    requires Inv(s) && z in s.zones
    ensures ZoneOk(s.zones[z], s.zonePages)
  {
  }

  /** Another zone can serve requests of the size of `z`. */
  ghost predicate Spared(s: Slab, z: nat, y: nat) {
    && y != z && z in s.zones && y in s.zones && y !in s.cached
    && s.zones[y].index == s.zones[z].index && s.zones[y].nfree > 0
  }

  lemma AloneOrNot(q: seq<nat>, z: nat)
    requires NoDup(q) && z in q
    ensures q == [z] || exists y :: y in q && y != z
  {
    if |q| == 1 {
      assert q == [z];
    } else {
      assert q[0] in q && q[1] in q && (q[0] != z || q[1] != z);
    }
  }

  lemma ListOf(s: Slab, z: nat)
    requires Inv(s) && z in s.zones && z !in s.cached && s.zones[z].nfree > 0
    ensures |s.lists| == NZONES && s.zones[z].index < NZONES && z in s.lists[s.zones[z].index]
    ensures forall y :: Spared(s, z, y) ==> y in s.lists[s.zones[z].index]
    ensures s.lists[s.zones[z].index] != [z] ==> exists y :: Spared(s, z, y)
  {
    hide Territory, Sum, Weights;
    ZoneIsOk(s, z);
    var i := s.zones[z].index;
    var q := s.lists[i];
    assert Listed(s, z);
    forall y | Spared(s, z, y) ensures y in q {
      assert Listed(s, y);
    }
    AloneOrNot(q, z);
    if q != [z] {
      var y :| y in q && y != z;
      assert y in s.zones && Listed(s, y);
      assert Spared(s, z, y);
    }
  }

  /**
   A zone in which nothing is allocated any more leaves its list exactly if another one can serve its size. It
   goes into the cache, or, if that is full, gives back just its pages.
   */
  lemma RetiresExactly(s: Slab, z: nat)
    requires Inv(s) && z in s.zones && z !in s.cached && s.zones[z].nfree > 0
    ensures s.zones[z].index < |s.lists|
    ensures var r := Settle(s, z);
      if Empty(s, z) && exists y :: Spared(s, z, y) then
        if |s.cached| < CACHED_ZONES then
          r.cached == [z] + s.cached && r.zones == s.zones && r.runs == s.runs && r.usage == s.usage
        else
          && r.cached == s.cached && r.zones == s.zones - {z}
          && (forall p: int :: IsFree(r.runs, p) <==> IsFree(s.runs, p) || z <= p < z + s.zonePages)
          && |r.usage| == |s.usage|
          && (forall p | 0 <= p < |r.usage| ::
                r.usage[p] == if z <= p < z + s.zonePages then Usage(FreePage, 0) else s.usage[p])
      else r == s
  {
    hide Sum, Weights, ZoneOk, Sorted, IsFree, PageFree, Remove;
    ListOf(s, z);
    if Retires(s, z) {
      assert |s.cached| <= CACHED_ZONES;
      if |s.cached| == CACHED_ZONES {
        ZoneNotFree(s, z);
        FreeKeeps(s.runs, z, s.zonePages);
        assert ([z] + s.cached)[1..] == s.cached;
      }
    }
  }

  lemma ZoneNotFree(s: Slab, z: nat)
    requires Inv(s) && z in s.zones
    ensures Sorted(s.runs) && s.zonePages > 0 && forall p | z <= p < z + s.zonePages :: !IsFree(s.runs, p)
  {
    hide Sorted, IsFree, Sum, Weights;
    assert Held(s.owner, z, s.zonePages, OfZone(z));
    forall p | z <= p < z + s.zonePages ensures !IsFree(s.runs, p) {
      assert s.owner[p] == OfZone(z);
    }
  }

  // ----- which chunk is next -----

  /** A zone hands out chunks that nobody has had yet, in the order of their addresses, before it hands out any again. */
  lemma FreshFirst(s: Slab, i: nat)
    requires Inv(s) && i < NZONES && |s.lists| == NZONES && s.lists[i] != []
    ensures var z := s.lists[i][0]; z in s.zones && s.zones[z].nfree > 0
    ensures var z := s.lists[i][0]; s.zones[z].uindex + 1 == s.zones[z].nmax ==> s.zones[z].freeChunks != []
    ensures var z := s.lists[i][0]; var (r, k) := TakeChunk(s, i);
      && z in r.zones && (s.zones[z].uindex + 1 < s.zones[z].nmax <==> k > s.zones[z].uindex)
      && (k > s.zones[z].uindex ==> r.zones[z].uindex == k == s.zones[z].uindex + 1)
  {
    hide Territory, Sum, Weights, Lists;
    TakeChunkKeeps(s, i);
    ZoneIsOk(s, s.lists[i][0]);
  }

  /** After that the chunk freed last is the next one handed out, which undoes the freeing altogether. */
  lemma TakeUndoesPut(s: Slab, z: nat, k: nat)
    requires Inv(s) && Live(s, Chunk(z, k)) && s.zones[z].uindex + 1 == s.zones[z].nmax
    requires s.zones[z].index < |s.lists|
    requires s.zones[z].nfree > 0 ==> s.lists[s.zones[z].index] != [] && s.lists[s.zones[z].index][0] == z
    ensures var p, i := PutChunk(s, z, k), s.zones[z].index;
      && i < |p.lists| && p.lists[i] != [] && p.lists[i][0] == z && z in p.zones
      && p.zones[z].nfree > 0 && p.zones[z].freeChunks != []
      && TakeChunk(p, i) == (s, k)
  {
    hide Inv;
    var zone, i := s.zones[z], s.zones[z].index;
    var freed := zone.(nfree := zone.nfree + 1, freeChunks := [k] + zone.freeChunks);
    assert freed.(nfree := zone.nfree).(freeChunks := freed.freeChunks[1..]) == zone by {
      assert ([k] + zone.freeChunks)[1..] == zone.freeChunks;
    }
    assert s.zones[z := freed][z := zone] == s.zones;
    assert s.lists[i := s.lists[i]] == s.lists;
    assert ([z] + s.lists[i])[1..] == s.lists[i];
    var p := PutChunk(s, z, k);
    assert TakeChunk(p, i).0.zones == s.zones;
    assert TakeChunk(p, i).0.lists == s.lists;
  }

  // ----- every run -----

  /** No size has two zones in which nothing is allocated, other than those in the cache. */
  ghost predicate Lean(s: Slab) {
    forall y: nat, z: nat | Empty(s, y) && Empty(s, z) && y != z :: s.zones[y].index != s.zones[z].index
  }

  /** A step that leaves all zones but `z` as they were, and `z` with something in it or gone. */
  lemma LeanFrame(s: Slab, r: Slab, z: nat)
    requires Lean(s) && !Empty(r, z)
    requires forall y | y in r.zones && y != z && y !in r.cached :: y in s.zones && y !in s.cached && r.zones[y] == s.zones[y]
    ensures Lean(r)
  {
    forall x: nat, y: nat | Empty(r, x) && Empty(r, y) && x != y ensures r.zones[x].index != r.zones[y].index {
      assert Empty(s, x) && Empty(s, y);
    }
  }

  lemma AllocLean(s: Slab, size: nat)
    requires Inv(s) && Lean(s)
    ensures Lean(Alloc(s, size).0)
  {
    hide Lean, Empty, Territory, Sum, Weights, ZoneOk, PageAlloc, ZoneIndex, ChunkOf, Capacity;
    Shape(s);
    if size >= s.limit {
      SameZones(s, Alloc(s, size).0);
    } else if size > 0 {
      SmallFits(s, size);
      AllocSmallLean(s, ZoneIndex(size).0);
    } else {
      SameZones(s, s);
    }
  }

  lemma SameZones(s: Slab, r: Slab)
    requires Lean(s) && r.zones == s.zones && r.cached == s.cached
    ensures Lean(r)
  {
    forall x: nat, y: nat | Empty(r, x) && Empty(r, y) && x != y ensures r.zones[x].index != r.zones[y].index {
      assert Empty(s, x) && Empty(s, y);
    }
  }

  lemma AllocSmallLean(s: Slab, i: nat)
    requires Inv(s) && Lean(s) && i < NZONES && 4 * ChunkOf(i) <= s.zonePages * PAGE
    ensures Lean(AllocSmall(s, i).0)
  {
    hide Lean, Territory, Sum, Weights, PageAlloc, ChunkOf, Capacity, Base;
    Shape(s);
    var r := AllocSmall(s, i).0;
    if s.lists[i] != [] {
      TakeChunkKeeps(s, i);
      var z := s.lists[i][0];
      ZoneIsOk(s, z);
      NoMoreThanAll(s.zones[z], s.zonePages);
      LeanFrame(s, r, z);
    } else if s.cached != [] {
      ReuseZoneKeeps(s, i);
      CachedApart(s);
      LeanFrame(s, r, s.cached[0]);
    } else if PageAlloc(s.runs, s.zonePages).0.Some? {
      AddZoneKeeps(s, i);
      LeanFrame(s, r, PageAlloc(s.runs, s.zonePages).0.value);
    }
  }

  lemma NoMoreThanAll(zone: Zone, zonePages: nat)
    requires ZoneOk(zone, zonePages)
    ensures zone.nfree <= zone.nmax
  {
    Pigeonhole(zone.freeChunks, zone.uindex + 1);
  }

  lemma ReleaseLean(s: Slab, h: Handle)
    requires Inv(s) && Lean(s) && Live(s, h)
    ensures Lean(Release(s, h))
  {
    hide Lean, Territory, Sum, Weights, ZoneOk, PageFree, Settle, Remove;
    match h
    case Pages(l) =>
      GiveRunKeeps(s, l);
      Shape(s);
      SameZones(s, GiveRun(s, l));
    case Chunk(z, k) =>
      PutChunkKeeps(s, z, k);
      var m := PutChunk(s, z, k);
      Shape(m);
      RetiresExactly(m, z);
      if !Empty(Settle(m, z), z) {
        LeanFrame(s, Settle(m, z), z);
      } else {
        OnlyOne(s, m, z);
      }
  }

  lemma OnlyOne(s: Slab, m: Slab, z: nat)
    requires Lean(s) && Inv(m) && Empty(m, z) && !exists y :: Spared(m, z, y)
    requires m.cached == s.cached && forall y | y in m.zones && y != z :: y in s.zones && m.zones[y] == s.zones[y]
    ensures Lean(m)
  {
    hide Inv;
    forall x: nat, y: nat | Empty(m, x) && Empty(m, y) && x != y ensures m.zones[x].index != m.zones[y].index {
      if x != z && y != z {
        assert Empty(s, x) && Empty(s, y);
      } else {
        var other := if x == z then y else x;
        ZoneIsOk(m, other);
        assert !Spared(m, z, other);
      }
    }
  }

  /** Over any run of allocations and releases at most one zone of each size is kept empty, besides the two in the cache. */
  lemma {:induction false} RunLean(trace: seq<Slab>, ops: seq<Op>, k: nat)
    requires SlabHeap.Run(trace, ops) && Lean(trace[0]) && k <= |ops|
    ensures Inv(trace[k]) && Lean(trace[k]) && |trace[k].cached| <= CACHED_ZONES
    decreases k
  {
    hide Alloc, Release, Lean, Territory, Sum, Weights, ZonesOk;
    if k > 0 {
      RunLean(trace, ops, k - 1);
      RunSafe(trace, ops, k);
      assert Follows(trace[k - 1], ops[k - 1], trace[k]);
      match ops[k - 1]
      case Allocate(size) => AllocLean(trace[k - 1], size);
      case Free(h) => ReleaseLean(trace[k - 1], h);
    }
  }

  lemma FreshLean(pages: nat, zonePages: nat, usage: seq<Usage>)
    ensures Lean(Fresh(pages, zonePages, usage))
  {
  }
}
