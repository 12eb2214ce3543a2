/** What the slab allocator's steps keep, who is live after them, and that nothing live overlaps. */
module SlabTheorems {
  import opened Common
  import opened SlabPages
  import opened SlabZones
  import opened SlabSpec

  // ----- accounting -----

  /** A step that changes the weight of one page only. */
  lemma WeightChange(s: Slab, r: Slab, p: nat)
    requires r.pages == s.pages && p < s.pages
    requires forall q: nat | q < s.pages && q != p :: Weight(r, q) == Weight(s, q)
    ensures Sum(Weights(r)) == Sum(Weights(s)) - Weight(s, p) + Weight(r, p)
  {
    hide Weight;
    var w := Weights(s);
    SumUpdate(w, p, Weight(r, p));
    assert Weights(r) == w[p := Weight(r, p)];
  }

  lemma SameWeights(s: Slab, r: Slab)
    requires r.pages == s.pages && forall q: nat | q < s.pages :: Weight(r, q) == Weight(s, q)
    ensures Sum(Weights(r)) == Sum(Weights(s))
  {
    hide Weight;
    assert Weights(r) == Weights(s);
  }

  /** No zone has more free chunks than chunks. */
  lemma FreeAtMostAll(zone: Zone, zonePages: nat)
    requires ZoneOk(zone, zonePages)
    ensures zone.nfree <= zone.nmax && zone.chunkSize > 0
  {
    Pigeonhole(zone.freeChunks, zone.uindex + 1);
  }

  // ----- pages -----

  lemma SameTerritory(s: Slab, r: Slab)
    requires Territory(s)
    requires r.pages == s.pages && r.zonePages == s.zonePages && r.runs == s.runs && r.usage == s.usage
    requires r.owner == s.owner && r.large == s.large && r.zones.Keys == s.zones.Keys
    ensures Territory(r)
  {
    hide Sorted, IsFree;
    forall p | 0 <= p < r.pages ensures OwnerOk(r, p) {
      assert OwnerOk(s, p);
    }
    forall z | z in r.zones ensures Held(r.owner, z, r.zonePages, OfZone(z)) && Mapped(r.usage, z, r.zonePages) {
      assert z in s.zones;
    }
  }

  /** Pages nobody holds belong to no zone and no run. */
  lemma NobodyThere(s: Slab, at: nat, n: nat)
    requires Territory(s) && n > 0 && Held(s.owner, at, n, Nobody)
    ensures at !in s.zones && at !in s.large
    ensures forall z | z in s.zones :: z + s.zonePages <= at || at + n <= z
    ensures forall l | l in s.large :: l + s.large[l] <= at || at + n <= l
  {
    hide Sorted, IsFree;
    forall z | z in s.zones ensures z + s.zonePages <= at || at + n <= z {
      Disjoint(s.owner, z, s.zonePages, OfZone(z), at, n, Nobody);
    }
    forall l | l in s.large ensures l + s.large[l] <= at || at + n <= l {
      Disjoint(s.owner, l, s.large[l], OfLarge(l), at, n, Nobody);
    }
  }

  /** Two owners do not hold the same page. */
  lemma Disjoint(owner: seq<Owner>, a: nat, n: nat, o: Owner, b: nat, m: nat, q: Owner)
    requires Held(owner, a, n, o) && Held(owner, b, m, q) && o != q && n > 0 && m > 0
    ensures a + n <= b || b + m <= a
  {
    HeldAt(owner, a, n, o, a);
    HeldAt(owner, a, n, o, b);
    HeldAt(owner, b, m, q, a);
    HeldAt(owner, b, m, q, b);
  }

  lemma HeldAt(owner: seq<Owner>, at: nat, n: nat, o: Owner, p: nat)
    requires Held(owner, at, n, o)
    ensures at <= p < at + n ==> p < |owner| && owner[p] == o
  {
  }

  lemma ClaimElsewhere(owner: seq<Owner>, a: nat, n: nat, o: Owner, at: nat, m: nat, q: Owner)
    requires Held(owner, a, n, o) && (a + n <= at || at + m <= a)
    ensures Held(Claim(owner, at, m, q), a, n, o)
  {
  }

  /** Handing `n` free pages to `o`, as seen by the free list. */
  lemma ClaimedFree(s: Slab, at: nat, n: nat, o: Owner, runs: seq<Run>)
    requires Territory(s) && o != Nobody && at + n <= s.pages
    requires forall p: int :: IsFree(runs, p) <==> IsFree(s.runs, p) && !(at <= p < at + n)
    ensures forall p: int :: IsFree(runs, p) <==> 0 <= p < s.pages && Claim(s.owner, at, n, o)[p] == Nobody
  {
    hide IsFree, Sorted;
  }

  lemma FreeMeansNobody(s: Slab, at: nat, n: nat)
    requires Territory(s) && forall p | at <= p < at + n :: IsFree(s.runs, p)
    requires n > 0
    ensures Held(s.owner, at, n, Nobody)
  {
    hide IsFree, Sorted;
    assert IsFree(s.runs, at + n - 1);
  }

  lemma Shape(s: Slab)
    requires Inv(s)
    ensures |s.lists| == NZONES && |s.usage| == |s.owner| == s.pages
  {
  }

  /** Whoever is live before and after has the same place and the same size. */
  ghost predicate Unmoved(s: Slab, r: Slab) {
    forall h | Live(s, h) && Live(r, h) ::
      Extent(r, h) == Extent(s, h) && (h.Chunk? ==> r.zones[h.z].chunkSize == s.zones[h.z].chunkSize)
  }

  // ----- large runs -----

  lemma TakeRunTerritory(s: Slab, n: nat)
    requires Territory(s) && PageAlloc(s.runs, n).0.Some?
    ensures var l := PageAlloc(s.runs, n).0.value;
      && Held(s.owner, l, n, Nobody) && n > 0 && l < s.pages && TakeRun(s, n).1 == Some(l) && Territory(TakeRun(s, n).0)
  {
    hide Sorted, IsFree, PageAlloc, OwnerOk, Held, Mapped, Claim;
    AllocKeeps(s.runs, n);
    var (at, rest) := PageAlloc(s.runs, n);
    var l := at.value;
    FreeMeansNobody(s, l, n);
    HeldFirst(s.owner, l, n, Nobody);
    NobodyThere(s, l, n);
    var r := TakeRun(s, n).0;
    ClaimedFree(s, l, n, OfLarge(l), rest);
    ClaimHeld(s.owner, l, n, OfLarge(l));
    forall z | z in r.zones ensures Held(r.owner, z, r.zonePages, OfZone(z)) && Mapped(r.usage, z, r.zonePages) {
      ClaimElsewhere(s.owner, z, s.zonePages, OfZone(z), l, n, OfLarge(l));
      MappedElsewhere(s.usage, z, s.zonePages, l, n);
    }
    forall m | m in r.large ensures Held(r.owner, m, r.large[m], OfLarge(m)) {
      if m != l {
        ClaimElsewhere(s.owner, m, s.large[m], OfLarge(m), l, n, OfLarge(l));
      }
    }
    forall p | 0 <= p < r.pages ensures OwnerOk(r, p) {
      assert OwnerOk(s, p);
      NewOwner(s, r, l, n, p);
    }
  }

  lemma HeldFirst(owner: seq<Owner>, at: nat, n: nat, o: Owner)
    requires Held(owner, at, n, o) && n > 0
    ensures at + n <= |owner| && owner[at] == o
  {
  }

  lemma ClaimHeld(owner: seq<Owner>, at: nat, n: nat, o: Owner)
    requires at + n <= |owner|
    ensures |Claim(owner, at, n, o)| == |owner| && Held(Claim(owner, at, n, o), at, n, o)
  {
  }

  lemma MappedElsewhere(usage: seq<Usage>, z: nat, m: nat, l: nat, n: nat)
    requires Mapped(usage, z, m) && l < |usage| && (z + m <= l || l + n <= z) && n > 0
    ensures Mapped(usage[l := Usage(Large, n)], z, m)
  {
  }

  lemma NewOwner(s: Slab, r: Slab, l: nat, n: nat, p: nat)
    requires p < |s.owner| && OwnerOk(s, p) && l !in s.large
    requires r.owner == Claim(s.owner, l, n, OfLarge(l)) && r.large == s.large[l := n]
    requires r.zones == s.zones && r.zonePages == s.zonePages
    ensures OwnerOk(r, p)
  {
  }

  lemma TakeRunKeeps(s: Slab, n: nat)
    requires Inv(s) && PageAlloc(s.runs, n).0.Some?
    ensures var (r, at) := TakeRun(s, n);
      && Inv(r) && at.Some? && !Live(s, Pages(at.value)) && n > 0 && Unmoved(s, r)
      && forall h :: Live(r, h) <==> Live(s, h) || h == Pages(at.value)
  {
    hide Territory, ZoneOk, PageAlloc, Sum;
    Shape(s);
    TakeRunTerritory(s, n);
    var l := PageAlloc(s.runs, n).0.value;
    NobodyThere(s, l, n);
    var r := TakeRun(s, n).0;
    WeightChange(s, r, l);
    assert Lists(r) by {
      forall z | z in r.zones ensures Listed(r, z) {
        assert Listed(s, z);
      }
    }
  }

  lemma GiveRunTerritory(s: Slab, l: nat)
    requires Territory(s) && l in s.large
    ensures l < s.pages && Territory(GiveRun(s, l))
  {
    hide Sorted, IsFree, PageFree;
    var n := s.large[l];
    assert Held(s.owner, l, n, OfLarge(l));
    var r := GiveRun(s, l);
    forall p | l <= p < l + n ensures !IsFree(s.runs, p) {
      assert s.owner[p] == OfLarge(l);
    }
    FreeKeeps(s.runs, l, n);
    forall p: int ensures IsFree(r.runs, p) <==> 0 <= p < r.pages && r.owner[p] == Nobody {
    }
    forall z | z in r.zones ensures Held(r.owner, z, r.zonePages, OfZone(z)) && Mapped(r.usage, z, r.zonePages) {
      Disjoint(s.owner, z, s.zonePages, OfZone(z), l, n, OfLarge(l));
      ClaimElsewhere(s.owner, z, s.zonePages, OfZone(z), l, n, Nobody);
    }
    forall m | m in r.large ensures Held(r.owner, m, r.large[m], OfLarge(m)) && r.usage[m] == s.usage[m] {
      Disjoint(s.owner, m, s.large[m], OfLarge(m), l, n, OfLarge(l));
      ClaimElsewhere(s.owner, m, s.large[m], OfLarge(m), l, n, Nobody);
    }
    forall p | 0 <= p < r.pages ensures OwnerOk(r, p) {
      assert OwnerOk(s, p);
    }
  }

  lemma GiveRunKeeps(s: Slab, l: nat)
    requires Inv(s) && l in s.large
    ensures l < s.pages && Inv(GiveRun(s, l)) && Unmoved(s, GiveRun(s, l))
    ensures forall h :: Live(GiveRun(s, l), h) <==> Live(s, h) && h != Pages(l)
  {
    hide ZoneOk, Sum, PageFree, Sorted, IsFree;
    GiveRunTerritory(s, l);
    var r := GiveRun(s, l);
    assert l !in s.zones by {
      if l in s.zones {
        Disjoint(s.owner, l, s.zonePages, OfZone(l), l, s.large[l], OfLarge(l));
      }
    }
    WeightChange(s, r, l);
    assert Lists(r) by {
      forall z | z in r.zones ensures Listed(r, z) {
        assert Listed(s, z);
      }
    }
  }

  // ----- chunks -----

  lemma HeadOfList(s: Slab, i: nat)
    requires Inv(s) && i < NZONES && s.lists[i] != []
    ensures var z := s.lists[i][0];
      && z in s.zones && z !in s.cached && ZoneOk(s.zones[z], s.zonePages)
      && s.zones[z].index == i && s.zones[z].nfree > 0 && s.zones[z].nfree <= s.zones[z].nmax
      && z < s.pages && z !in s.large
      && (s.zones[z].uindex + 1 == s.zones[z].nmax ==> s.zones[z].freeChunks != [])
  {
    hide Sorted, IsFree, Sum, Weights;
    var z := s.lists[i][0];
    assert z in s.lists[i];
    assert Listed(s, z);
    FreeAtMostAll(s.zones[z], s.zonePages);
    ZonePlace(s, z);
  }

  lemma ZonePlace(s: Slab, z: nat)
    requires Territory(s) && z in s.zones
    ensures z + s.zonePages <= s.pages && z !in s.large
  {
    hide Sorted, IsFree;
    if z in s.large {
      Disjoint(s.owner, z, s.zonePages, OfZone(z), z, s.large[z], OfLarge(z));
    }
  }

  /** The zone from which a chunk is taken, before and after. */
  ghost predicate ChunkTaken(zone: Zone, after: Zone, k: nat) {
    && after.nfree == zone.nfree - 1 && after.nmax == zone.nmax && after.chunkSize == zone.chunkSize && after.index == zone.index
    && k <= after.uindex && k !in after.freeChunks && (k <= zone.uindex ==> k in zone.freeChunks)
    && forall j | j != k :: j <= after.uindex && j !in after.freeChunks <==> j <= zone.uindex && j !in zone.freeChunks
  }

  lemma TakeChunkZone(s: Slab, i: nat)
    requires Inv(s) && i < NZONES && s.lists[i] != [] && s.lists[i][0] in s.zones
    requires var zone := s.zones[s.lists[i][0]]; zone.nfree > 0 && (zone.uindex + 1 == zone.nmax ==> zone.freeChunks != [])
    ensures var z := s.lists[i][0]; var (r, k) := TakeChunk(s, i);
      && z in r.zones && ZoneOk(r.zones[z], s.zonePages) && ChunkTaken(s.zones[z], r.zones[z], k)
      && r == s.(zones := s.zones[z := r.zones[z]], lists := r.lists, used := s.used + s.zones[z].chunkSize)
  {
    hide Territory, Sum, Weights, Lists, Capacity, Base, ChunkOf;
    Shape(s);
    var z := s.lists[i][0];
    var zone := s.zones[z];
    assert ZoneOk(zone, s.zonePages);
    if zone.uindex + 1 == zone.nmax {
      var f := zone.freeChunks;
      assert f == [f[0]] + f[1..];
      assert f[0] !in f[1..];
      forall j ensures j in f <==> j == f[0] || j in f[1..] {
      }
    } else {
      assert zone.uindex + 1 !in zone.freeChunks;
    }
  }

  lemma TakeChunkLists(s: Slab, i: nat)
    requires Inv(s) && i < NZONES && s.lists[i] != []
    requires var z := s.lists[i][0];
      && z in s.zones && z !in s.cached && s.zones[z].index == i && s.zones[z].nfree > 0
      && (s.zones[z].uindex + 1 == s.zones[z].nmax ==> s.zones[z].freeChunks != [])
    ensures Lists(TakeChunk(s, i).0)
  {
    hide Territory, Sum, Weights, ZoneOk;
    var z := s.lists[i][0];
    var r := TakeChunk(s, i).0;
    var q := s.lists[i];
    assert q == [z] + q[1..] && z !in q[1..];
    forall y | y in r.zones ensures Listed(r, y) {
      assert Listed(s, y);
      assert y != z ==> (y in q <==> y in q[1..]);
    }
  }

  lemma TakeChunkKeeps(s: Slab, i: nat)
    requires Inv(s) && i < NZONES && s.lists[i] != []
    ensures var z := s.lists[i][0];
      && z in s.zones && s.zones[z].nfree > 0 && s.zones[z].index == i && s.zones[z].chunkSize == ChunkOf(i)
      && (s.zones[z].uindex + 1 == s.zones[z].nmax ==> s.zones[z].freeChunks != [])
    ensures var z := s.lists[i][0]; var (r, k) := TakeChunk(s, i);
      && Inv(r) && !Live(s, Chunk(z, k)) && Unmoved(s, r)
      && (forall h :: Live(r, h) <==> Live(s, h) || h == Chunk(z, k))
      && z in r.zones && r.zones[z].chunkSize == ChunkOf(i)
  {
    hide Territory, Sum, Weights, Lists, ZoneOk;
    Shape(s);
    HeadOfList(s, i);
    TakeChunkZone(s, i);
    TakeChunkLists(s, i);
    var z := s.lists[i][0];
    var (r, k) := TakeChunk(s, i);
    SameTerritory(s, r);
    ChunkSize(s.zones[z], s.zonePages);
    ChunkSize(r.zones[z], s.zonePages);
    var live := s.zones[z].nmax - s.zones[z].nfree;
    OneMore(live, s.zones[z].chunkSize);
    WeightChange(s, r, z);
  }

  lemma ChunkSize(zone: Zone, zonePages: nat)
    requires ZoneOk(zone, zonePages)
    ensures zone.chunkSize == ChunkOf(zone.index) && zone.nfree <= zone.nmax && zone.index < NZONES
  {
    FreeAtMostAll(zone, zonePages);
  }

  // ----- new zones -----

  lemma FreshZone(i: nat, zonePages: nat)
    requires i < NZONES && 4 * ChunkOf(i) <= zonePages * PAGE && MIN_ZONE_SIZE <= zonePages * PAGE
    ensures var size := ChunkOf(i); Base(size) <= zonePages * PAGE
    ensures var nmax := Capacity(zonePages * PAGE, ChunkOf(i));
      nmax >= 2 && ZoneOk(Zone(nmax - 1, nmax, 0, ChunkOf(i), i, []), zonePages)
  {
    hide Base, Capacity, ChunkOf;
    ZoneHolds(zonePages * PAGE, ChunkOf(i));
  }

  /** Zone `z`, not listed anywhere, becomes the first zone of its size. */
  lemma OpenZoneLists(s: Slab, z: nat, i: nat, nmax: nat, size: nat)
    requires |s.lists| == NZONES && |s.cached| <= CACHED_ZONES && NoDup(s.cached) && i < NZONES && nmax >= 2
    requires forall k | 0 <= k < |s.cached| :: s.cached[k] in s.zones && s.cached[k] != z
    requires forall j | 0 <= j < NZONES :: NoDup(s.lists[j])
    requires forall j | 0 <= j < NZONES :: forall k | 0 <= k < |s.lists[j]| :: s.lists[j][k] in s.zones && s.lists[j][k] != z
    requires forall y | y in s.zones && y != z :: Listed(s, y)
    ensures Lists(s.(zones := s.zones[z := Zone(nmax - 1, nmax, 0, size, i, [])], lists := s.lists[i := [z] + s.lists[i]]))
  {
    var r := s.(zones := s.zones[z := Zone(nmax - 1, nmax, 0, size, i, [])], lists := s.lists[i := [z] + s.lists[i]]);
    forall y | y in r.zones ensures Listed(r, y) {
      if y != z {
        assert Listed(s, y);
      } else {
        assert z !in s.cached;
        forall j | 0 <= j < NZONES ensures z in r.lists[j] <==> j == i {
          assert z !in s.lists[j];
        }
      }
    }
  }

  /** A cached zone is on no list, and is cached once. */
  lemma CachedApart(s: Slab)
    requires Inv(s) && s.cached != []
    ensures var z, d := s.cached[0], s.(cached := s.cached[1..]);
      && z in s.zones && |s.lists| == NZONES && |d.cached| <= CACHED_ZONES && NoDup(d.cached)
      && (forall k | 0 <= k < |d.cached| :: d.cached[k] in s.zones && d.cached[k] != z)
      && (forall j | 0 <= j < NZONES :: NoDup(s.lists[j]))
      && (forall j | 0 <= j < NZONES :: forall k | 0 <= k < |s.lists[j]| :: s.lists[j][k] in s.zones && s.lists[j][k] != z)
      && (forall y | y in s.zones && y != z :: Listed(d, y))
      && s.zones[z].nfree == s.zones[z].nmax
  {
    hide Territory, Sum, Weights, ZoneOk;
    var z, d := s.cached[0], s.(cached := s.cached[1..]);
    assert s.cached == [z] + s.cached[1..];
    assert Listed(s, z);
    forall y | y in s.zones && y != z ensures Listed(d, y) {
      assert Listed(s, y);
    }
    forall j | 0 <= j < NZONES ensures forall k | 0 <= k < |s.lists[j]| :: s.lists[j][k] in s.zones && s.lists[j][k] != z {
      assert z !in s.lists[j];
    }
  }

  /** The zone laid out anew: its first chunk is live, and no other chunk has moved. */
  lemma ReuseLive(s: Slab, r: Slab, zone: Zone)
    requires s.cached != [] && zone.uindex == 0 && zone.freeChunks == []
    requires var z := s.cached[0];
      && (forall k | 0 <= k < |s.cached[1..]| :: s.cached[1..][k] != z)
      && r.cached == s.cached[1..] && r.large == s.large && r.zones == s.zones[z := zone]
    ensures var z := s.cached[0];
      && !Live(s, Chunk(z, 0)) && Unmoved(s, r) && forall h :: Live(r, h) <==> Live(s, h) || h == Chunk(z, 0)
  {
    var z := s.cached[0];
    assert z !in s.cached[1..];
    assert forall y :: y in s.cached <==> y == z || y in s.cached[1..];
  }

  lemma ReuseZoneKeeps(s: Slab, i: nat)
    requires Inv(s) && i < NZONES && 4 * ChunkOf(i) <= s.zonePages * PAGE && s.cached != []
    ensures var size := ChunkOf(i);
      Base(size) <= s.zonePages * PAGE && Capacity(s.zonePages * PAGE, size) > 0 && |s.lists| == NZONES
    ensures var z := s.cached[0]; var r := OpenZone(s.(cached := s.cached[1..]), z, i, ChunkOf(i));
      && Inv(r) && !Live(s, Chunk(z, 0)) && Unmoved(s, r) && z in r.zones && r.zones[z].chunkSize == ChunkOf(i)
      && forall h :: Live(r, h) <==> Live(s, h) || h == Chunk(z, 0)
  {
    hide Territory, Sum, Weights, ZoneOk, ChunkOf, Base, Capacity, Listed, Live, Unmoved;
    FreshZone(i, s.zonePages);
    CachedApart(s);
    var z := s.cached[0];
    var d := s.(cached := s.cached[1..]);
    var nmax := Capacity(s.zonePages * PAGE, ChunkOf(i));
    OpenZoneLists(d, z, i, nmax, ChunkOf(i));
    var r := OpenZone(d, z, i, ChunkOf(i));
    SameTerritory(s, r);
    ZonePlace(s, z);
    OneMore(0, ChunkOf(i));
    FreeAtMostAll(s.zones[z], s.zonePages);
    WeightChange(s, r, z);
    ListsFrame(d.(zones := r.zones, lists := r.lists), r);
    ReuseLive(s, r, r.zones[z]);
  }

  lemma ListsFrame(s: Slab, r: Slab)
    requires Lists(s) && r.zones == s.zones && r.lists == s.lists && r.cached == s.cached
    ensures Lists(r)
  {
    forall z | z in r.zones ensures Listed(r, z) {
      assert Listed(s, z);
    }
  }

  lemma AddZoneTerritory(s: Slab, zone: Zone)
    requires Territory(s) && PageAlloc(s.runs, s.zonePages).0.Some?
    ensures var (at, rest) := PageAlloc(s.runs, s.zonePages); var z := at.value;
      && z < s.pages && z !in s.zones && z !in s.large
      && Territory(AddZone(s, z, rest).(zones := s.zones[z := zone]))
  {
    hide Sorted, IsFree, PageAlloc, Claim;
    var n := s.zonePages;
    AllocKeeps(s.runs, n);
    var (at, rest) := PageAlloc(s.runs, n);
    var z := at.value;
    FreeMeansNobody(s, z, n);
    NobodyThere(s, z, n);
    var r := AddZone(s, z, rest).(zones := s.zones[z := zone]);
    ClaimedFree(s, z, n, OfZone(z), rest);
    forall y | y in r.zones ensures Held(r.owner, y, n, OfZone(y)) && Mapped(r.usage, y, n) {
      if y != z {
        ClaimElsewhere(s.owner, y, n, OfZone(y), z, n, OfZone(z));
        assert Mapped(s.usage, y, n);
      }
    }
    forall m | m in r.large ensures Held(r.owner, m, r.large[m], OfLarge(m)) {
      ClaimElsewhere(s.owner, m, s.large[m], OfLarge(m), z, n, OfZone(z));
    }
    forall p | 0 <= p < r.pages ensures OwnerOk(r, p) {
      assert OwnerOk(s, p);
    }
  }

  lemma AddZoneKeeps(s: Slab, i: nat)
    requires Inv(s) && i < NZONES && 4 * ChunkOf(i) <= s.zonePages * PAGE && PageAlloc(s.runs, s.zonePages).0.Some?
    ensures var size := ChunkOf(i);
      Base(size) <= s.zonePages * PAGE && Capacity(s.zonePages * PAGE, size) > 0 && |s.lists| == NZONES
    ensures var (at, rest) := PageAlloc(s.runs, s.zonePages); var z := at.value;
      var r := OpenZone(AddZone(s, z, rest), z, i, ChunkOf(i));
      && Inv(r) && !Live(s, Chunk(z, 0)) && Unmoved(s, r) && z in r.zones && r.zones[z].chunkSize == ChunkOf(i)
      && forall h :: Live(r, h) <==> Live(s, h) || h == Chunk(z, 0)
  {
    hide Territory, Sum, Weights, ZoneOk, ChunkOf, Base, Capacity, PageAlloc, Claim, Listed;
    FreshZone(i, s.zonePages);
    var (at, rest) := PageAlloc(s.runs, s.zonePages);
    var z := at.value;
    var nmax := Capacity(s.zonePages * PAGE, ChunkOf(i));
    var zone := Zone(nmax - 1, nmax, 0, ChunkOf(i), i, []);
    AddZoneTerritory(s, zone);
    var r := OpenZone(AddZone(s, z, rest), z, i, ChunkOf(i));
    SameTerritory(AddZone(s, z, rest).(zones := s.zones[z := zone]), r);
    forall k | 0 <= k < |s.cached| ensures s.cached[k] in s.zones && s.cached[k] != z {
    }
    OpenZoneLists(s, z, i, nmax, ChunkOf(i));
    ListsFrame(s.(zones := r.zones, lists := r.lists), r);
    OneMore(0, ChunkOf(i));
    WeightChange(s, r, z);
    assert z !in s.cached;
  }

  // ----- freeing a chunk -----

  lemma PutChunkKeeps(s: Slab, z: nat, k: nat)
    requires Inv(s) && Live(s, Chunk(z, k))
    ensures z in s.zones && s.zones[z].index < |s.lists| == NZONES
    ensures var r := PutChunk(s, z, k);
      && Inv(r) && Unmoved(s, r) && z in r.zones && z !in r.cached && r.zones[z].index < NZONES && r.zones[z].nfree > 0
      && forall h :: Live(r, h) <==> Live(s, h) && h != Chunk(z, k)
  {
    hide Territory, Sum, Weights, Lists, ChunkOf, ZoneOk;
    Shape(s);
    var zone := s.zones[z];
    ChunkSize(zone, s.zonePages);
    var r := PutChunk(s, z, k);
    PutChunkZone(zone, s.zonePages, k);
    ChunkSize(r.zones[z], s.zonePages);
    PutChunkLists(s, z, k);
    SameTerritory(s, r);
    ZonePlace(s, z);
    OneMore(zone.nmax - zone.nfree - 1, zone.chunkSize);
    WeightChange(s, r, z);
  }

  lemma PutChunkZone(zone: Zone, zonePages: nat, k: nat)
    requires ZoneOk(zone, zonePages) && k <= zone.uindex && k !in zone.freeChunks
    ensures ZoneOk(zone.(nfree := zone.nfree + 1, freeChunks := [k] + zone.freeChunks), zonePages)
  {
    hide ChunkOf, Base, Capacity;
  }

  lemma PutChunkLists(s: Slab, z: nat, k: nat)
    requires Lists(s) && z in s.zones && z !in s.cached && s.zones[z].index < NZONES
    ensures Lists(PutChunk(s, z, k))
  {
    var r := PutChunk(s, z, k);
    assert Listed(s, z);
    forall y | y in r.zones ensures Listed(r, y) {
      assert Listed(s, y);
    }
  }

  // ----- zones that have become free -----

  ghost predicate ListsBut(s: Slab) {
    && |s.lists| == NZONES && |s.cached| <= CACHED_ZONES + 1 && NoDup(s.cached)
    && (forall i | 0 <= i < |s.cached| :: s.cached[i] in s.zones)
    && (forall i | 0 <= i < NZONES :: NoDup(s.lists[i]) && forall k | 0 <= k < |s.lists[i]| :: s.lists[i][k] in s.zones)
    && (forall z | z in s.zones :: Listed(s, z))
  }

  lemma CacheLists(s: Slab, z: nat)
    requires Lists(s) && z in s.zones && z !in s.cached && s.zones[z].index < NZONES && s.zones[z].nfree == s.zones[z].nmax
    ensures ListsBut(Cache(s, z))
  {
    hide Remove;
    var r := Cache(s, z);
    var i := s.zones[z].index;
    var q := s.lists[i];
    assert Listed(s, z);
    RemoveNoDup(q, z);
    forall j | 0 <= j < NZONES ensures NoDup(r.lists[j]) && forall k | 0 <= k < |r.lists[j]| :: r.lists[j][k] in r.zones {
      forall k | 0 <= k < |r.lists[j]| ensures r.lists[j][k] in r.zones {
        assert r.lists[j][k] in r.lists[j];
        assert r.lists[j][k] in s.lists[j];
      }
    }
    forall y | y in r.zones ensures Listed(r, y) {
      assert Listed(s, y);
    }
  }

  lemma EvictTerritory(s: Slab)
    requires Territory(s) && s.cached != [] && s.cached[0] in s.zones
    ensures Territory(Evict(s))
  {
    hide Sorted, IsFree, PageFree;
    var z, n := s.cached[0], s.zonePages;
    assert Held(s.owner, z, n, OfZone(z));
    var r := Evict(s);
    forall p | z <= p < z + n ensures !IsFree(s.runs, p) {
      assert s.owner[p] == OfZone(z);
    }
    FreeKeeps(s.runs, z, n);
    forall p: int ensures IsFree(r.runs, p) <==> 0 <= p < r.pages && r.owner[p] == Nobody {
    }
    forall y | y in r.zones ensures Held(r.owner, y, n, OfZone(y)) && Mapped(r.usage, y, n) {
      Disjoint(s.owner, y, n, OfZone(y), z, n, OfZone(z));
      ClaimElsewhere(s.owner, y, n, OfZone(y), z, n, Nobody);
      assert Mapped(s.usage, y, n);
    }
    forall m | m in r.large ensures Held(r.owner, m, r.large[m], OfLarge(m)) && r.usage[m] == s.usage[m] {
      Disjoint(s.owner, m, s.large[m], OfLarge(m), z, n, OfZone(z));
      ClaimElsewhere(s.owner, m, s.large[m], OfLarge(m), z, n, Nobody);
    }
    forall p | 0 <= p < r.pages ensures OwnerOk(r, p) {
      assert OwnerOk(s, p);
    }
  }

  lemma EvictLists(s: Slab)
    requires ListsBut(s) && s.cached != []
    ensures Lists(Evict(s))
  {
    var r := Evict(s);
    var z := s.cached[0];
    assert s.cached == [z] + s.cached[1..] && z !in s.cached[1..];
    assert Listed(s, z);
    forall y | y in r.zones ensures Listed(r, y) {
      assert Listed(s, y);
    }
    forall i | 0 <= i < NZONES ensures forall k | 0 <= k < |r.lists[i]| :: r.lists[i][k] in r.zones {
      assert z !in s.lists[i];
    }
  }

  lemma SettleKeeps(s: Slab, z: nat)
    requires Inv(s) && z in s.zones && z !in s.cached && s.zones[z].index < |s.lists|
    ensures Inv(Settle(s, z)) && Unmoved(s, Settle(s, z)) && forall h :: Live(Settle(s, z), h) <==> Live(s, h)
    ensures Settle(s, z).used == s.used
  {
    hide Territory, Sum, Weights, Lists, ListsBut, ZoneOk;
    Shape(s);
    if Retires(s, z) {
      CacheLists(s, z);
      var c := Cache(s, z);
      SameTerritory(s, c);
      SameWeights(s, c);
      NoneLive(s, z);
      if |c.cached| > CACHED_ZONES {
        EvictTerritory(c);
        EvictLists(c);
        ZonePlace(s, z);
        WeightChange(c, Evict(c), z);
      } else {
        FewCached(c);
      }
    }
  }

  lemma FewCached(s: Slab)
    requires ListsBut(s) && |s.cached| <= CACHED_ZONES
    ensures Lists(s)
  {
  }

  /** A zone all of whose chunks are counted free has none that is live. */
  lemma NoneLive(s: Slab, z: nat)
    requires z in s.zones && ZoneOk(s.zones[z], s.zonePages) && s.zones[z].nfree == s.zones[z].nmax
    ensures forall k :: !Live(s, Chunk(z, k))
  {
    var zone := s.zones[z];
    forall k ensures !Live(s, Chunk(z, k)) {
      if Live(s, Chunk(z, k)) {
        Pigeonhole(zone.freeChunks + [k], zone.uindex + 1);
      }
    }
  }
}
