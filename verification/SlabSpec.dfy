/**
 The slab allocator: pages, zones of equal chunks, the map from pages to what they belong to, and the lists
 of zones. `owner` and `large` record who holds each page; nothing in the operations depends on them.
 */
module SlabSpec {
  import opened Common
  import opened SlabPages
  import opened SlabZones

  const CACHED_ZONES: nat := 2   // ZONE_RELEASE_THRESH

  /** A zone's header. Chunks are numbered from the zone's base; `freeChunks` is the list of freed ones. */
  datatype Zone = Zone(nfree: nat, nmax: nat, uindex: nat, chunkSize: nat, index: nat, freeChunks: seq<nat>)

  datatype Kind = FreePage | Small | Large

  /** An entry of the page map: a zone's page has its distance from the zone, a large run's first page its length. */
  datatype Usage = Usage(kind: Kind, size: nat)

  datatype Owner = Nobody | PageMap | OfZone(z: nat) | OfLarge(l: nat)

  datatype Slab = Slab(
    pages: nat, zonePages: nat, limit: nat,
    runs: seq<Run>, usage: seq<Usage>, zones: map<nat, Zone>, lists: seq<seq<nat>>, cached: seq<nat>, used: int,
    owner: seq<Owner>, large: map<nat, nat>)

  // ----- pages -----

  ghost predicate Held(owner: seq<Owner>, at: nat, n: nat, o: Owner) {
    at + n <= |owner| && forall p | at <= p < at + n :: owner[p] == o
  }

  ghost predicate Mapped(usage: seq<Usage>, z: nat, n: nat) {
    z + n <= |usage| && forall p | z <= p < z + n :: usage[p] == Usage(Small, p - z)
  }

  ghost predicate OwnerOk(s: Slab, p: nat)
    requires p < |s.owner|
  {
    match s.owner[p]
    case OfZone(z) => z in s.zones && z <= p < z + s.zonePages
    case OfLarge(l) => l in s.large && l <= p < l + s.large[l]
    case _ => true
  }

  /** Every page is free, or held by exactly one zone, one large run or the page map, which says so. */
  ghost predicate Territory(s: Slab) {
    && |s.usage| == |s.owner| == s.pages && s.zonePages > 0
    && Sorted(s.runs)
    && (forall p: int :: IsFree(s.runs, p) <==> 0 <= p < s.pages && s.owner[p] == Nobody)
    && (forall z | z in s.zones :: Held(s.owner, z, s.zonePages, OfZone(z)) && Mapped(s.usage, z, s.zonePages))
    && (forall l | l in s.large :: s.large[l] > 0 && Held(s.owner, l, s.large[l], OfLarge(l)))
    && (forall l | l in s.large :: l < s.pages && s.usage[l] == Usage(Large, s.large[l]))
    && (forall p | 0 <= p < s.pages :: OwnerOk(s, p))
  }

  // ----- zones -----

  /** The zone's chunk size is one of the 72, and its counters account for all its chunks. */
  ghost predicate ZoneOk(zone: Zone, zonePages: nat) {
    && zone.index < NZONES && zone.chunkSize == ChunkOf(zone.index)
    && 4 * zone.chunkSize <= zonePages * PAGE && MIN_ZONE_SIZE <= zonePages * PAGE
    && Base(zone.chunkSize) <= zonePages * PAGE
    && zone.nmax == Capacity(zonePages * PAGE, zone.chunkSize) && zone.uindex < zone.nmax
    && NoDup(zone.freeChunks) && (forall i | 0 <= i < |zone.freeChunks| :: zone.freeChunks[i] <= zone.uindex)
    && zone.nfree == zone.nmax - 1 - zone.uindex + |zone.freeChunks|
  }

  ghost predicate ZonesOk(s: Slab) {
    forall z | z in s.zones :: ZoneOk(s.zones[z], s.zonePages)
  }

  // ----- lists -----

  /** A zone is either cached, being wholly free, or on the list of its size exactly when it has a free chunk. */
  ghost predicate Listed(s: Slab, z: nat)
    requires z in s.zones && |s.lists| == NZONES
  {
    && (z in s.cached ==> s.zones[z].nfree == s.zones[z].nmax)
    && forall i | 0 <= i < NZONES ::
         z in s.lists[i] <==> z !in s.cached && i == s.zones[z].index && s.zones[z].nfree > 0
  }

  ghost predicate Lists(s: Slab) {
    && |s.lists| == NZONES && |s.cached| <= CACHED_ZONES && NoDup(s.cached)
    && (forall i | 0 <= i < |s.cached| :: s.cached[i] in s.zones)
    && (forall i | 0 <= i < NZONES :: NoDup(s.lists[i]) && forall k | 0 <= k < |s.lists[i]| :: s.lists[i][k] in s.zones)
    && (forall z | z in s.zones :: Listed(s, z))
  }

  // ----- accounting -----

  /** The bytes in use that are counted at page `p`: those of the zone or large run that starts there. */
  function Weight(s: Slab, p: nat): nat {
    if p in s.large then s.large[p] * PAGE
    else if p in s.zones && s.zones[p].nfree <= s.zones[p].nmax then
      (s.zones[p].nmax - s.zones[p].nfree) * s.zones[p].chunkSize
    else 0
  }

  function Weights(s: Slab): (w: seq<nat>)
    ensures |w| == s.pages && forall p | 0 <= p < s.pages :: w[p] == Weight(s, p)
  {
    seq(s.pages, p requires 0 <= p => Weight(s, p))
  }

  ghost predicate Sizes(s: Slab) {
    && s.zonePages * PAGE >= MIN_ZONE_SIZE
    && s.limit == if s.zonePages * PAGE / 4 > ZONE_LIMIT then ZONE_LIMIT else s.zonePages * PAGE / 4
  }

  ghost predicate Inv(s: Slab) {
    && Sizes(s) && Territory(s) && ZonesOk(s) && Lists(s) && s.used == Sum(Weights(s))
  }

  // ----- what is allocated -----

  datatype Handle = Pages(l: nat) | Chunk(z: nat, k: nat)

  /** Handles of what has been handed out and not been given back. */
  predicate Live(s: Slab, h: Handle) {
    match h
    case Pages(l) => l in s.large
    case Chunk(z, k) => z in s.zones && z !in s.cached && k <= s.zones[z].uindex && k !in s.zones[z].freeChunks
  }

  function Address(s: Slab, h: Handle): nat
    requires Live(s, h) && (h.Chunk? ==> s.zones[h.z].chunkSize > 0)
  {
    match h
    case Pages(l) => l * PAGE
    case Chunk(z, k) => ChunkAt(z, s.zones[z].chunkSize, k)
  }

  function Extent(s: Slab, h: Handle): nat
    requires Live(s, h)
  {
    match h
    case Pages(l) => s.large[l] * PAGE
    case Chunk(z, _) => s.zones[z].chunkSize
  }

  // ----- steps -----

  function Claim(owner: seq<Owner>, at: nat, n: nat, o: Owner): (r: seq<Owner>)
    ensures |r| == |owner|
    ensures forall p | 0 <= p < |owner| :: r[p] == if at <= p < at + n then o else owner[p]
  {
    seq(|owner|, p requires 0 <= p < |owner| => if at <= p < at + n then o else owner[p])
  }

  /** The loops that describe a zone's pages in the page map. */
  function MarkZone(usage: seq<Usage>, z: nat, n: nat): (r: seq<Usage>)
    ensures |r| == |usage|
    ensures forall p | 0 <= p < |usage| :: r[p] == if z <= p < z + n then Usage(Small, p - z) else usage[p]
  {
    seq(|usage|, p requires 0 <= p < |usage| => if z <= p < z + n then Usage(Small, p - z) else usage[p])
  }

  function UnmarkZone(usage: seq<Usage>, z: nat, n: nat): (r: seq<Usage>)
    ensures |r| == |usage|
    ensures forall p | 0 <= p < |usage| :: r[p] == if z <= p < z + n then Usage(FreePage, 0) else usage[p]
  {
    seq(|usage|, p requires 0 <= p < |usage| => if z <= p < z + n then Usage(FreePage, 0) else usage[p])
  }

  /** A request from the size limit on takes whole pages. */
  function TakeRun(s: Slab, n: nat): (Slab, Option<nat>)
    requires |s.usage| == s.pages
  {
    var (at, rest) := PageAlloc(s.runs, n);
    if at.None? || at.value >= s.pages then (s, None)
    else
      var l := at.value;
      (s.(runs := rest, usage := s.usage[l := Usage(Large, n)], used := s.used + n * PAGE,
          owner := Claim(s.owner, l, n, OfLarge(l)), large := s.large[l := n]), Some(l))
  }

  function GiveRun(s: Slab, l: nat): Slab
    requires l < |s.usage|
  {
    var n := s.usage[l].size;
    s.(runs := PageFree(s.runs, l, n), usage := s.usage[l := s.usage[l].(size := 0)], used := s.used - n * PAGE,
       owner := Claim(s.owner, l, n, Nobody), large := s.large - {l})
  }

  /** Taking a chunk from the zone at the head of list `i`: a chunk never used before, if there is one. */
  function TakeChunk(s: Slab, i: nat): (Slab, nat)
    requires i < |s.lists| && s.lists[i] != [] && s.lists[i][0] in s.zones
    requires var zone := s.zones[s.lists[i][0]]; zone.nfree > 0 && (zone.uindex + 1 == zone.nmax ==> zone.freeChunks != [])
  {
    var z := s.lists[i][0];
    var zone := s.zones[z].(nfree := s.zones[z].nfree - 1);
    var unused := zone.uindex + 1 != zone.nmax;
    var k := if unused then zone.uindex + 1 else zone.freeChunks[0];
    var zone' := if unused then zone.(uindex := k) else zone.(freeChunks := zone.freeChunks[1..]);
    var list := if zone.nfree == 0 then s.lists[i][1..] else s.lists[i];
    (s.(zones := s.zones[z := zone'], lists := s.lists[i := list], used := s.used + zone.chunkSize), k)
  }

  /** Pages for one more zone, already described in the page map. */
  function AddZone(s: Slab, z: nat, runs: seq<Run>): Slab {
    s.(runs := runs, usage := MarkZone(s.usage, z, s.zonePages), owner := Claim(s.owner, z, s.zonePages, OfZone(z)))
  }

  /** The new zone's header, its first chunk taken, and its place at the head of its list. */
  function OpenZone(s: Slab, z: nat, i: nat, size: nat): Slab
    requires i < |s.lists| && size > 0 && Base(size) <= s.zonePages * PAGE && Capacity(s.zonePages * PAGE, size) > 0
  {
    var nmax := Capacity(s.zonePages * PAGE, size);
    s.(zones := s.zones[z := Zone(nmax - 1, nmax, 0, size, i, [])],
       lists := s.lists[i := [z] + s.lists[i]], used := s.used + size)
  }

  /** Freeing chunk `k` of zone `z`, up to the test whether the whole zone is free. */
  function PutChunk(s: Slab, z: nat, k: nat): Slab
    requires z in s.zones && s.zones[z].index < |s.lists|
  {
    var zone := s.zones[z];
    var i := zone.index;
    s.(zones := s.zones[z := zone.(nfree := zone.nfree + 1, freeChunks := [k] + zone.freeChunks)],
       lists := if zone.nfree == 0 then s.lists[i := [z] + s.lists[i]] else s.lists,
       used := s.used - zone.chunkSize)
  }

  predicate Retires(s: Slab, z: nat)
    requires z in s.zones && s.zones[z].index < |s.lists|
  {
    s.zones[z].nfree == s.zones[z].nmax && s.lists[s.zones[z].index] != [z]
  }

  /** A wholly free zone goes to the cache of free zones. */
  function Cache(s: Slab, z: nat): Slab
    requires z in s.zones && s.zones[z].index < |s.lists|
  {
    var i := s.zones[z].index;
    s.(lists := s.lists[i := Remove(s.lists[i], z)], cached := [z] + s.cached)
  }

  /** And one too many in the cache gives its pages back. */
  function Evict(s: Slab): Slab
    requires s.cached != []
  {
    var z := s.cached[0];
    s.(cached := s.cached[1..], usage := UnmarkZone(s.usage, z, s.zonePages), runs := PageFree(s.runs, z, s.zonePages),
       owner := Claim(s.owner, z, s.zonePages, Nobody), zones := s.zones - {z})
  }

  function Settle(s: Slab, z: nat): Slab
    requires z in s.zones && s.zones[z].index < |s.lists|
  {
    if !Retires(s, z) then s
    else
      var c := Cache(s, z);
      if |c.cached| > CACHED_ZONES then Evict(c) else c
  }
}
