/** Chunk sizes, and how a zone of pages is cut into chunks of one size. Addresses are offsets from the heap's first page. */
module SlabZones {

  const PAGE: nat := 4096
  const HEADER: nat := 36   // sizeof(struct rt_slab_zone) on a 32-bit core
  const NZONES: nat := 72
  const MIN_ZONE_SIZE: nat := 32768
  const ZONE_LIMIT: nat := 16384

  function RoundUp(n: nat, g: nat): nat
    requires g > 0
  {
    (n + (g - 1)) / g * g
  }

  /** `zoneindex`: the index, and what the request is rounded up to. */
  function ZoneIndex(n: nat): (nat, nat)
    requires n > 0
  {
    if n < 128 then (RoundUp(n, 8) / 8 - 1, RoundUp(n, 8))
    else if n < 256 then (RoundUp(n, 16) / 16 + 7, RoundUp(n, 16))
    else if n < 512 then (RoundUp(n, 32) / 32 + 15, RoundUp(n, 32))
    else if n < 1024 then (RoundUp(n, 64) / 64 + 23, RoundUp(n, 64))
    else if n < 2048 then (RoundUp(n, 128) / 128 + 31, RoundUp(n, 128))
    else if n < 4096 then (RoundUp(n, 256) / 256 + 39, RoundUp(n, 256))
    else if n < 8192 then (RoundUp(n, 512) / 512 + 47, RoundUp(n, 512))
    else if n < 16384 then (RoundUp(n, 1024) / 1024 + 55, RoundUp(n, 1024))
    else (0, n)
  }

  /** The chunk size that belongs to an index: 16 sizes 8 apart, then 8 sizes to each doubling. */
  function ChunkOf(i: nat): (c: nat)
    ensures c > 0 && c % 8 == 0
  {
    if i < 16 then 8 * (i + 1)
    else if i < 24 then 16 * (i - 7)
    else if i < 32 then 32 * (i - 15)
    else if i < 40 then 64 * (i - 23)
    else if i < 48 then 128 * (i - 31)
    else if i < 56 then 256 * (i - 39)
    else if i < 64 then 512 * (i - 47)
    else 1024 * (i - 55)
  }

  lemma ChunksGrow(i: nat, j: nat)
    requires i < j
    ensures ChunkOf(i) < ChunkOf(j)
  {
  }

  /** Rounding up to the granule `g` in the part of the range where `ChunkOf` has sizes `g` apart. */
  lemma RoundedIn(n: nat, g: nat, i: nat)
    requires g in {8, 16, 32, 64, 128, 256, 512, 1024} && i == RoundUp(n, g) / g && n > 0
    ensures RoundUp(n, g) == g * i && g * (i - 1) < n <= g * i && i > 0
  {
  }

  lemma IndexIsChunk(n: nat)
    requires 0 < n < 16384
    ensures var (i, size) := ZoneIndex(n);
      i < NZONES && size == ChunkOf(i) && n <= size && (i > 0 ==> ChunkOf(i - 1) < n)
    ensures var size := ZoneIndex(n).1; if n < 128 then size < n + 8 else 8 * (size - n) < n
  {
    hide RoundUp;
    if n < 128 {
      RoundedIn(n, 8, RoundUp(n, 8) / 8);
    } else if n < 256 {
      RoundedIn(n, 16, RoundUp(n, 16) / 16);
    } else if n < 512 {
      RoundedIn(n, 32, RoundUp(n, 32) / 32);
    } else if n < 1024 {
      RoundedIn(n, 64, RoundUp(n, 64) / 64);
    } else if n < 2048 {
      RoundedIn(n, 128, RoundUp(n, 128) / 128);
    } else if n < 4096 {
      RoundedIn(n, 256, RoundUp(n, 256) / 256);
    } else if n < 8192 {
      RoundedIn(n, 512, RoundUp(n, 512) / 512);
    } else {
      RoundedIn(n, 1024, RoundUp(n, 1024) / 1024);
    }
  }

  /**
   The index is that of the smallest chunk size that will do, and no more than an eighth of a request of
   128 bytes or more is wasted.
   */
  lemma SmallestChunk(n: nat)
    requires 0 < n < 16384
    ensures var (i, size) := ZoneIndex(n);
      && i < NZONES && size == ChunkOf(i) && n <= size
      && (forall j: nat | n <= ChunkOf(j) :: i <= j)
      && (if n < 128 then size < n + 8 else 8 * (size - n) < n)
  {
    hide ZoneIndex, ChunkOf;
    IndexIsChunk(n);
    var i := ZoneIndex(n).0;
    forall j: nat | n <= ChunkOf(j) ensures i <= j {
      if j + 1 < i {
        ChunksGrow(j, i - 1);
      }
    }
  }

  /** Two requests share a zone list exactly when they are rounded to the same size. */
  lemma SameZone(n: nat, m: nat)
    requires 0 < n < 16384 && 0 < m < 16384
    ensures ZoneIndex(n).0 == ZoneIndex(m).0 <==> ZoneIndex(n).1 == ZoneIndex(m).1
  {
    hide ZoneIndex, ChunkOf;
    SmallestChunk(n);
    SmallestChunk(m);
    var i, j := ZoneIndex(n).0, ZoneIndex(m).0;
    ChunksDiffer(i, j);
  }

  lemma ChunksDiffer(i: nat, j: nat)
    ensures ChunkOf(i) == ChunkOf(j) <==> i == j
  {
    hide ChunkOf;
    if i < j {
      ChunksGrow(i, j);
    } else if j < i {
      ChunksGrow(j, i);
    }
  }

  /** A rounded size is its own rounding. */
  lemma RoundedTwice(n: nat)
    requires 0 < n < 16384 && ZoneIndex(n).1 < 16384
    ensures ZoneIndex(ZoneIndex(n).1) == ZoneIndex(n)
  {
    hide ZoneIndex, ChunkOf;
    SmallestChunk(n);
    var (i, size) := ZoneIndex(n);
    SmallestChunk(size);
    var j := ZoneIndex(size).0;
    assert j <= i;
    if j < i {
      ChunksGrow(j, i);
    }
  }

  // ----- powers of two -----

  predicate IsPower(n: nat) {
    n == 1 || (n > 0 && n % 2 == 0 && IsPower(n / 2))
  }

  lemma {:induction false} PowerDivides(a: nat, b: nat)
    requires IsPower(a) && IsPower(b) && a <= b
    ensures a > 0 && b % a == 0
  {
    if a > 1 {
      PowerDivides(a / 2, b / 2);
      var q := b / 2 / (a / 2);
      assert b / 2 == q * (a / 2);
      assert b == q * a;
      MultipleOf(q, a);
    }
  }

  lemma TimesGrows(a: nat, b: nat, c: nat)
    requires a <= b
    ensures a * c <= b * c
  {
  }

  lemma OneMore(q: nat, m: nat)
    ensures (q + 1) * m == q * m + m
  {
  }

  /** Division with remainder is unique. */
  lemma RemainderIs(n: nat, m: nat, q: nat, r: nat)
    requires n == q * m + r && r < m
    ensures n / m == q && n % m == r
  {
    var p := n / m;
    QuotientAndRest(n, m);
    OneMore(q, m);
    OneMore(p, m);
    if q < p {
      TimesGrows(q + 1, p, m);
    } else if p < q {
      TimesGrows(p + 1, q, m);
    }
  }

  lemma QuotientAndRest(n: nat, m: nat)
    requires m > 0
    ensures n == n / m * m + n % m && n % m < m
  {
  }

  lemma MultipleOf(q: nat, a: nat)
    requires a > 0
    ensures q * a % a == 0
  {
    RemainderIs(q * a, a, q, 0);
  }

  lemma PageIsPower()
    ensures IsPower(PAGE)
  {
    assert IsPower(1) && IsPower(2) && IsPower(4) && IsPower(8) && IsPower(16) && IsPower(32) && IsPower(64);
    assert IsPower(128) && IsPower(256) && IsPower(512) && IsPower(1024) && IsPower(2048);
  }

  lemma RoundUpBounds(n: nat, g: nat)
    requires g > 0
    ensures n <= RoundUp(n, g) < n + g && RoundUp(n, g) % g == 0
  {
    var q := (n + (g - 1)) / g;
    MultipleOf(q, g);
    assert n + (g - 1) == q * g + (n + (g - 1)) % g;
  }

  // ----- the inside of a zone -----

  /** Where the chunks begin: after the header, and for a power of two at a multiple of it. */
  function Base(size: nat): nat
    requires size > 0
  {
    if IsPower(size) then RoundUp(HEADER, size) else RoundUp(HEADER, 8)
  }

  function Capacity(zoneSize: nat, size: nat): nat
    requires size > 0 && Base(size) <= zoneSize
  {
    Quotient(zoneSize - Base(size), size)
  }

  function Quotient(n: nat, m: nat): nat
    requires m > 0
  {
    n / m
  }

  /** Where chunk number `k` of the zone at page `z` starts. */
  function ChunkAt(z: nat, size: nat, k: nat): nat
    requires size > 0
  {
    z * PAGE + Base(size) + k * size
  }

  /** Every zone holds at least two chunks, and all of them fit behind the header. */
  lemma ZoneHolds(zoneSize: nat, size: nat)
    requires 0 < size && 4 * size <= zoneSize && MIN_ZONE_SIZE <= zoneSize
    ensures HEADER <= Base(size) <= zoneSize && 2 <= Capacity(zoneSize, size)
    ensures Base(size) + Capacity(zoneSize, size) * size <= zoneSize
  {
    RoundUpBounds(HEADER, size);
    RoundUpBounds(HEADER, 8);
    var room := zoneSize - Base(size);
    assert room >= 2 * size;
    QuotientAndRest(room, size);
    if room / size < 2 {
      TimesGrows(room / size, 1, size);
    }
  }

  /** A chunk lies in its zone behind the header, and chunks do not overlap. */
  lemma ChunkInZone(z: nat, zonePages: nat, size: nat, k: nat)
    requires 0 < size && 4 * size <= zonePages * PAGE && MIN_ZONE_SIZE <= zonePages * PAGE
    requires k < Capacity(zonePages * PAGE, size)
    ensures z * PAGE + HEADER <= ChunkAt(z, size, k) && ChunkAt(z, size, k) + size <= (z + zonePages) * PAGE
    ensures z <= ChunkAt(z, size, k) / PAGE < z + zonePages
  {
    hide Base, Capacity;
    ZoneHolds(zonePages * PAGE, size);
    TimesGrows(k + 1, Capacity(zonePages * PAGE, size), size);
    assert (k + 1) * size == k * size + size;
    assert (z + zonePages) * PAGE == z * PAGE + zonePages * PAGE;
    DivBounds(ChunkAt(z, size, k), z, z + zonePages);
  }

  lemma DivBounds(a: nat, lo: nat, hi: nat)
    requires lo * PAGE <= a < hi * PAGE
    ensures lo <= a / PAGE < hi
  {
  }

  lemma ChunksApart(z: nat, size: nat, j: nat, k: nat)
    requires size > 0 && j < k
    ensures ChunkAt(z, size, j) + size <= ChunkAt(z, size, k)
  {
    hide Base;
    TimesGrows(j + 1, k, size);
    assert (j + 1) * size == j * size + size;
  }

  // ----- alignment -----

  lemma SumModulo(a: nat, b: nat, m: nat)
    requires m > 0 && b % m == 0
    ensures (a + b) % m == a % m
  {
    QuotientAndRest(a, m);
    QuotientAndRest(b, m);
    Distribute(a / m, b / m, m);
    RemainderIs(a + b, m, a / m + b / m, a % m);
  }

  lemma Distribute(a: nat, b: nat, c: nat)
    ensures (a + b) * c == a * c + b * c
  {
  }

  /**
   A chunk whose size is a power of two is aligned to it exactly when its zone is, and zones start at pages:
   so up to the page size always, beyond it not always.
   */
  lemma PowersAligned(z: nat, size: nat, k: nat)
    requires size > 0 && IsPower(size)
    ensures ChunkAt(z, size, k) % size == 0 <==> z * PAGE % size == 0
    ensures size <= PAGE ==> ChunkAt(z, size, k) % size == 0
  {
    hide IsPower, RoundUp;
    RoundUpBounds(HEADER, size);
    MultipleOf(k, size);
    SumModulo(z * PAGE, Base(size), size);
    SumModulo(z * PAGE + Base(size), k * size, size);
    if size <= PAGE {
      PageIsPower();
      PowerDivides(size, PAGE);
      var q := PAGE / size;
      assert PAGE == q * size;
      assert z * PAGE == (z * q) * size by {
        Assoc(z, q, size);
      }
      MultipleOf(z * q, size);
    }
  }

  lemma Assoc(a: nat, b: nat, c: nat)
    ensures a * (b * c) == (a * b) * c
  {
  }

  /** The same for a heap that starts at a page. */
  lemma PowersAlignedFrom(start: nat, z: nat, size: nat, k: nat)
    requires size > 0 && IsPower(size) && start % PAGE == 0
    ensures (start + ChunkAt(z, size, k)) % size == 0 <==> (start + z * PAGE) % size == 0
    ensures size <= PAGE ==> (start + ChunkAt(z, size, k)) % size == 0
  {
    hide IsPower, Base, ChunkAt;
    var p := start / PAGE;
    QuotientAndRest(start, PAGE);
    Distribute(p, z, PAGE);
    assert start + ChunkAt(z, size, k) == ChunkAt(p + z, size, k) by {
      ShiftedZone(p, z, size, k);
    }
    PowersAligned(p + z, size, k);
  }

  lemma ShiftedZone(p: nat, z: nat, size: nat, k: nat)
    requires size > 0
    ensures p * PAGE + ChunkAt(z, size, k) == ChunkAt(p + z, size, k)
  {
    hide Base;
    Distribute(p, z, PAGE);
  }

  /** A power of two is rounded to itself, or to 8. */
  lemma PowerChunk(size: nat)
    requires IsPower(size) && size < 16384
    ensures size > 0 && ZoneIndex(size).1 == if size < 8 then 8 else size
  {
    PowersBelow(size);
  }

  lemma PowersBelow(n: nat)
    requires IsPower(n) && n < 16384
    ensures n in {1, 2, 4, 8, 16, 32, 64, 128, 256, 512, 1024, 2048, 4096, 8192}
    decreases n
  {
    if n > 1 {
      PowersBelow(n / 2);
    }
  }

  /** What is aligned to 8 is aligned to 1, 2 and 4. */
  lemma SmallPowers(size: nat, a: nat)
    requires IsPower(size) && size < 8 && a % 8 == 0
    ensures a % size == 0
  {
    hide IsPower;
    PowersBelow(size);
    QuotientAndRest(a, 8);
    var q := a / 8;
    assert a == 8 * q;
    RemainderIs(a, size, q * (8 / size), 0);
  }

  /** A chunk that a power-of-two request is rounded to is aligned to that request exactly when its zone is. */
  lemma PowerRequest(start: nat, z: nat, size: nat, k: nat)
    requires IsPower(size) && size < 16384 && start % PAGE == 0
    ensures size > 0
    ensures var c := ZoneIndex(size).1;
      && c > 0 && ((start + ChunkAt(z, c, k)) % size == 0 <==> (start + z * PAGE) % size == 0)
      && (size <= PAGE ==> (start + ChunkAt(z, c, k)) % size == 0)
  {
    hide IsPower, ZoneIndex, ChunkAt;
    PowerChunk(size);
    if size < 8 {
      EightIsPower();
      PowersAlignedFrom(start, z, 8, k);
      SmallPowers(size, start + ChunkAt(z, 8, k));
      SmallPowers(size, start + z * PAGE);
    } else {
      PowersAlignedFrom(start, z, size, k);
    }
  }

  lemma EightIsPower()
    ensures IsPower(8)
  {
    assert IsPower(1) && IsPower(2) && IsPower(4);
  }

  /** The promise that every power-of-two allocation is aligned to its size fails beyond the page size. */
  lemma NotAligned()
    ensures ZoneIndex(8000) == (63, 8192) && IsPower(8192)
    ensures ChunkAt(1, 8192, 0) == 12288 && ChunkAt(1, 8192, 0) % 8192 == 4096
  {
    PageIsPower();
    assert IsPower(8192) by {
      assert 8192 / 2 == PAGE;
    }
    assert RoundUp(8000, 512) == 8192;
    assert RoundUp(HEADER, 8192) == 8192;
  }
}
