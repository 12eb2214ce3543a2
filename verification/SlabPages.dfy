/** The page allocator under the slab: a list of free runs of pages, sorted by address and coalesced. */
module SlabPages {
  import opened Common

  /** A free run: its first page and its length in pages. */
  datatype Run = Run(at: nat, len: nat)

  predicate InRun(r: Run, p: int) {
    r.at <= p < r.at + r.len
  }

  ghost predicate IsFree(rs: seq<Run>, p: int) {
    exists i | 0 <= i < |rs| :: InRun(rs[i], p)
  }

  /** Ascending, and with at least one page that is not free between any two runs. */
  ghost predicate Sorted(rs: seq<Run>) {
    && (forall i | 0 <= i < |rs| :: rs[i].len > 0)
    && (forall i, j | 0 <= i < j < |rs| :: rs[i].at + rs[i].len < rs[j].at)
  }

  // ----- the two operations -----

  /** Where `rt_slab_page_alloc` stops: at the first run that is long enough. */
  function FirstFit(rs: seq<Run>, n: nat): (k: nat)
    ensures k <= |rs| && (k < |rs| ==> rs[k].len >= n)
    ensures forall i | 0 <= i < k :: rs[i].len < n
  {
    if rs == [] then 0 else if rs[0].len >= n then 0 else 1 + FirstFit(rs[1..], n)
  }

  /** The first `n` pages of run `k` taken. */
  function Cut(rs: seq<Run>, k: nat, n: nat): seq<Run>
    requires k < |rs| && n <= rs[k].len
  {
    if rs[k].len > n then rs[k := Run(rs[k].at + n, rs[k].len - n)] else rs[..k] + rs[k + 1..]
  }

  /** `rt_slab_page_alloc` */
  function PageAlloc(rs: seq<Run>, n: nat): (Option<nat>, seq<Run>) {
    var k := FirstFit(rs, n);
    if n == 0 || k == |rs| then (None, rs) else (Some(rs[k].at), Cut(rs, k, n))
  }

  /** One run in the place of the `d` runs from number `k` on. */
  function Spliced(rs: seq<Run>, k: nat, d: nat, x: Run): seq<Run>
    requires k + d <= |rs|
  {
    rs[..k] + [x] + rs[k + d..]
  }

  /** `rt_slab_page_free`, from run `k` on: the runs before it end below `at`. */
  function FreeFrom(rs: seq<Run>, k: nat, at: nat, n: nat): seq<Run>
    requires k <= |rs|
    decreases |rs| - k
  {
    if k == |rs| then Spliced(rs, k, 0, Run(at, n))
    else if rs[k].at + rs[k].len == at then
      if k + 1 < |rs| && at + n == rs[k + 1].at then Spliced(rs, k, 2, Run(rs[k].at, rs[k].len + n + rs[k + 1].len))
      else Spliced(rs, k, 1, Run(rs[k].at, rs[k].len + n))
    else if rs[k].at == at + n then Spliced(rs, k, 1, Run(at, n + rs[k].len))
    else if rs[k].at > at + n then Spliced(rs, k, 0, Run(at, n))
    else FreeFrom(rs, k + 1, at, n)
  }

  function PageFree(rs: seq<Run>, at: nat, n: nat): seq<Run> {
    FreeFrom(rs, 0, at, n)
  }

  // ----- what they do to the set of free pages -----

  lemma CutKeeps(rs: seq<Run>, k: nat, n: nat)
    requires Sorted(rs) && k < |rs| && 0 < n <= rs[k].len
    ensures Sorted(Cut(rs, k, n))
    ensures forall p :: IsFree(Cut(rs, k, n), p) <==> IsFree(rs, p) && !(rs[k].at <= p < rs[k].at + n)
  {
    hide Cut, IsFree;
    var r := Cut(rs, k, n);
    forall i, j | 0 <= i < j < |r| ensures r[i].at + r[i].len < r[j].at {
      CutAt(rs, k, n, i);
      CutAt(rs, k, n, j);
    }
    forall i | 0 <= i < |r| ensures r[i].len > 0 {
      CutAt(rs, k, n, i);
    }
    forall p ensures IsFree(r, p) <==> IsFree(rs, p) && !(rs[k].at <= p < rs[k].at + n) {
      CutFree(rs, k, n, p);
    }
  }

  lemma CutAt(rs: seq<Run>, k: nat, n: nat, i: nat)
    requires k < |rs| && n <= rs[k].len && i < |Cut(rs, k, n)|
    ensures var r := Cut(rs, k, n);
      && (rs[k].len > n ==> |r| == |rs| && r[i] == if i == k then Run(rs[k].at + n, rs[k].len - n) else rs[i])
      && (rs[k].len == n ==> |r| == |rs| - 1 && r[i] == rs[if i < k then i else i + 1])
  {
  }

  lemma CutLength(rs: seq<Run>, k: nat, n: nat)
    requires k < |rs| && n <= rs[k].len
    ensures |Cut(rs, k, n)| == if rs[k].len > n then |rs| else |rs| - 1
  {
  }

  lemma CutFree(rs: seq<Run>, k: nat, n: nat, p: int)
    requires Sorted(rs) && k < |rs| && 0 < n <= rs[k].len
    ensures IsFree(Cut(rs, k, n), p) <==> IsFree(rs, p) && !(rs[k].at <= p < rs[k].at + n)
  {
    hide Cut;
    var r := Cut(rs, k, n);
    CutLength(rs, k, n);
    if IsFree(r, p) {
      var i :| 0 <= i < |r| && InRun(r[i], p);
      CutAt(rs, k, n, i);
      var i' := if rs[k].len == n && i >= k then i + 1 else i;
      assert InRun(rs[i'], p);
    }
    if IsFree(rs, p) && !(rs[k].at <= p < rs[k].at + n) {
      var i :| 0 <= i < |rs| && InRun(rs[i], p);
      var i' := if rs[k].len == n && i > k then i - 1 else i;
      CutAt(rs, k, n, i');
      assert InRun(r[i'], p);
    }
  }

  /** The runs before `k` end below `at`, and none of the pages given back is free. */
  ghost predicate Insertable(rs: seq<Run>, k: nat, at: nat, n: nat) {
    && Sorted(rs) && k <= |rs| && n > 0
    && (forall i | 0 <= i < k :: rs[i].at + rs[i].len < at)
    && (forall p | at <= p < at + n :: !IsFree(rs, p))
  }

  /** A run lies wholly before or wholly after pages that are not free. */
  lemma Beside(rs: seq<Run>, i: nat, at: nat, n: nat)
    requires Sorted(rs) && i < |rs| && n > 0 && forall p | at <= p < at + n :: !IsFree(rs, p)
    ensures rs[i].at + rs[i].len <= at || at + n <= rs[i].at
  {
    var p := if rs[i].at > at then rs[i].at else at;
    if rs[i].at < at + n {
      assert !IsFree(rs, p);
      assert !InRun(rs[i], p);
    }
  }

  lemma SplicedAt(rs: seq<Run>, k: nat, d: nat, x: Run, i: nat)
    requires k + d <= |rs| && i < |Spliced(rs, k, d, x)|
    ensures var r := Spliced(rs, k, d, x);
      && |r| == |rs| + 1 - d && (i < k ==> r[i] == rs[i]) && (i == k ==> r[i] == x) && (i > k ==> r[i] == rs[i - 1 + d])
  {
  }

  lemma SplicedSorted(rs: seq<Run>, k: nat, d: nat, x: Run)
    requires Sorted(rs) && k + d <= |rs| && x.len > 0
    requires k > 0 ==> rs[k - 1].at + rs[k - 1].len < x.at
    requires k + d < |rs| ==> x.at + x.len < rs[k + d].at
    ensures Sorted(Spliced(rs, k, d, x))
  {
    hide Spliced;
    var r := Spliced(rs, k, d, x);
    forall i | 0 <= i < |r| ensures r[i].len > 0 {
      SplicedAt(rs, k, d, x, i);
    }
    forall i, j | 0 <= i < j < |r| ensures r[i].at + r[i].len < r[j].at {
      SplicedAt(rs, k, d, x, i);
      SplicedAt(rs, k, d, x, j);
    }
  }

  lemma SplicedFree(rs: seq<Run>, k: nat, d: nat, x: Run, p: int)
    requires k + d <= |rs|
    requires forall i | k <= i < k + d && InRun(rs[i], p) :: InRun(x, p)
    ensures IsFree(Spliced(rs, k, d, x), p) <==> IsFree(rs, p) || InRun(x, p)
  {
    var r := Spliced(rs, k, d, x);
    SplicedAt(rs, k, d, x, k);
    if IsFree(r, p) {
      var i :| 0 <= i < |r| && InRun(r[i], p);
      SplicedAt(rs, k, d, x, i);
      assert i < k ==> InRun(rs[i], p);
      assert i > k ==> InRun(rs[i - 1 + d], p);
    }
    if InRun(x, p) {
      assert InRun(r[k], p);
    } else if IsFree(rs, p) {
      var i :| 0 <= i < |rs| && InRun(rs[i], p);
      var i' := if i < k then i else i + 1 - d;
      SplicedAt(rs, k, d, x, i');
      assert InRun(r[i'], p);
    }
  }

  lemma {:induction false} FreeSorted(rs: seq<Run>, k: nat, at: nat, n: nat)
    requires Insertable(rs, k, at, n)
    ensures Sorted(FreeFrom(rs, k, at, n))
    decreases |rs| - k
  {
    hide IsFree, Spliced;
    if k < |rs| {
      Beside(rs, k, at, n);
    }
    if k + 1 < |rs| {
      Beside(rs, k + 1, at, n);
    }
    if k == |rs| {
      SplicedSorted(rs, k, 0, Run(at, n));
    } else if rs[k].at + rs[k].len == at {
      if k + 1 < |rs| && at + n == rs[k + 1].at {
        SplicedSorted(rs, k, 2, Run(rs[k].at, rs[k].len + n + rs[k + 1].len));
      } else {
        SplicedSorted(rs, k, 1, Run(rs[k].at, rs[k].len + n));
      }
    } else if rs[k].at == at + n {
      SplicedSorted(rs, k, 1, Run(at, n + rs[k].len));
    } else if rs[k].at > at + n {
      SplicedSorted(rs, k, 0, Run(at, n));
    } else {
      FreeSorted(rs, k + 1, at, n);
    }
  }

  lemma {:induction false} FreeCovers(rs: seq<Run>, k: nat, at: nat, n: nat, p: int)
    requires Insertable(rs, k, at, n)
    ensures IsFree(FreeFrom(rs, k, at, n), p) <==> IsFree(rs, p) || at <= p < at + n
    decreases |rs| - k
  {
    hide IsFree, Spliced;
    if k < |rs| {
      Beside(rs, k, at, n);
      RunIsFree(rs, k, p);
    }
    if k + 1 < |rs| {
      RunIsFree(rs, k + 1, p);
    }
    if k == |rs| {
      SplicedFree(rs, k, 0, Run(at, n), p);
    } else if rs[k].at + rs[k].len == at {
      if k + 1 < |rs| && at + n == rs[k + 1].at {
        SplicedFree(rs, k, 2, Run(rs[k].at, rs[k].len + n + rs[k + 1].len), p);
      } else {
        SplicedFree(rs, k, 1, Run(rs[k].at, rs[k].len + n), p);
      }
    } else if rs[k].at == at + n {
      SplicedFree(rs, k, 1, Run(at, n + rs[k].len), p);
    } else if rs[k].at > at + n {
      SplicedFree(rs, k, 0, Run(at, n), p);
    } else {
      FreeCovers(rs, k + 1, at, n, p);
    }
  }

  lemma RunIsFree(rs: seq<Run>, i: nat, p: int)
    requires i < |rs|
    ensures InRun(rs[i], p) ==> IsFree(rs, p)
  {
  }

  /** Giving pages back keeps the list sorted and coalesced, and frees just these pages. */
  lemma FreeKeeps(rs: seq<Run>, at: nat, n: nat)
    requires Sorted(rs) && n > 0 && forall p | at <= p < at + n :: !IsFree(rs, p)
    ensures Sorted(PageFree(rs, at, n))
    ensures forall p :: IsFree(PageFree(rs, at, n), p) <==> IsFree(rs, p) || at <= p < at + n
  {
    FreeSorted(rs, 0, at, n);
    forall p ensures IsFree(PageFree(rs, at, n), p) <==> IsFree(rs, p) || at <= p < at + n {
      FreeCovers(rs, 0, at, n, p);
    }
  }

  /** Giving back what has just been taken restores the very list of runs. */
  lemma {:induction false} FreeUndoesCut(rs: seq<Run>, k: nat, n: nat, j: nat)
    requires Sorted(rs) && k < |rs| && 0 < n <= rs[k].len && j <= k
    ensures j <= |Cut(rs, k, n)| && FreeFrom(Cut(rs, k, n), j, rs[k].at, n) == rs
    decreases k - j
  {
    var r := Cut(rs, k, n);
    if j < k {
      assert r[j] == rs[j];
      FreeUndoesCut(rs, k, n, j + 1);
    } else if rs[k].len == n {
      assert rs == rs[..k] + [rs[k]] + rs[k + 1..];
      assert r[..k] == rs[..k] && r[k..] == rs[k + 1..];
      assert k + 1 < |rs| ==> r[k] == rs[k + 1];
    } else {
      assert Spliced(r, k, 1, rs[k]) == rs;
    }
  }

  lemma FreeUndoesAlloc(rs: seq<Run>, n: nat)
    requires Sorted(rs)
    ensures var (at, r) := PageAlloc(rs, n);
      && (at.None? ==> r == rs)
      && (at.Some? ==> PageFree(r, at.value, n) == rs)
    ensures PageAlloc(rs, n).0.None? <==> n == 0 || forall i | 0 <= i < |rs| :: rs[i].len < n
  {
    var k := FirstFit(rs, n);
    if n > 0 && k < |rs| {
      FreeUndoesCut(rs, k, n, 0);
    }
  }

  /** What is handed out was free, all of it. */
  lemma AllocKeeps(rs: seq<Run>, n: nat)
    requires Sorted(rs)
    ensures var (at, r) := PageAlloc(rs, n); at.Some? ==>
      && Sorted(r) && n > 0
      && (forall p | at.value <= p < at.value + n :: IsFree(rs, p))
      && (forall p :: IsFree(r, p) <==> IsFree(rs, p) && !(at.value <= p < at.value + n))
  {
    var k := FirstFit(rs, n);
    if n > 0 && k < |rs| {
      CutKeeps(rs, k, n);
      forall p | rs[k].at <= p < rs[k].at + n ensures IsFree(rs, p) {
        assert InRun(rs[k], p);
      }
    }
  }

  ghost predicate AllFree(rs: seq<Run>, q: int, n: nat) {
    forall p | q <= p < q + n :: IsFree(rs, p)
  }

  /** Free pages next to each other belong to one run. */
  lemma OneRun(rs: seq<Run>, q: int, n: nat) returns (i: nat)
    requires Sorted(rs) && n > 0 && AllFree(rs, q, n)
    ensures i < |rs| && rs[i].at <= q && q + n <= rs[i].at + rs[i].len
  {
    assert IsFree(rs, q);
    i :| i < |rs| && InRun(rs[i], q);
    EndNotFree(rs, i);
  }

  lemma EndNotFree(rs: seq<Run>, i: nat)
    requires Sorted(rs) && i < |rs|
    ensures !IsFree(rs, rs[i].at + rs[i].len)
  {
    forall j: nat | j < |rs| ensures !InRun(rs[j], rs[i].at + rs[i].len) {
    }
  }

  /** The pages handed out are the lowest there are that many free in a row. */
  lemma LowestPlace(rs: seq<Run>, n: nat)
    requires Sorted(rs) && PageAlloc(rs, n).0.Some?
    ensures AllFree(rs, PageAlloc(rs, n).0.value, n)
    ensures forall q: int | q < PageAlloc(rs, n).0.value :: !AllFree(rs, q, n)
  {
    AllocKeeps(rs, n);
    var k := FirstFit(rs, n);
    forall q: int | q < rs[k].at ensures !AllFree(rs, q, n) {
      if AllFree(rs, q, n) {
        var i := OneRun(rs, q, n);
      }
    }
  }
}
