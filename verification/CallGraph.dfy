/** Call graphs and what the worst-case stack of a function means on them. */
module CallGraph {
  import opened Common

  /** `locals`: bytes of stack each function uses itself; `pointer`: whether it calls through a pointer. */
  datatype Graph = Graph(stack: seq<nat>, pointer: seq<bool>, calls: seq<seq<nat>>, missing: seq<set<string>>)

  datatype Wcs = Unbounded | Bounded(bytes: nat)

  ghost predicate WellFormed(g: Graph) {
    && |g.stack| == |g.pointer| == |g.calls| == |g.missing|
    && forall f | 0 <= f < |g.calls| :: forall k | 0 <= k < |g.calls[f]| :: g.calls[f][k] < |g.calls|
  }

  ghost predicate IsPath(g: Graph, p: seq<nat>)
    requires WellFormed(g)
  {
    && p != [] && (forall i | 0 <= i < |p| :: p[i] < |g.calls|)
    && forall i | 0 <= i < |p| - 1 :: p[i + 1] in g.calls[p[i]]
  }

  ghost predicate PathFrom(g: Graph, f: nat, p: seq<nat>)
    requires WellFormed(g)
  {
    IsPath(g, p) && p[0] == f
  }

  ghost predicate Joins(g: Graph, f: nat, h: nat, p: seq<nat>)
    requires WellFormed(g)
  {
    PathFrom(g, f, p) && p[|p| - 1] == h
  }

  ghost predicate Calls(g: Graph, f: nat, h: nat)
    requires WellFormed(g)
  {
    exists p :: Joins(g, f, h, p)
  }

  ghost predicate Recursive(g: Graph, f: nat)
    requires WellFormed(g)
  {
    exists p :: Joins(g, f, f, p) && |p| > 1
  }

  ghost predicate Dangerous(g: Graph, f: nat)
    requires WellFormed(g) && f < |g.calls|
  {
    g.pointer[f] || Recursive(g, f)
  }

  /** Some function that recurses or calls through a pointer can be reached. */
  ghost predicate HasNoBound(g: Graph, f: nat)
    requires WellFormed(g)
  {
    exists h | 0 <= h < |g.calls| :: Calls(g, f, h) && Dangerous(g, h)
  }

  ghost function Cost(g: Graph, p: seq<nat>): nat
    requires WellFormed(g) && forall i | 0 <= i < |p| :: p[i] < |g.calls|
  {
    if p == [] then 0 else g.stack[p[0]] + Cost(g, p[1..])
  }

  ghost predicate IsMaximum(g: Graph, f: nat, bytes: nat)
    requires WellFormed(g)
  {
    && (forall p | PathFrom(g, f, p) :: Cost(g, p) <= bytes)
    && exists p | PathFrom(g, f, p) :: Cost(g, p) == bytes
  }

  ghost predicate Correct(g: Graph, f: nat, w: Wcs)
    requires WellFormed(g)
  {
    match w
    case Unbounded => HasNoBound(g, f)
    case Bounded(bytes) => !HasNoBound(g, f) && IsMaximum(g, f, bytes)
  }

  /** A name that something reachable from `f` calls and nobody defines. */
  ghost predicate MissingBelow(g: Graph, f: nat, name: string)
    requires WellFormed(g)
  {
    exists h | 0 <= h < |g.calls| :: Calls(g, f, h) && name in g.missing[h]
  }

  // ----- paths -----

  lemma SelfPath(g: Graph, f: nat)
    requires WellFormed(g) && f < |g.calls|
    ensures Joins(g, f, f, [f]) && Calls(g, f, f) && Cost(g, [f]) == g.stack[f]
  {
    assert Cost(g, [f][1..]) == 0;
    assert [f][0] == f && |[f]| == 1;
    assert IsPath(g, [f]);
    assert Joins(g, f, f, [f]);
  }

  lemma ExtendPath(g: Graph, f: nat, c: nat, p: seq<nat>)
    requires WellFormed(g) && f < |g.calls| && c in g.calls[f] && PathFrom(g, c, p)
    ensures Joins(g, f, p[|p| - 1], [f] + p)
    ensures Cost(g, [f] + p) == g.stack[f] + Cost(g, p)
  {
    assert ([f] + p)[1..] == p;
  }

  lemma SplitPath(g: Graph, f: nat, p: seq<nat>)
    requires WellFormed(g) && PathFrom(g, f, p) && |p| > 1
    ensures p[1] in g.calls[f] && Joins(g, p[1], p[|p| - 1], p[1..]) && p == [f] + p[1..]
  {
    assert p[0 + 1] in g.calls[p[0]];
    var q := p[1..];
    assert |q| == |p| - 1 && q[0] == p[1] && q[|q| - 1] == p[|p| - 1];
    forall i | 0 <= i < |q| ensures q[i] < |g.calls| {
      assert q[i] == p[i + 1];
    }
    forall i | 0 <= i < |q| - 1 ensures q[i + 1] in g.calls[q[i]] {
      assert p[(i + 1) + 1] in g.calls[p[i + 1]];
    }
    assert IsPath(g, q);
  }

  /** The dangers of a function are its own pointer calls and the dangers of its callees. */
  lemma NoBoundFromCallees(g: Graph, f: nat)
    requires WellFormed(g) && f < |g.calls|
    ensures HasNoBound(g, f) <==> g.pointer[f] || exists k | 0 <= k < |g.calls[f]| :: HasNoBound(g, g.calls[f][k])
  {
    if g.pointer[f] {
      SelfPath(g, f);
    }
    forall k | 0 <= k < |g.calls[f]| && HasNoBound(g, g.calls[f][k]) ensures HasNoBound(g, f) {
      var c := g.calls[f][k];
      var h :| 0 <= h < |g.calls| && Calls(g, c, h) && Dangerous(g, h);
      var p :| Joins(g, c, h, p);
      ExtendPath(g, f, c, p);
      assert Joins(g, f, h, [f] + p);
    }
    if HasNoBound(g, f) && !g.pointer[f] {
      var h :| 0 <= h < |g.calls| && Calls(g, f, h) && Dangerous(g, h);
      var p :| Joins(g, f, h, p);
      var q := p;
      if |p| == 1 {
        q :| Joins(g, f, f, q) && |q| > 1;
      }
      SplitPath(g, f, q);
      var c := q[1];
      assert Calls(g, c, h);
      assert HasNoBound(g, c);
      var k :| 0 <= k < |g.calls[f]| && g.calls[f][k] == c;
    }
  }

  ghost predicate BoundedBy(g: Graph, c: nat, most: nat)
    requires WellFormed(g)
  {
    exists b: nat :: b <= most && IsMaximum(g, c, b)
  }

  /** A bounded function needs its own frame and the most any callee needs. */
  lemma MaximumFromCallees(g: Graph, f: nat, most: nat, best: nat)
    requires WellFormed(g) && f < |g.calls|
    requires forall k | 0 <= k < |g.calls[f]| :: BoundedBy(g, g.calls[f][k], most)
    requires if best < |g.calls[f]| then IsMaximum(g, g.calls[f][best], most) else most == 0
    ensures IsMaximum(g, f, g.stack[f] + most)
  {
    forall p | PathFrom(g, f, p) ensures Cost(g, p) <= g.stack[f] + most {
      if |p| > 1 {
        SplitPath(g, f, p);
        var k :| 0 <= k < |g.calls[f]| && g.calls[f][k] == p[1];
        var b: nat :| b <= most && IsMaximum(g, g.calls[f][k], b);
        assert PathFrom(g, p[1], p[1..]);
      } else {
        assert p == [f];
        SelfPath(g, f);
      }
    }
    if best < |g.calls[f]| {
      var c := g.calls[f][best];
      var p :| PathFrom(g, c, p) && Cost(g, p) == most;
      ExtendPath(g, f, c, p);
      assert PathFrom(g, f, [f] + p);
    } else {
      SelfPath(g, f);
      assert PathFrom(g, f, [f]);
    }
  }

  lemma MissingFromCallees(g: Graph, f: nat, name: string)
    requires WellFormed(g) && f < |g.calls|
    ensures MissingBelow(g, f, name) <==>
            name in g.missing[f] || exists k | 0 <= k < |g.calls[f]| :: MissingBelow(g, g.calls[f][k], name)
  {
    if name in g.missing[f] {
      SelfPath(g, f);
    }
    forall k | 0 <= k < |g.calls[f]| && MissingBelow(g, g.calls[f][k], name) ensures MissingBelow(g, f, name) {
      var c := g.calls[f][k];
      var h :| 0 <= h < |g.calls| && Calls(g, c, h) && name in g.missing[h];
      var p :| Joins(g, c, h, p);
      ExtendPath(g, f, c, p);
      assert Joins(g, f, h, [f] + p);
    }
    if MissingBelow(g, f, name) && name !in g.missing[f] {
      var h :| 0 <= h < |g.calls| && Calls(g, f, h) && name in g.missing[h];
      var p :| Joins(g, f, h, p);
      SplitPath(g, f, p);
      assert Calls(g, p[1], h);
      var k :| 0 <= k < |g.calls[f]| && g.calls[f][k] == p[1];
      assert MissingBelow(g, g.calls[f][k], name);
    }
  }

  /** Meeting a function that is already on the stack of callers closes a cycle. */
  lemma StackIsCycle(g: Graph, parents: seq<nat>, f: nat)
    requires WellFormed(g) && f < |g.calls| && IsPath(g, parents + [f]) && f in parents
    ensures HasNoBound(g, f)
  {
    var i :| 0 <= i < |parents| && parents[i] == f;
    var p := (parents + [f])[i..];
    assert Joins(g, f, f, p) && |p| > 1;
    SelfPath(g, f);
    assert Dangerous(g, f);
  }

  /** The verdict on a function is unique, so no order of roots or of callees can change it. */
  lemma VerdictUnique(g: Graph, f: nat, v: Wcs, w: Wcs)
    requires WellFormed(g) && Correct(g, f, v) && Correct(g, f, w)
    ensures v == w
  {
    if v.Bounded? && w.Bounded? {
      var p :| PathFrom(g, f, p) && Cost(g, p) == v.bytes;
      var q :| PathFrom(g, f, q) && Cost(g, q) == w.bytes;
    }
  }

  // ----- the tables the search fills in -----

  /** Every name missing below `c` is among `names`. */
  ghost predicate Noted(g: Graph, c: nat, names: set<string>)
    requires WellFormed(g)
  {
    forall name | MissingBelow(g, c, name) :: name in names
  }

  /** The names kept for `f` are its own and none that is not missing below it. */
  ghost predicate NamesOk(g: Graph, f: nat, names: set<string>)
    requires WellFormed(g) && f < |g.missing|
  {
    g.missing[f] <= names && forall name | name in names :: MissingBelow(g, f, name)
  }

  /** Every verdict already recorded is final; a bounded function has all its names. */
  ghost predicate Consistent(g: Graph, names: seq<set<string>>, wcs: map<nat, Wcs>) {
    && WellFormed(g) && |names| == |g.calls|
    && (forall f | f in wcs :: f < |g.calls| && Correct(g, f, wcs[f]) && (wcs[f].Bounded? ==> Noted(g, f, names[f])))
    && (forall f | 0 <= f < |names| :: NamesOk(g, f, names[f]))
  }

  ghost predicate Grows(names: seq<set<string>>, more: seq<set<string>>) {
    |names| == |more| && forall f | 0 <= f < |names| :: names[f] <= more[f]
  }

  ghost predicate Keeps(wcs: map<nat, Wcs>, more: map<nat, Wcs>) {
    forall f | f in wcs :: f in more && more[f] == wcs[f]
  }

  /** The first `k` callees of `f` all have a bound, at most `most`, and their missing names have been noted. */
  ghost predicate Examined(g: Graph, names: set<string>, wcs: map<nat, Wcs>, f: nat, k: nat, most: nat)
    requires WellFormed(g) && f < |g.calls| && k <= |g.calls[f]|
  {
    && (forall j | 0 <= j < k :: g.calls[f][j] in wcs && wcs[g.calls[f][j]].Bounded? && wcs[g.calls[f][j]].bytes <= most)
    && (most == 0 || exists j | 0 <= j < k :: wcs[g.calls[f][j]] == Bounded(most))
    && (forall j | 0 <= j < k :: Noted(g, g.calls[f][j], names))
  }

  lemma ExamineNext(g: Graph, names: set<string>, wcs: map<nat, Wcs>, more: set<string>, wcs': map<nat, Wcs>,
                    f: nat, k: nat, most: nat)
    requires WellFormed(g) && f < |g.calls| && k < |g.calls[f]|
    requires Examined(g, names, wcs, f, k, most) && names <= more && Keeps(wcs, wcs')
    requires var c := g.calls[f][k]; c in wcs' && wcs'[c].Bounded? && Noted(g, c, more)
    ensures var b := wcs'[g.calls[f][k]].bytes; Examined(g, more, wcs', f, k + 1, if b > most then b else most)
  {
    var b := wcs'[g.calls[f][k]].bytes;
    if b > most {
      assert wcs'[g.calls[f][k]] == Bounded(b);
    } else if most != 0 {
      var j :| 0 <= j < k && wcs[g.calls[f][j]] == Bounded(most);
      assert wcs'[g.calls[f][j]] == Bounded(most);
    }
  }

  lemma StackGrows(g: Graph, parents: seq<nat>, f: nat, c: nat)
    requires WellFormed(g) && f < |g.calls| && IsPath(g, parents + [f]) && c in g.calls[f] && f !in parents && NoDup(parents)
    ensures IsPath(g, (parents + [f]) + [c]) && NoDup(parents + [f]) && |parents| < |g.calls|
  {
    var q := parents + [f];
    assert q[|parents|] == f;
    assert forall i | 0 <= i < |q| :: (q + [c])[i] == q[i];
    Pigeonhole(q, |g.calls|);
  }

  /** Taking over the names of a bounded callee notes everything missing below it. */
  lemma NotedFromCallee(g: Graph, names: seq<set<string>>, wcs: map<nat, Wcs>, f: nat, c: nat)
    requires Consistent(g, names, wcs) && f < |g.calls| && c in g.calls[f] && c in wcs && wcs[c].Bounded?
    ensures Consistent(g, names[f := names[f] + names[c]], wcs)
    ensures Noted(g, c, names[f] + names[c])
  {
    assert NamesOk(g, f, names[f]) && NamesOk(g, c, names[c]);
    forall name | name in names[f] + names[c] ensures MissingBelow(g, f, name) {
      if name in names[c] {
        var k :| 0 <= k < |g.calls[f]| && g.calls[f][k] == c;
        assert MissingBelow(g, g.calls[f][k], name);
        MissingFromCallees(g, f, name);
      }
    }
  }

  /** Once every callee has been examined, the sum is the verdict and no name is missing. */
  lemma VerdictFromCallees(g: Graph, names: seq<set<string>>, wcs: map<nat, Wcs>, f: nat, most: nat)
    requires Consistent(g, names, wcs) && f < |g.calls| && !g.pointer[f]
    requires Examined(g, names[f], wcs, f, |g.calls[f]|, most)
    ensures Correct(g, f, Bounded(most + g.stack[f])) && Noted(g, f, names[f])
  {
    NoBoundFromCallees(g, f);
    forall k | 0 <= k < |g.calls[f]|
      ensures BoundedBy(g, g.calls[f][k], most) && !HasNoBound(g, g.calls[f][k])
    {
      var c := g.calls[f][k];
      var b: nat := wcs[c].bytes;
      assert Correct(g, c, wcs[c]);
      assert b <= most && IsMaximum(g, c, b);
    }
    var best: nat := |g.calls[f]|;
    if most != 0 {
      best :| 0 <= best < |g.calls[f]| && wcs[g.calls[f][best]] == Bounded(most);
    } else if |g.calls[f]| > 0 {
      best := 0;
      assert wcs[g.calls[f][0]] == Bounded(0);
    }
    assert best < |g.calls[f]| ==> Correct(g, g.calls[f][best], Bounded(most));
    MaximumFromCallees(g, f, most, best);
    forall name | MissingBelow(g, f, name) ensures name in names[f] {
      MissingFromCallees(g, f, name);
      assert NamesOk(g, f, names[f]);
      if name !in g.missing[f] {
        var k :| 0 <= k < |g.calls[f]| && MissingBelow(g, g.calls[f][k], name);
        assert Noted(g, g.calls[f][k], names[f]);
      }
    }
  }

  /** A callee without a bound leaves its caller without one. */
  lemma NoBoundFromCallee(g: Graph, f: nat, k: nat)
    requires WellFormed(g) && f < |g.calls| && k < |g.calls[f]| && Correct(g, g.calls[f][k], Unbounded)
    ensures HasNoBound(g, f)
  {
    NoBoundFromCallees(g, f);
  }

  /** Hand-declared functions call nothing, so the verdict they come with is the right one. */
  lemma LeafVerdict(g: Graph, f: nat)
    requires WellFormed(g) && f < |g.calls| && g.calls[f] == [] && !g.pointer[f]
    ensures Correct(g, f, Bounded(g.stack[f])) && Noted(g, f, g.missing[f])
  {
    NoBoundFromCallees(g, f);
    MaximumFromCallees(g, f, 0, 0);
    forall name | MissingBelow(g, f, name) ensures name in g.missing[f] {
      MissingFromCallees(g, f, name);
    }
  }
}
