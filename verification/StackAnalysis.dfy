/** The worst-case stack analyser: resolution of call names and the memoised depth-first search. */
module StackAnalysis {
  import opened Common
  import opened CallGraph

  class Analyser {
    // what the object files say about each function
    const name: seq<string>
    const unit: seq<string>
    const isGlobal: seq<bool>
    const calls: seq<set<string>>
    const hasPtrCall: seq<bool>
    const localStack: seq<nat>
    const globals: map<string, nat>
    const locals: map<string, map<string, nat>>
    // what the analysis adds
    var rCalls: seq<seq<nat>>
    var unresolvedCalls: seq<set<string>>
    var wcs: map<nat, Wcs>
    ghost var missing: seq<set<string>>

    constructor (name: seq<string>, unit: seq<string>, isGlobal: seq<bool>,
                 calls: seq<set<string>>, hasPtrCall: seq<bool>, localStack: seq<nat>,
                 globals: map<string, nat>, locals: map<string, map<string, nat>>, manual: set<nat>)
      requires |unit| == |calls| == |hasPtrCall| == |localStack|
      requires forall f | f in manual :: f < |unit| && calls[f] == {} && !hasPtrCall[f]
      ensures this.name == name && this.unit == unit && this.isGlobal == isGlobal
      ensures this.calls == calls && this.hasPtrCall == hasPtrCall
      ensures this.localStack == localStack && this.globals == globals && this.locals == locals
      ensures wcs == map f | f in manual :: Bounded(localStack[f])
    {
      this.name, this.unit, this.isGlobal := name, unit, isGlobal;
      this.calls, this.hasPtrCall, this.localStack := calls, hasPtrCall, localStack;
      this.globals, this.locals := globals, locals;
      rCalls := [];
      unresolvedCalls := [];
      missing := [];
      wcs := map f | f in manual :: Bounded(localStack[f]);
    }

    ghost predicate Tables() {
      && |unit| == |calls| == |hasPtrCall| == |localStack|
      && (forall name | name in globals :: globals[name] < |unit|)
      && (forall name | name in locals :: forall tu | tu in locals[name] :: locals[name][tu] < |unit|)
    }

    /** A global of that name, else a local of the same translation unit. */
    function FindFxn(tu: string, name: string): (r: Option<nat>)
      requires Tables()
      ensures r.Some? ==> r.value < |unit|
      ensures name in globals ==> r == Some(globals[name])
      ensures r.None? <==> name !in globals && !(name in locals && tu in locals[name])
    {
      if name in globals then Some(globals[name])
      else if name in locals && tu in locals[name] then Some(locals[name][tu])
      else None
    }

    /** The two tables hold every function under its own name, a local one under its unit too, and nothing else. */
    ghost predicate Registered()
      requires Tables()
    {
      && |name| == |isGlobal| == |unit|
      && (forall f | 0 <= f < |unit| :: InTable(f))
      && (forall n | n in globals :: name[globals[n]] == n && isGlobal[globals[n]])
      && (forall n | n in locals :: forall tu | tu in locals[n] ::
            name[locals[n][tu]] == n && unit[locals[n][tu]] == tu && !isGlobal[locals[n][tu]])
    }

    predicate InTable(f: nat)
      requires f < |name| && f < |unit| && f < |isGlobal|
    {
      if isGlobal[f] then name[f] in globals && globals[name[f]] == f
      else name[f] in locals && unit[f] in locals[name[f]] && locals[name[f]][unit[f]] == f
    }

    /** Function `f` is what a call of `callee` from unit `tu` can mean. */
    predicate Visible(f: nat, tu: string, callee: string) {
      f < |name| && f < |unit| && f < |isGlobal| && name[f] == callee && (isGlobal[f] || unit[f] == tu)
    }

    /**
     Looking a name up finds a function of that name that is visible from the unit, if there is one; any other
     it could have meant is a local one hidden by the global one found.
     */
    lemma FindsVisible(tu: string, callee: string)
      requires Tables() && Registered()
      ensures FindFxn(tu, callee).None? <==> forall g: nat :: !Visible(g, tu, callee)
      ensures var r := FindFxn(tu, callee); r.Some? ==>
        && Visible(r.value, tu, callee)
        && forall g: nat | Visible(g, tu, callee) && g != r.value :: isGlobal[r.value] && !isGlobal[g]
    {
      var r := FindFxn(tu, callee);
      forall g: nat | Visible(g, tu, callee) ensures r.Some? && (g != r.value ==> isGlobal[r.value] && !isGlobal[g]) {
        assert InTable(g);
      }
      if r.Some? {
        assert Visible(r.value, tu, callee);
      }
    }

    ghost predicate Resolved(f: nat, targets: seq<nat>, absent: set<string>, names: set<string>)
      requires Tables() && f < |unit|
    {
      && (forall k | 0 <= k < |targets| :: targets[k] < |unit|)
      && (forall h | 0 <= h < |unit| :: h in targets <==> exists c | c in names :: FindFxn(unit[f], c) == Some(h))
      && (forall c :: c in absent <==> c in names && FindFxn(unit[f], c).None?)
      && (names == {} ==> targets == [])
    }

    method ResolveCalls(f: nat) returns (targets: seq<nat>, absent: set<string>)
      requires Tables() && f < |unit|
      ensures Resolved(f, targets, absent, calls[f])
    {
      targets, absent := [], {};
      var rest := calls[f];
      while rest != {}
        invariant rest <= calls[f]
        invariant Resolved(f, targets, absent, calls[f] - rest)
        decreases rest
      {
        var call :| call in rest;
        var found := FindFxn(unit[f], call);
        var t0 := targets;
        if found.Some? {
          targets := targets + [found.value];
        } else {
          absent := absent + {call};
        }
        forall h | 0 <= h < |unit|
          ensures h in targets <==> exists c | c in calls[f] - (rest - {call}) :: FindFxn(unit[f], c) == Some(h)
        {
          assert h in targets <==> h in t0 || found == Some(h);
          if h in t0 {
            var c :| c in calls[f] - rest && FindFxn(unit[f], c) == Some(h);
            assert c in calls[f] - (rest - {call});
          } else if found == Some(h) {
            assert call in calls[f] - (rest - {call});
          }
        }
        rest := rest - {call};
      }
      assert calls[f] - rest == calls[f];
    }

    method ResolveAllCalls()
      requires Tables()
      modifies this`rCalls, this`unresolvedCalls, this`missing
      ensures |rCalls| == |unresolvedCalls| == |unit| && missing == unresolvedCalls
      ensures forall f | 0 <= f < |unit| :: Resolved(f, rCalls[f], unresolvedCalls[f], calls[f])
    {
      rCalls, unresolvedCalls := [], [];
      var f := 0;
      while f < |unit|
        invariant f <= |unit| && |rCalls| == |unresolvedCalls| == f
        invariant forall h | 0 <= h < f :: Resolved(h, rCalls[h], unresolvedCalls[h], calls[h])
      {
        var targets, absent := ResolveCalls(f);
        rCalls, unresolvedCalls := rCalls + [targets], unresolvedCalls + [absent];
        f := f + 1;
      }
      missing := unresolvedCalls;
    }

    ghost function G(): Graph
      reads this
    {
      Graph(localStack, hasPtrCall, rCalls, missing)
    }

    /** Every verdict already recorded is final, and the name sets only ever hold names from below. */
    ghost predicate Valid()
      reads this
    {
      |rCalls| == |unit| && Consistent(G(), unresolvedCalls, wcs)
    }

    method Record(f: nat, w: Wcs)
      requires Valid() && f < |unit| && Correct(G(), f, w) && (w.Bounded? ==> Noted(G(), f, unresolvedCalls[f]))
      modifies this`wcs
      ensures Valid() && f in wcs && Keeps(old(wcs), wcs)
    {
      if f in wcs { VerdictUnique(G(), f, wcs[f], w); }
      wcs := wcs[f := w];
    }

    method AddUnresolved(f: nat, c: nat)
      requires f < |unresolvedCalls| && c < |unresolvedCalls|
      modifies this`unresolvedCalls
      ensures unresolvedCalls == old(unresolvedCalls)[f := old(unresolvedCalls[f]) + old(unresolvedCalls[c])]
    {
      var rest := unresolvedCalls[c];
      while rest != {}
        invariant rest <= old(unresolvedCalls[c])
        invariant |unresolvedCalls| == |old(unresolvedCalls)|
        invariant unresolvedCalls[f] == old(unresolvedCalls[f]) + (old(unresolvedCalls[c]) - rest)
        invariant forall h | 0 <= h < |unresolvedCalls| && h != f :: unresolvedCalls[h] == old(unresolvedCalls[h])
        decreases rest
      {
        var name :| name in rest;
        unresolvedCalls := unresolvedCalls[f := unresolvedCalls[f] + {name}];
        rest := rest - {name};
      }
      assert old(unresolvedCalls[c]) - rest == old(unresolvedCalls[c]);
    }

    /**
     `calc_wcs`: memoised depth-first search. It ends on every finite graph, cyclic or not, because the
     functions on the stack of callers are pairwise different.
     */
    method CalcWcs(f: nat, parents: seq<nat>)
      requires Valid() && f < |unit| && NoDup(parents) && IsPath(G(), parents + [f])
      modifies this`wcs, this`unresolvedCalls
      ensures Valid() && f in wcs
      ensures Keeps(old(wcs), wcs) && Grows(old(unresolvedCalls), unresolvedCalls)
      decreases |unit| - |parents|, 1
    {
      hide HasNoBound, Recursive;
      if f in wcs {
        return;
      }
      if hasPtrCall[f] {
        NoBoundFromCallees(G(), f);
        Record(f, Unbounded);
        return;
      }
      if f in parents {
        StackIsCycle(G(), parents, f);
        Record(f, Unbounded);
        return;
      }
      var callMax: nat := 0;
      var k := 0;
      while k < |rCalls[f]|
        modifies this`wcs, this`unresolvedCalls
        invariant k <= |rCalls[f]| && Valid() && Examined(G(), unresolvedCalls[f], wcs, f, k, callMax)
        invariant Keeps(old(wcs), wcs) && Grows(old(unresolvedCalls), unresolvedCalls)
      {
        var most := ExamineCallee(f, k, callMax, parents);
        if most.None? {
          Record(f, Unbounded);
          return;
        }
        callMax := most.value;
        k := k + 1;
      }
      VerdictFromCallees(G(), unresolvedCalls, wcs, f, callMax);
      Record(f, Bounded(callMax + localStack[f]));
    }

    /** One turn of the loop over callees: `None` when the callee has no bound. */
    method ExamineCallee(f: nat, k: nat, callMax: nat, parents: seq<nat>) returns (most: Option<nat>)
      requires Valid() && f < |unit| && k < |rCalls[f]| && Examined(G(), unresolvedCalls[f], wcs, f, k, callMax)
      requires NoDup(parents) && IsPath(G(), parents + [f]) && f !in parents
      modifies this`wcs, this`unresolvedCalls
      ensures Valid()
      ensures Keeps(old(wcs), wcs) && Grows(old(unresolvedCalls), unresolvedCalls)
      ensures most.Some? ==> Examined(G(), unresolvedCalls[f], wcs, f, k + 1, most.value)
      ensures most.None? ==> HasNoBound(G(), f)
      decreases |unit| - |parents|, 0
    {
      hide HasNoBound, Noted, NamesOk, IsPath, IsMaximum;
      var c := rCalls[f][k];
      StackGrows(G(), parents, f, c);
      CalcWcs(c, parents + [f]);
      if wcs[c] == Unbounded {
        NoBoundFromCallee(G(), f, k);
        return None;
      }
      NotedFromCallee(G(), unresolvedCalls, wcs, f, c);
      AddUnresolved(f, c);
      ExamineNext(G(), old(unresolvedCalls[f]), old(wcs), unresolvedCalls[f], wcs, f, k, callMax);
      return Some(if wcs[c].bytes > callMax then wcs[c].bytes else callMax);
    }

    /** The verdicts the analysis starts from. */
    ghost predicate ManualOnly()
      requires Tables()
      reads this
    {
      forall f | f in wcs :: f < |unit| && calls[f] == {} && !hasPtrCall[f] && wcs[f] == Bounded(localStack[f])
    }

    /**
     The whole analysis, for any order in which the roots are visited: every function gets its one
     correct verdict, and a bounded function knows every name missing below it.
     */
    method Analyse(roots: seq<nat>)
      requires Tables() && ManualOnly()
      requires forall f: nat | f < |unit| :: f in roots
      requires forall i | 0 <= i < |roots| :: roots[i] < |unit|
      modifies this
      ensures WellFormed(G()) && |rCalls| == |unit| == |unresolvedCalls|
      ensures forall f | 0 <= f < |unit| :: Resolved(f, rCalls[f], missing[f], calls[f])
      ensures forall f: nat | f < |unit| :: f in wcs && Correct(G(), f, wcs[f])
      ensures forall f: nat, name | f < |unit| && wcs[f].Bounded? ::
        name in unresolvedCalls[f] <==> MissingBelow(G(), f, name)
    {
      hide Correct, FindFxn, Resolved;
      ResolveAllCalls();
      EstablishValid();
      var i := 0;
      while i < |roots|
        modifies this`wcs, this`unresolvedCalls
        invariant i <= |roots| && Valid()
        invariant forall j | 0 <= j < i :: roots[j] in wcs
      {
        CalcWcs(roots[i], []);
        i := i + 1;
      }
      forall f: nat | f < |unit| ensures f in wcs && NamesOk(G(), f, unresolvedCalls[f]) {
        assert f in roots;
        var j :| 0 <= j < |roots| && roots[j] == f;
      }
    }

    lemma EstablishValid()
      requires Tables() && ManualOnly() && |rCalls| == |unresolvedCalls| == |unit| && missing == unresolvedCalls
      requires forall f | 0 <= f < |unit| :: Resolved(f, rCalls[f], unresolvedCalls[f], calls[f])
      ensures Valid()
    {
      assert WellFormed(G());
      forall f | f in wcs ensures Correct(G(), f, wcs[f]) && Noted(G(), f, unresolvedCalls[f]) {
        assert Resolved(f, rCalls[f], unresolvedCalls[f], calls[f]);
        LeafVerdict(G(), f);
      }
      forall f | 0 <= f < |unit| ensures NamesOk(G(), f, unresolvedCalls[f]) {
        SelfPath(G(), f);
      }
    }
  }
}
