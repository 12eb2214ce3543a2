/**
 The lock-free single list: any number of enqueuers and one dequeuer, one shared access per step. Nodes are
 numbered from 1, 0 being the null pointer. The log collects what each operation has done, in the order in
 which the operations take effect; it is no part of what the code stores.
 */
module LockFreeList {
  import opened Common

  /** Where an actor is: what it has loaded into its locals, and what it will do next. */
  datatype Pc =
    | Idle
    | Loaded(n: nat, exp: nat)     // enqueue of n: about to store n->next = exp
    | Stored(n: nat, exp: nat)     // enqueue of n: about to compare-exchange the head
    | Following(head: nat)         // dequeue: about to load head->next
    | Followed(head: nat, next: nat)  // dequeue: about to compare-exchange the head

  datatype Event = Pushed(n: nat) | Popped(n: nat) | WasEmpty

  datatype List = List(head: nat, next: seq<nat>, pc: seq<Pc>, log: seq<Event>)

  datatype Action = BeginEnqueue(a: nat, n: nat) | BeginDequeue(a: nat) | Continue(a: nat)

  // ----- one step -----

  /** `rt_atomic_compare_exchange_strong` on the list head: the new head, whether it succeeded, and `exp` after it. */
  function CompareExchange(head: nat, exp: nat, desired: nat): (nat, bool, nat) {
    if head != exp then (head, false, head) else (desired, true, exp)
  }

  /** A dequeuer that has just read `exp` from the head: a null pointer ends its loop at once. */
  function ReadHead(l: List, a: nat, exp: nat): List
    requires a < |l.pc|
  {
    if exp == 0 then l.(pc := l.pc[a := Idle], log := l.log + [WasEmpty])
    else l.(pc := l.pc[a := Following(exp)])
  }

  /** The next shared access of actor `a`. */
  function Advance(l: List, a: nat): List
    requires a < |l.pc|
    requires (l.pc[a].Loaded? || l.pc[a].Stored?) ==> l.pc[a].n < |l.next|
    requires (l.pc[a].Following? || l.pc[a].Followed?) ==> l.pc[a].head < |l.next|
  {
    match l.pc[a]
    case Idle => l
    case Loaded(n, exp) => l.(next := l.next[n := exp], pc := l.pc[a := Stored(n, exp)])
    case Stored(n, exp) =>
      var (head, ok, now) := CompareExchange(l.head, exp, n);
      if ok then l.(head := head, pc := l.pc[a := Idle], log := l.log + [Pushed(n)])
      else l.(pc := l.pc[a := Loaded(n, now)])
    case Following(h) => l.(pc := l.pc[a := Followed(h, l.next[h])])
    case Followed(h, next) =>
      var (head, ok, now) := CompareExchange(l.head, h, next);
      if ok then l.(head := head, pc := l.pc[a := Idle], log := l.log + [Popped(h)])
      else ReadHead(l, a, now)
  }

  ghost predicate Dequeuing(p: Pc) {
    p.Following? || p.Followed?
  }

  ghost predicate Holds(p: Pc, n: nat) {
    (p.Loaded? || p.Stored?) && p.n == n
  }

  /** One dequeuer at a time, and nobody enqueues a node that is linked or that another actor is enqueuing. */
  ghost predicate Enabled(l: List, x: Action) {
    match x
    case BeginEnqueue(a, n) =>
      && a < |l.pc| && l.pc[a] == Idle && 0 < n < |l.next|
      && n !in Contents(l.log) && forall b | 0 <= b < |l.pc| :: !Holds(l.pc[b], n)
    case BeginDequeue(a) => a < |l.pc| && l.pc[a] == Idle && forall b | 0 <= b < |l.pc| :: !Dequeuing(l.pc[b])
    case Continue(a) => a < |l.pc| && l.pc[a] != Idle
  }

  function Step(l: List, x: Action): List
    requires Inv(l) && Enabled(l, x)
  {
    match x
    case BeginEnqueue(a, n) => l.(pc := l.pc[a := Loaded(n, l.head)])
    case BeginDequeue(a) => ReadHead(l, a, l.head)
    case Continue(a) => assert PcOk(l, a); Advance(l, a)
  }

  // ----- what it is for: a stack -----

  function After(s: seq<nat>, e: Event): seq<nat> {
    match e
    case Pushed(n) => [n] + s
    case Popped(_) => if s == [] then [] else s[1..]
    case WasEmpty => s
  }

  /** The stack that results from the logged operations, one after the other. */
  function Contents(log: seq<Event>): seq<nat> {
    if log == [] then []
    else
      After(Contents(log[..|log| - 1]), log[|log| - 1])
  }

  /** Every logged result is the one a stack gives: pops return the top, and empty means empty. */
  ghost predicate Legal(log: seq<Event>) {
    forall i | 0 <= i < |log| :: LegalAt(log, i)
  }

  ghost predicate LegalAt(log: seq<Event>, i: nat)
    requires i < |log|
  {
    var s := Contents(log[..i]);
    match log[i]
    case Pushed(n) => n !in s
    case Popped(n) => s != [] && s[0] == n
    case WasEmpty => s == []
  }

  // ----- the invariant -----

  function NextIn(s: seq<nat>, i: nat): nat {
    if i < |s| then s[i] else 0
  }

  /** The pointers spell out the stack `s`. */
  ghost predicate Spells(head: nat, next: seq<nat>, s: seq<nat>) {
    && NoDup(s) && head == NextIn(s, 0)
    && (forall i | 0 <= i < |s| :: 0 < s[i] < |next|)
    && (forall i | 0 <= i < |s| :: next[s[i]] == NextIn(s, i + 1))
  }

  ghost predicate PcOk(l: List, a: nat)
    requires a < |l.pc|
  {
    var p := l.pc[a];
    && (p.Loaded? || p.Stored? ==> 0 < p.n < |l.next| && p.n !in Contents(l.log))
    && (p.Stored? ==> l.next[p.n] == p.exp)
    && (Dequeuing(p) ==> 0 < p.head < |l.next| && p.head in Contents(l.log))
    && (p.Followed? ==> l.next[p.head] == p.next)
  }

  /** Actors `a` and `b` are not enqueuing the same node nor both dequeuing. */
  ghost predicate Compatible(l: List, a: nat, b: nat)
    requires a < |l.pc| && b < |l.pc|
  {
    && !(Dequeuing(l.pc[a]) && Dequeuing(l.pc[b]))
    && (l.pc[a].Loaded? || l.pc[a].Stored? ==> !Holds(l.pc[b], l.pc[a].n))
  }

  ghost predicate Inv(l: List) {
    && Spells(l.head, l.next, Contents(l.log)) && Legal(l.log)
    && (forall a | 0 <= a < |l.pc| :: PcOk(l, a))
    && (forall a, b | 0 <= a < |l.pc| && 0 <= b < |l.pc| && a != b :: Compatible(l, a, b))
  }

  function Init(nodes: nat, actors: nat): (l: List)
    ensures Inv(l)
  {
    List(0, seq(nodes + 1, _ => 0), seq(actors, _ => Idle), [])
  }

  // ----- every step keeps it -----

  lemma ContentsAppend(log: seq<Event>, e: Event)
    ensures (log + [e])[..|log|] == log
    ensures Contents(log + [e]) == After(Contents(log), e)
  {
    assert (log + [e])[..|log|] == log;
  }

  lemma LegalAppend(log: seq<Event>, e: Event)
    requires Legal(log) && LegalAt(log + [e], |log|)
    ensures Legal(log + [e])
  {
    var q := log + [e];
    forall i | 0 <= i < |q| ensures LegalAt(q, i) {
      if i < |log| {
        assert LegalAt(log, i);
        assert q[..i] == log[..i];
      }
    }
  }

  /** A step of actor `a` that leaves head, log and everybody else's nodes alone. */
  lemma QuietKeeps(l: List, a: nat, p: Pc, n: nat, x: nat)
    requires Inv(l) && a < |l.pc| && n < |l.next|
    requires n in Contents(l.log) || (exists b | 0 <= b < |l.pc| && b != a :: Holds(l.pc[b], n)) ==> x == l.next[n]
    requires PcOk(l.(next := l.next[n := x], pc := l.pc[a := p]), a)
    requires forall b | 0 <= b < |l.pc| && b != a ::
      !(Dequeuing(p) && Dequeuing(l.pc[b])) && (p.Loaded? || p.Stored? ==> !Holds(l.pc[b], p.n))
    ensures Inv(l.(next := l.next[n := x], pc := l.pc[a := p]))
  {
    var r := l.(next := l.next[n := x], pc := l.pc[a := p]);
    var s := Contents(l.log);
    forall i | 0 <= i < |s| ensures r.next[s[i]] == NextIn(s, i + 1) {
      assert s[i] in s;
    }
    forall b | 0 <= b < |r.pc| ensures PcOk(r, b) {
      assert PcOk(l, b);
    }
    forall b, c | 0 <= b < |r.pc| && 0 <= c < |r.pc| && b != c ensures Compatible(r, b, c) {
      assert Compatible(l, b, c) && Compatible(l, c, b);
    }
  }

  lemma PushKeeps(l: List, a: nat)
    requires Inv(l) && a < |l.pc| && l.pc[a].Stored? && l.head == l.pc[a].exp
    ensures Inv(l.(head := l.pc[a].n, pc := l.pc[a := Idle], log := l.log + [Pushed(l.pc[a].n)]))
  {
    hide Legal;
    var n := l.pc[a].n;
    var r := l.(head := n, pc := l.pc[a := Idle], log := l.log + [Pushed(n)]);
    assert PcOk(l, a);
    ContentsAppend(l.log, Pushed(n));
    LegalAppend(l.log, Pushed(n));
    forall b | 0 <= b < |r.pc| ensures PcOk(r, b) {
      assert PcOk(l, b);
      if b != a {
        assert Compatible(l, a, b);
      }
    }
    forall b, c | 0 <= b < |r.pc| && 0 <= c < |r.pc| && b != c ensures Compatible(r, b, c) {
      assert Compatible(l, b, c);
    }
  }

  lemma PopKeeps(l: List, a: nat)
    requires Inv(l) && a < |l.pc| && l.pc[a].Followed? && l.head == l.pc[a].head
    ensures Inv(l.(head := l.pc[a].next, pc := l.pc[a := Idle], log := l.log + [Popped(l.pc[a].head)]))
  {
    var h := l.pc[a].head;
    var r := l.(head := l.pc[a].next, pc := l.pc[a := Idle], log := l.log + [Popped(h)]);
    assert PcOk(l, a);
    ContentsAppend(l.log, Popped(h));
    LegalAppend(l.log, Popped(h));
    forall b | 0 <= b < |r.pc| ensures PcOk(r, b) {
      assert PcOk(l, b);
      if b != a {
        assert Compatible(l, a, b);
      }
    }
    forall b, c | 0 <= b < |r.pc| && 0 <= c < |r.pc| && b != c ensures Compatible(r, b, c) {
      assert Compatible(l, b, c);
    }
  }

  lemma ReadHeadKeeps(l: List, a: nat)
    requires Inv(l) && a < |l.pc|
    requires forall b | 0 <= b < |l.pc| && b != a :: !Dequeuing(l.pc[b])
    ensures Inv(ReadHead(l, a, l.head))
  {
    if l.head == 0 {
      var r := ReadHead(l, a, 0);
      ContentsAppend(l.log, WasEmpty);
      LegalAppend(l.log, WasEmpty);
      forall b | 0 <= b < |r.pc| ensures PcOk(r, b) {
        assert PcOk(l, b);
      }
      forall b, c | 0 <= b < |r.pc| && 0 <= c < |r.pc| && b != c ensures Compatible(r, b, c) {
        assert Compatible(l, b, c);
      }
    } else {
      var n := l.head;
      assert n in Contents(l.log);
      assert l.next[n := l.next[n]] == l.next;
      QuietKeeps(l, a, Following(n), n, l.next[n]);
    }
  }

  lemma ContinueKeeps(l: List, a: nat)
    requires Inv(l) && a < |l.pc| && l.pc[a] != Idle
    ensures PcOk(l, a) && Inv(Advance(l, a))
  {
    assert PcOk(l, a);
    forall b | 0 <= b < |l.pc| && b != a
      ensures !(Dequeuing(l.pc[a]) && Dequeuing(l.pc[b]))
      ensures l.pc[a].Loaded? || l.pc[a].Stored? ==> !Holds(l.pc[b], l.pc[a].n)
    {
      assert Compatible(l, a, b);
    }
    match l.pc[a]
    case Loaded(n, exp) => QuietKeeps(l, a, Stored(n, exp), n, exp);
    case Stored(n, exp) =>
      if l.head == exp {
        PushKeeps(l, a);
      } else {
        assert l.next[n := l.next[n]] == l.next;
        QuietKeeps(l, a, Loaded(n, l.head), n, l.next[n]);
      }
    case Following(h) =>
      assert l.next[h := l.next[h]] == l.next;
      QuietKeeps(l, a, Followed(h, l.next[h]), h, l.next[h]);
    case Followed(h, next) =>
      if l.head == h {
        PopKeeps(l, a);
      } else {
        ReadHeadKeeps(l, a);
      }
  }

  lemma StepKeeps(l: List, x: Action)
    requires Inv(l) && Enabled(l, x)
    ensures Inv(Step(l, x))
  {
    match x
    case BeginEnqueue(a, n) =>
      assert l.next[n := l.next[n]] == l.next;
      QuietKeeps(l, a, Loaded(n, l.head), n, l.next[n]);
    case BeginDequeue(a) => ReadHeadKeeps(l, a);
    case Continue(a) => ContinueKeeps(l, a);
  }

  // ----- runs -----

  ghost predicate Follows(l: List, x: Action, r: List) {
    Inv(l) ==> Enabled(l, x) && r == Step(l, x)
  }

  ghost predicate Run(trace: seq<List>, xs: seq<Action>) {
    && |trace| == |xs| + 1 && (exists nodes, actors :: trace[0] == Init(nodes, actors))
    && forall i | 0 <= i < |xs| :: Follows(trace[i], xs[i], trace[i + 1])
  }

  /**
   Linearisability: in every interleaving, at every moment, the operations that have taken effect form a
   legal history of a stack, and the list links exactly that stack's nodes, top first.
   */
  lemma {:induction false} Linearises(trace: seq<List>, xs: seq<Action>, k: nat)
    requires Run(trace, xs) && k <= |xs|
    ensures Inv(trace[k])
    ensures Legal(trace[k].log) && Spells(trace[k].head, trace[k].next, Contents(trace[k].log))
    decreases k
  {
    if k > 0 {
      Linearises(trace, xs, k - 1);
      assert Follows(trace[k - 1], xs[k - 1], trace[k]);
      StepKeeps(trace[k - 1], xs[k - 1]);
    }
  }

  /** The event an operation takes effect with, given what its actor was doing. */
  ghost predicate Reports(p: Pc, x: Action, e: Event) {
    match e
    case Pushed(n) => p.Stored? && p.n == n && x.Continue?
    case Popped(n) => p.Followed? && p.head == n && x.Continue?
    case WasEmpty => x.BeginDequeue? || (p.Followed? && x.Continue?)
  }

  /**
   Each operation takes effect exactly once, between its call and its return: the log grows by one event,
   that operation's own, exactly in the step with which its actor becomes idle again.
   */
  lemma TakesEffectOnce(l: List, x: Action)
    requires Inv(l) && Enabled(l, x)
    ensures var r := Step(l, x);
      && |r.pc| == |l.pc|
      && (r.pc[x.a] == Idle <==> r.log != l.log)
      && (r.pc[x.a] == Idle ==> exists e :: r.log == l.log + [e] && Reports(l.pc[x.a], x, e))
      && forall b | 0 <= b < |l.pc| && b != x.a :: r.pc[b] == l.pc[b]
  {
    var r := Step(l, x);
    if r.pc[x.a] == Idle {
      var e := r.log[|r.log| - 1];
      assert r.log == l.log + [e] && Reports(l.pc[x.a], x, e);
    }
  }

  // ----- conservation -----

  function CountPushed(log: seq<Event>): multiset<nat> {
    if log == [] then multiset{}
    else CountPushed(log[..|log| - 1]) + if log[|log| - 1].Pushed? then multiset{log[|log| - 1].n} else multiset{}
  }

  function CountPopped(log: seq<Event>): multiset<nat> {
    if log == [] then multiset{}
    else CountPopped(log[..|log| - 1]) + if log[|log| - 1].Popped? then multiset{log[|log| - 1].n} else multiset{}
  }

  lemma LegalPrefix(log: seq<Event>, n: nat)
    requires Legal(log) && n <= |log|
    ensures Legal(log[..n])
  {
    hide Contents;
    forall j | 0 <= j < n ensures LegalAt(log[..n], j) {
      assert LegalAt(log, j);
      assert log[..n][..j] == log[..j];
    }
  }

  /** Every node ever enqueued is either still linked or was dequeued, and no more often than it was enqueued. */
  lemma {:induction false} Conserved(log: seq<Event>)
    requires Legal(log)
    ensures CountPushed(log) == CountPopped(log) + multiset(Contents(log))
  {
    hide LegalAt, After;
    if log != [] {
      var i := |log| - 1;
      LegalPrefix(log, i);
      Conserved(log[..i]);
      assert LegalAt(log, i);
      if log[i].Popped? {
        TopPopped(log, i);
      }
      ConservedStep(CountPushed(log[..i]), CountPopped(log[..i]), Contents(log[..i]), log[i]);
    }
  }

  lemma TopPopped(log: seq<Event>, i: nat)
    requires i < |log| && LegalAt(log, i) && log[i].Popped?
    ensures Contents(log[..i]) != [] && Contents(log[..i])[0] == log[i].n
  {
    hide Contents;
  }

  lemma ConservedStep(pushed: multiset<nat>, popped: multiset<nat>, s: seq<nat>, e: Event)
    requires pushed == popped + multiset(s) && (e.Popped? ==> s != [] && s[0] == e.n)
    ensures e.Pushed? ==> pushed + multiset{e.n} == popped + multiset(After(s, e))
    ensures e.Popped? ==> pushed == popped + multiset{e.n} + multiset(After(s, e))
    ensures e.WasEmpty? ==> After(s, e) == s
  {
    if e.Popped? {
      assert s == [s[0]] + s[1..];
    }
    if e.Pushed? {
      assert multiset([e.n] + s) == multiset{e.n} + multiset(s);
    }
  }

  // ----- progress -----

  predicate Changes(e: Event) {
    !e.WasEmpty?
  }

  /** The head moves only in a step in which some operation takes effect. */
  lemma HeadMovesWithLog(l: List, x: Action)
    requires Inv(l) && Enabled(l, x) && Step(l, x).head != l.head
    ensures |Step(l, x).log| > |l.log| && Changes(Step(l, x).log[|l.log|])
  {
  }

  /** The value an operation under way has read from the head. */
  function Expected(p: Pc): nat
    requires p != Idle
  {
    if p.Loaded? || p.Stored? then p.exp else p.head
  }

  /** In state `k`, actor `a` still works with the value `exp`. */
  ghost predicate Expects(l: List, a: nat, exp: nat) {
    a < |l.pc| && l.pc[a] != Idle && Expected(l.pc[a]) == exp
  }

  /** Step `i` is the one in which actor `a` read from the head the value that it still works with in state `j`. */
  ghost predicate ReadAt(trace: seq<List>, xs: seq<Action>, a: nat, i: nat, j: nat, exp: nat)
    requires i < j <= |xs| && |trace| == |xs| + 1
  {
    && xs[i].a == a && trace[i].head == trace[i + 1].head == exp
    && forall k | i < k <= j :: Expects(trace[k], a, exp)
  }

  lemma StartsIdle(trace: seq<List>, xs: seq<Action>, a: nat)
    requires Run(trace, xs)
    ensures a < |trace[0].pc| ==> trace[0].pc[a] == Idle
  {
    var nodes, actors :| trace[0] == Init(nodes, actors);
  }

  lemma {:induction false} FindRead(trace: seq<List>, xs: seq<Action>, a: nat, j: nat) returns (i: nat)
    requires Run(trace, xs) && j <= |xs| && a < |trace[j].pc| && trace[j].pc[a] != Idle
    ensures i < j && ReadAt(trace, xs, a, i, j, Expected(trace[j].pc[a]))
    decreases j
  {
    hide Inv, Step, Reports;
    var exp := Expected(trace[j].pc[a]);
    StartsIdle(trace, xs, a);
    if j == 0 {
      assert false;
    } else {
      Linearises(trace, xs, j - 1);
      assert Follows(trace[j - 1], xs[j - 1], trace[j]);
      StepReads(trace[j - 1], xs[j - 1], a);
      if Expects(trace[j - 1], a, exp) && !(xs[j - 1].a == a && trace[j - 1].head == trace[j].head == exp) {
        i := FindRead(trace, xs, a, j - 1);
      } else {
        i := j - 1;
      }
    }
  }

  /** An actor in the middle of an operation works with what it had, unless it has just read the head. */
  lemma StepReads(l: List, x: Action, a: nat)
    requires Inv(l) && Enabled(l, x) && a < |Step(l, x).pc| && Step(l, x).pc[a] != Idle
    ensures var r := Step(l, x);
      Expects(l, a, Expected(r.pc[a])) || (x.a == a && l.head == r.head == Expected(r.pc[a]))
  {
  }

  /** Step `m` completes an operation of an actor other than `a` that changes the list. */
  ghost predicate OtherCompletes(trace: seq<List>, xs: seq<Action>, m: nat, a: nat)
    requires m < |xs| && |trace| == |xs| + 1
  {
    var l, r, b := trace[m], trace[m + 1], xs[m].a;
    && b != a && b < |r.pc| && r.pc[b] == Idle
    && exists e :: r.log == l.log + [e] && Changes(e)
  }

  lemma {:induction false} FindChange(trace: seq<List>, xs: seq<Action>, a: nat, i: nat, j: nat, exp: nat) returns (m: nat)
    requires Run(trace, xs) && i <= j <= |xs| && trace[j].head != trace[i].head
    requires forall k | i <= k <= j :: Expects(trace[k], a, exp)
    ensures i <= m < j && OtherCompletes(trace, xs, m, a)
    decreases j
  {
    m := j - 1;
    Linearises(trace, xs, m);
    var l, x, r := trace[m], xs[m], trace[m + 1];
    assert Follows(l, x, r);
    if l.head != r.head {
      HeadMovesWithLog(l, x);
      TakesEffectOnce(l, x);
      var e :| r.log == l.log + [e] && Reports(l.pc[x.a], x, e);
      assert Expects(r, a, exp);
    } else {
      m := FindChange(trace, xs, a, i, m, exp);
    }
  }

  /**
   Lock-freedom: when an actor's compare-exchange fails, some other actor has completed an operation that
   changed the list after the failing one read the value it expects to find.
   */
  lemma FailureMeansProgress(trace: seq<List>, xs: seq<Action>, a: nat, j: nat) returns (i: nat, m: nat)
    requires Run(trace, xs) && j < |xs| && xs[j] == Continue(a)
    requires a < |trace[j].pc| && (trace[j].pc[a].Stored? || trace[j].pc[a].Followed?)
    requires !CompareExchange(trace[j].head, Expected(trace[j].pc[a]), 0).1
    ensures i < m < j && ReadAt(trace, xs, a, i, j, Expected(trace[j].pc[a])) && OtherCompletes(trace, xs, m, a)
  {
    i := FindRead(trace, xs, a, j);
    m := FindChange(trace, xs, a, i + 1, j, Expected(trace[j].pc[a]));
  }
}
