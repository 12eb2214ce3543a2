/**
 Mutual exclusion, told from the results of the calls alone: a book that counts the takes and
 releases that succeeded never has two threads ahead on one mutex.
 */
module MutexOwnership {
  import opened Common
  import opened MutexSpec
  import opened MutexTheorems

  // ----- what each operation reports -----

  /** Who gets a mutex, who is refused it and who has to wait; a refused take changes nothing at all. */
  lemma TakeOutcome(s: Kernel, t: nat, m: nat, wait: bool)
    requires Inv(s) && Running(s, t) && m < |s.owner|
    ensures var (r, status) := Take(s, t, m, wait);
      && |r.curr| == |s.curr| && status != NotOwner
      && (status == Ok <==> s.hold[m] == 0 || (s.owner[m] == Some(t) && s.hold[m] < HOLD_MAX))
      && (status == Full <==> s.owner[m] == Some(t) && s.hold[m] >= HOLD_MAX)
      && (status == Blocked <==> wait && s.owner[m].Some? && s.owner[m] != Some(t))
      && (status == TimedOut <==> !wait && s.owner[m].Some? && s.owner[m] != Some(t))
      && (status == Ok ==>
            && r.owner == s.owner[m := Some(t)] && r.hold == s.hold[m := s.hold[m] + 1]
            && r.suspended == s.suspended && r.pending == s.pending)
      && (status == Blocked ==>
            && r.owner == s.owner && r.hold == s.hold
            && r.suspended == s.suspended[t := true] && r.pending == s.pending[t := Some(m)])
      && (status == Full || status == TimedOut ==> r == s)
  {
    hide Stale, HeldPrio, Enqueue, Below, WaitLinks, Queued, Exact;
    assert s.owner[m].None? <==> s.hold[m] == 0;
  }

  /** The owner's release always succeeds; giving up the last hold passes the mutex to a most urgent thread waiting for it. */
  lemma ReleaseOutcome(s: Kernel, t: nat, m: nat)
    requires Inv(s) && Running(s, t) && m < |s.owner|
    ensures var (r, status) := Release(s, t, m);
      && |r.curr| == |s.curr| && |r.owner| == |s.owner|
      && (status == Ok <==> s.owner[m] == Some(t)) && (status == Ok || status == NotOwner)
      && (status == Ok ==> s.hold[m] >= 1)
      && (status == NotOwner ==> r == s)
      && (status == Ok && s.hold[m] > 1 ==>
            && r.owner == s.owner && r.hold == s.hold[m := s.hold[m] - 1]
            && r.suspended == s.suspended && r.pending == s.pending)
      && (status == Ok && s.hold[m] == 1 ==>
            if exists u: nat | u < |s.curr| :: Waits(s, u) == Some(m) then
              exists u: nat | u < |s.curr| && Waits(s, u) == Some(m) :: PassedTo(s, r, m, u)
            else
              && r.owner == s.owner[m := None] && r.hold == s.hold[m := 0]
              && r.suspended == s.suspended && r.pending == s.pending)
  {
    hide HeldPrio, Exact, HoldLinks, SortedBy;
    OwnedOrNot(s, m);
    var (r, status) := Release(s, t, m);
    if status == Ok && s.hold[m] == 1 {
      if s.waiters[m] == [] {
        forall u: nat | u < |s.curr| ensures Waits(s, u) != Some(m) {
          assert u !in s.waiters[m];
        }
      } else {
        FirstWaiter(s, m);
        assert PassedTo(s, r, m, s.waiters[m][0]);
      }
    }
  }

  lemma OwnedOrNot(s: Kernel, m: nat)
    requires Inv(s) && m < |s.owner|
    ensures s.owner[m].None? <==> s.hold[m] == 0
  {
    hide WaitLinks, Exact, Queued;
  }

  /** The mutex now belongs once to `u`, who does not wait any more and was as urgent as any thread waiting for it. */
  ghost predicate PassedTo(s: Kernel, r: Kernel, m: nat, u: nat)
    requires Shape(s) && u < |s.curr| && m < |s.owner|
  {
    && r.owner == s.owner[m := Some(u)] && r.hold == s.hold[m := 1]
    && r.suspended == s.suspended[u := false] && r.pending == s.pending[u := None]
    && forall v: nat | v < |s.curr| && Waits(s, v) == Some(m) :: s.curr[u] <= s.curr[v]
  }

  lemma FirstWaiter(s: Kernel, m: nat)
    requires Inv(s) && m < |s.owner| && s.waiters[m] != []
    ensures var u := s.waiters[m][0];
      && u < |s.curr| && Waits(s, u) == Some(m)
      && forall v: nat | v < |s.curr| && Waits(s, v) == Some(m) :: s.curr[u] <= s.curr[v]
  {
    hide HoldLinks, Exact;
    var ws := s.waiters[m];
    assert ws[0] in ws;
    assert Queued(s, m);
    forall v: nat | v < |s.curr| && Waits(s, v) == Some(m) ensures s.curr[ws[0]] <= s.curr[v] {
      assert v in ws;
      var i: nat :| i < |ws| && ws[i] == v;
      assert s.curr[ws[0]] <= s.curr[ws[i]];
    }
  }

  lemma TimeoutOutcome(s: Kernel, t: nat)
    requires Inv(s) && t < |s.curr| && Waits(s, t).Some?
    ensures var r := Timeout(s, t);
      && r.owner == s.owner && r.hold == s.hold
      && r.suspended == s.suspended[t := false] && r.pending == s.pending[t := None]
      && s.owner[Waits(s, t).value] != Some(t)
  {
    hide HeldPrio, Exact, HoldLinks, Queued, WaitLinks;
    DetachKeeps(s, t, Waits(s, t).value);
  }

  // ----- the book -----

  /** Successful takes less successful releases, by thread and mutex, and the takes that have not come back yet. */
  datatype Book = Book(held: seq<seq<int>>, asks: seq<Option<nat>>)

  ghost predicate Fits(b: Book, s: Kernel) {
    && |b.held| == |b.asks| == |s.curr| == |s.suspended|
    && forall t | 0 <= t < |b.held| :: |b.held[t]| == |s.owner|
  }

  /** What a take that had blocked comes back with: the mutex, if the caller is now its owner. */
  function Returned(s: Kernel, t: nat, m: nat): Status
    requires m < |s.owner|
  {
    if s.owner[m] == Some(t) then Ok else TimedOut
  }

  function Counted(b: Book, t: nat, m: nat, n: int): Book
    requires t < |b.held| && m < |b.held[t]|
  {
    b.(held := b.held[t := b.held[t][m := b.held[t][m] + n]])
  }

  /** The entry for what the caller of an operation is told at once. */
  ghost function Told(b: Book, s: Kernel, op: Op): (r: Book)
    requires Inv(s) && Enabled(s, op) && Fits(b, s)
  {
    match op
    case TakeOp(t, m, wait) =>
      var status := Take(s, t, m, wait).1;
      if status == Ok then Counted(b, t, m, 1)
      else if status == Blocked then b.(asks := b.asks[t := Some(m)])
      else b
    case ReleaseOp(t, m) =>
      if Release(s, t, m).1 == Ok then Counted(b, t, m, -1) else b
    case TimeoutOp(_) => b
  }

  /**
   The take of `t` comes back in state `s`, if it has not and `t` is no longer suspended. When the thread gets to run
   does not matter: until then nothing can make it the owner, or not the owner, of that mutex.
   */
  ghost predicate ComesBack(b: Book, s: Kernel, t: nat, m: nat)
    requires t < |b.asks| && t < |s.suspended|
  {
    b.asks[t] == Some(m) && !s.suspended[t]
  }

  /** The entries for the takes that come back in state `s`. */
  ghost function Later(b: Book, s: Kernel): Book
    requires Fits(b, s)
  {
    Book(
      seq(|b.held|, t requires 0 <= t < |b.held| =>
        seq(|s.owner|, m requires 0 <= m < |s.owner| =>
          if ComesBack(b, s, t, m) && Returned(s, t, m) == Ok then b.held[t][m] + 1 else b.held[t][m])),
      seq(|b.asks|, t requires 0 <= t < |b.asks| => if s.suspended[t] then b.asks[t] else None))
  }

  ghost function Empty(threads: nat, mutexes: nat): Book {
    Book(seq(threads, _ => seq(mutexes, _ => 0)), seq(threads, _ => None))
  }

  /** The book of a whole run. */
  ghost function Kept(b: Book, s: Kernel, ops: seq<Op>): Book
    requires Inv(s) && NoCeilings(s) && Possible(s, ops) && Agrees(b, s)
    decreases ops
  {
    if ops == [] then b
    else
      StepAgrees(b, s, ops[0]);
      Kept(Later(Told(b, s, ops[0]), Step(s, ops[0])), Step(s, ops[0]), ops[1..])
  }

  /** The kernel's fields and the book say the same. */
  ghost predicate Agrees(b: Book, s: Kernel) {
    && Shape(s) && Fits(b, s)
    && (forall t, m | 0 <= t < |s.curr| && 0 <= m < |s.owner| ::
          b.held[t][m] == if s.owner[m] == Some(t) then s.hold[m] else 0)
    && (forall t | 0 <= t < |s.curr| :: b.asks[t] == Waits(s, t))
  }

  // ----- one step -----

  /** What agreement asks of one entry. */
  ghost predicate EntryAgrees(b: Book, s: Kernel, t: nat, m: nat)
    requires Fits(b, s) && t < |s.curr| && m < |s.owner| && |s.hold| == |s.owner|
  {
    b.held[t][m] == if s.owner[m] == Some(t) then s.hold[m] else 0
  }

  lemma AllEntries(b: Book, s: Kernel)
    requires Shape(s) && Fits(b, s)
    requires forall u: nat, k: nat | u < |s.curr| && k < |s.owner| :: EntryAgrees(b, s, u, k)
    requires forall u: nat | u < |s.curr| :: b.asks[u] == Waits(s, u)
    ensures Agrees(b, s)
  {
    hide Waits;
    forall t, m | 0 <= t < |s.curr| && 0 <= m < |s.owner|
      ensures b.held[t][m] == if s.owner[m] == Some(t) then s.hold[m] else 0
    {
      assert EntryAgrees(b, s, t, m);
    }
  }

  lemma TakeEntry(b: Book, s: Kernel, t: nat, m: nat, wait: bool, u: nat, k: nat)
    requires Inv(s) && Agrees(b, s) && Running(s, t) && m < |s.owner| && u < |s.curr| && k < |s.owner|
    ensures var r := Take(s, t, m, wait).0; var c := Told(b, s, TakeOp(t, m, wait));
      Fits(c, r) && |r.owner| == |r.hold| == |s.owner| && |r.curr| == |s.curr| && EntryAgrees(Later(c, r), r, u, k)
  {
    hide Take, Queued, Exact, WaitLinks, Linked;
    TakeOutcome(s, t, m, wait);
    assert b.asks[u] == Waits(s, u);
    assert b.held[u][k] == if s.owner[k] == Some(u) then s.hold[k] else 0;
  }

  lemma TakeAsks(b: Book, s: Kernel, t: nat, m: nat, wait: bool, u: nat)
    requires Inv(s) && Agrees(b, s) && Running(s, t) && m < |s.owner| && u < |s.curr|
    ensures var r := Take(s, t, m, wait).0; var c := Told(b, s, TakeOp(t, m, wait));
      Shape(r) && Fits(c, r) && |r.curr| == |s.curr| && Later(c, r).asks[u] == Waits(r, u)
  {
    hide Take, Queued, Exact, WaitLinks, Linked;
    TakeOutcome(s, t, m, wait);
    assert b.asks[u] == Waits(s, u);
  }

  lemma TakeAgrees(b: Book, s: Kernel, t: nat, m: nat, wait: bool)
    requires Inv(s) && Agrees(b, s) && Running(s, t) && m < |s.owner|
    ensures var r := Take(s, t, m, wait).0; var c := Told(b, s, TakeOp(t, m, wait));
      Fits(c, r) && Agrees(Later(c, r), r)
  {
    hide Take, Told, Queued, Exact, Linked, Waits;
    var r := Take(s, t, m, wait).0;
    var c := Told(b, s, TakeOp(t, m, wait));
    TakeSizes(b, s, t, m, wait);
    forall u: nat, k: nat | u < |s.curr| && k < |s.owner| ensures EntryAgrees(Later(c, r), r, u, k) {
      TakeEntry(b, s, t, m, wait, u, k);
    }
    forall u: nat | u < |s.curr| ensures Later(c, r).asks[u] == Waits(r, u) {
      TakeAsks(b, s, t, m, wait, u);
    }
    AllEntries(Later(c, r), r);
  }

  lemma TakeSizes(b: Book, s: Kernel, t: nat, m: nat, wait: bool)
    requires Inv(s) && Agrees(b, s) && Running(s, t) && m < |s.owner|
    ensures var r := Take(s, t, m, wait).0;
      |r.curr| == |s.curr| && |r.owner| == |s.owner| && Fits(Told(b, s, TakeOp(t, m, wait)), r)
  {
    hide Take, Queued, Exact, Linked, Waits;
    TakeOutcome(s, t, m, wait);
  }

  /** The hand-over: one entry less for the thread that gave the mutex up, one more for the thread whose take comes back. */
  lemma PassedEntry(b: Book, s: Kernel, r: Kernel, t: nat, m: nat, h: nat, u: nat, k: nat)
    requires Shape(s) && Shape(r) && Agrees(b, s) && |r.curr| == |s.curr| && |r.owner| == |s.owner|
    requires t < |s.curr| && h < |s.curr| && m < |s.owner| && u < |s.curr| && k < |s.owner|
    requires s.owner[m] == Some(t) && s.hold[m] == 1 && !s.suspended[t] && Waits(s, h) == Some(m) && PassedTo(s, r, m, h)
    ensures Fits(Counted(b, t, m, -1), r) && EntryAgrees(Later(Counted(b, t, m, -1), r), r, u, k)
  {
    assert b.asks[u] == Waits(s, u);
    assert b.held[u][k] == if s.owner[k] == Some(u) then s.hold[k] else 0;
  }

  lemma ReleaseEntry(b: Book, s: Kernel, t: nat, m: nat, u: nat, k: nat)
    requires Inv(s) && Agrees(b, s) && Running(s, t) && m < |s.owner| && Inv(Release(s, t, m).0)
    requires u < |s.curr| && k < |s.owner|
    ensures var r := Release(s, t, m).0; var c := Told(b, s, ReleaseOp(t, m));
      Fits(c, r) && |r.owner| == |r.hold| == |s.owner| && |r.curr| == |s.curr| && EntryAgrees(Later(c, r), r, u, k)
  {
    hide Release, Queued, Exact, WaitLinks, PassedTo, Linked;
    ReleaseOutcome(s, t, m);
    assert b.asks[u] == Waits(s, u);
    assert b.held[u][k] == if s.owner[k] == Some(u) then s.hold[k] else 0;
    var (r, status) := Release(s, t, m);
    if status == Ok && s.hold[m] == 1 && exists h: nat | h < |s.curr| :: Waits(s, h) == Some(m) {
      var h: nat :| h < |s.curr| && Waits(s, h) == Some(m) && PassedTo(s, r, m, h);
      PassedEntry(b, s, r, t, m, h, u, k);
    }
  }

  lemma ReleaseAsks(b: Book, s: Kernel, t: nat, m: nat, u: nat)
    requires Inv(s) && Agrees(b, s) && Running(s, t) && m < |s.owner| && Inv(Release(s, t, m).0) && u < |s.curr|
    ensures var r := Release(s, t, m).0; var c := Told(b, s, ReleaseOp(t, m));
      Fits(c, r) && |r.curr| == |s.curr| && Later(c, r).asks[u] == Waits(r, u)
  {
    hide Release, Queued, Exact, WaitLinks;
    ReleaseOutcome(s, t, m);
    assert b.asks[u] == Waits(s, u);
  }

  lemma ReleaseAgrees(b: Book, s: Kernel, t: nat, m: nat)
    requires Inv(s) && Agrees(b, s) && Running(s, t) && m < |s.owner| && Inv(Release(s, t, m).0)
    ensures var r := Release(s, t, m).0; var c := Told(b, s, ReleaseOp(t, m));
      Fits(c, r) && Agrees(Later(c, r), r)
  {
    hide Release, Told, Queued, Exact, Linked, Waits, PassedTo;
    var r := Release(s, t, m).0;
    var c := Told(b, s, ReleaseOp(t, m));
    ReleaseSizes(b, s, t, m);
    forall u: nat, k: nat | u < |s.curr| && k < |s.owner| ensures EntryAgrees(Later(c, r), r, u, k) {
      ReleaseEntry(b, s, t, m, u, k);
    }
    forall u: nat | u < |s.curr| ensures Later(c, r).asks[u] == Waits(r, u) {
      ReleaseAsks(b, s, t, m, u);
    }
    AllEntries(Later(c, r), r);
  }

  lemma ReleaseSizes(b: Book, s: Kernel, t: nat, m: nat)
    requires Inv(s) && Agrees(b, s) && Running(s, t) && m < |s.owner| && Inv(Release(s, t, m).0)
    ensures var r := Release(s, t, m).0;
      |r.curr| == |s.curr| && |r.owner| == |s.owner| && Fits(Told(b, s, ReleaseOp(t, m)), r)
  {
    hide Release, Queued, Exact, Linked, Waits, PassedTo;
    ReleaseOutcome(s, t, m);
  }

  lemma TimeoutAgrees(b: Book, s: Kernel, t: nat)
    requires Inv(s) && Agrees(b, s) && t < |s.curr| && Waits(s, t).Some?
    ensures var r := Timeout(s, t); Fits(b, r) && Agrees(Later(b, r), r)
  {
    hide Timeout, Queued, Exact, WaitLinks;
    TimeoutOutcome(s, t);
  }

  lemma StepAgrees(b: Book, s: Kernel, op: Op)
    requires Inv(s) && NoCeilings(s) && Agrees(b, s) && Enabled(s, op)
    ensures Fits(Told(b, s, op), Step(s, op))
    ensures Agrees(Later(Told(b, s, op), Step(s, op)), Step(s, op))
  {
    hide Take, Release, Timeout, Linked, Queued, Exact, Fits, Later, Waits;
    match op
    case TakeOp(t, m, wait) => TakeAgrees(b, s, t, m, wait);
    case ReleaseOp(t, m) =>
      assert Step(s, op) == Release(s, t, m).0;
      ReleaseAgrees(b, s, t, m);
    case TimeoutOp(t) => TimeoutAgrees(b, s, t);
  }

  // ----- every run -----

  lemma {:induction false} KeptAgrees(b: Book, s: Kernel, ops: seq<Op>)
    requires Inv(s) && NoCeilings(s) && Possible(s, ops) && Agrees(b, s)
    ensures Agrees(Kept(b, s, ops), Run(s, ops))
    decreases ops
  {
    hide Linked, Queued, Exact, NoCeilings, Step, Later, Fits, Enabled;
    if ops == [] {
    } else {
      StepAgrees(b, s, ops[0]);
      KeptAgrees(Later(Told(b, s, ops[0]), Step(s, ops[0])), Step(s, ops[0]), ops[1..]);
    }
  }

  lemma EmptyAgrees(prios: seq<nat>, mutexes: nat)
    requires forall t | 0 <= t < |prios| :: prios[t] <= NO_PRIORITY
    ensures Agrees(Empty(|prios|, mutexes), Init(prios, mutexes))
  {
    hide Linked, Queued, Exact;
  }

  /** The book of a run from fresh threads and mutexes. */
  ghost function Account(prios: seq<nat>, mutexes: nat, ops: seq<Op>): Book
    requires forall t | 0 <= t < |prios| :: prios[t] <= NO_PRIORITY
    requires Possible(Init(prios, mutexes), ops)
  {
    EmptyAgrees(prios, mutexes);
    Kept(Empty(|prios|, mutexes), Init(prios, mutexes), ops)
  }

  /**
   Mutual exclusion in every run of takes, releases and time-outs, deadlocks included: at most one
   thread is ahead on a mutex, that thread is its owner and the hold counts how far; nobody is ever
   behind.
   */
  lemma MutualExclusion(prios: seq<nat>, mutexes: nat, ops: seq<Op>, m: nat)
    requires forall t | 0 <= t < |prios| :: prios[t] <= NO_PRIORITY
    requires Possible(Init(prios, mutexes), ops) && m < mutexes
    ensures var b, s := Account(prios, mutexes, ops), Run(Init(prios, mutexes), ops);
      && |b.held| == |prios| && |s.owner| == |s.hold| == mutexes
      && (forall t | 0 <= t < |prios| :: |b.held[t]| == mutexes && b.held[t][m] >= 0)
      && (forall t, u | 0 <= t < |prios| && 0 <= u < |prios| && b.held[t][m] > 0 && b.held[u][m] > 0 :: t == u)
      && (forall t | 0 <= t < |prios| :: b.held[t][m] > 0 <==> s.owner[m] == Some(t))
      && (forall t | 0 <= t < |prios| && b.held[t][m] > 0 :: b.held[t][m] == s.hold[m])
  {
    hide Exact, Queued, WaitLinks, Kept, Run, Init, Possible, Waits;
    var b, s := Account(prios, mutexes, ops), Run(Init(prios, mutexes), ops);
    AccountAgrees(prios, mutexes, ops);
    assert s.owner[m].None? <==> s.hold[m] == 0;
    forall t | 0 <= t < |prios|
      ensures |b.held[t]| == mutexes && b.held[t][m] == if s.owner[m] == Some(t) then s.hold[m] else 0
    {
    }
  }

  lemma AccountAgrees(prios: seq<nat>, mutexes: nat, ops: seq<Op>)
    requires forall t | 0 <= t < |prios| :: prios[t] <= NO_PRIORITY
    requires Possible(Init(prios, mutexes), ops)
    ensures var s := Run(Init(prios, mutexes), ops);
      Agrees(Account(prios, mutexes, ops), s) && |s.curr| == |prios| && |s.owner| == mutexes
  {
    hide Inv, NoCeilings, Agrees, Kept, Run, Possible;
    EmptyAgrees(prios, mutexes);
    KeptAgrees(Empty(|prios|, mutexes), Init(prios, mutexes), ops);
    RunSizes(Init(prios, mutexes), ops);
  }

  /** A take that has not come back waits for a mutex on which some other thread is ahead. */
  lemma WaitsForAnother(prios: seq<nat>, mutexes: nat, ops: seq<Op>, t: nat)
    requires forall u | 0 <= u < |prios| :: prios[u] <= NO_PRIORITY
    requires Possible(Init(prios, mutexes), ops) && t < |prios|
    ensures var b := Account(prios, mutexes, ops);
      && |b.asks| == |b.held| == |prios| && (forall u | 0 <= u < |prios| :: |b.held[u]| == mutexes)
      && (b.asks[t].Some? ==>
            && b.asks[t].value < mutexes
            && exists u: nat | u < |prios| && u != t :: b.held[u][b.asks[t].value] > 0)
  {
    hide Exact, Queued, Kept, Run, Init, Possible;
    var b, s := Account(prios, mutexes, ops), Run(Init(prios, mutexes), ops);
    AccountAgrees(prios, mutexes, ops);
    if b.asks[t].Some? {
      WaitedFor(s, t, b.asks[t].value);
      assert b.held[s.owner[b.asks[t].value].value][b.asks[t].value] > 0;
    }
  }

  lemma {:induction false} RunSizes(s: Kernel, ops: seq<Op>)
    requires Inv(s) && NoCeilings(s) && Possible(s, ops)
    ensures |Run(s, ops).curr| == |s.curr| && |Run(s, ops).owner| == |s.owner|
    decreases ops
  {
    hide Linked, Queued, Exact, NoCeilings, Step, Enabled;
    if ops == [] {
    } else {
      StepSizes(s, ops[0]);
      RunSizes(Step(s, ops[0]), ops[1..]);
    }
  }

  lemma StepSizes(s: Kernel, op: Op)
    requires Inv(s) && NoCeilings(s) && Enabled(s, op)
    ensures |Step(s, op).curr| == |s.curr| && |Step(s, op).owner| == |s.owner|
  {
    hide Take, Release, Timeout, Linked, Queued, Exact;
    match op
    case TakeOp(t, m, wait) => TakeOutcome(s, t, m, wait);
    case ReleaseOp(t, m) => ReleaseOutcome(s, t, m);
    case TimeoutOp(t) => TimeoutOutcome(s, t);
  }
}
