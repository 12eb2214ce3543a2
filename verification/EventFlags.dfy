/** Event objects: threads waiting for all or any of some flags. */
module EventFlags {
  import opened Common

  /** A 32-bit flag word, as the positions of its one bits. */
  type Flags = set<nat>

  /** RT_EVENT_FLAG_AND, RT_EVENT_FLAG_OR, RT_EVENT_FLAG_CLEAR */
  datatype How = How(and: bool, or: bool, clear: bool)

  datatype Status = Ok | Error | TimedOut | Blocked

  /** `eventSet` and `eventInfo` are fields of each thread: what it asked for or got, and how. */
  datatype Event = Event(flags: Flags, eventSet: seq<Flags>, eventInfo: seq<How>, waiting: seq<nat>)

  predicate Chosen(option: How) {
    option.and || option.or
  }

  predicate Satisfied(option: How, want: Flags, flags: Flags) {
    if option.and then want * flags == want
    else if option.or then want * flags != {}
    else false
  }

  /** What a satisfied waiter gets: everything it asked for, or those of its flags that are flags. */
  function Received(option: How, want: Flags, flags: Flags): Flags {
    if option.and then want else want * flags
  }

  ghost predicate Shape(e: Event) {
    && |e.eventSet| == |e.eventInfo| && NoDup(e.waiting)
    && forall i | 0 <= i < |e.waiting| :: Waiter(e, e.waiting[i])
  }

  ghost predicate Waiter(e: Event, t: nat) {
    t < |e.eventSet| == |e.eventInfo| && e.eventSet[t] != {} && Chosen(e.eventInfo[t])
  }

  /** No lost wake-up: nobody waits for what is there. */
  ghost predicate NobodyMissed(e: Event)
    requires Shape(e)
  {
    forall i | 0 <= i < |e.waiting| :: Unsatisfied(e, e.waiting[i])
  }

  ghost predicate Unsatisfied(e: Event, t: nat) {
    t < |e.eventSet| == |e.eventInfo| && !Satisfied(e.eventInfo[t], e.eventSet[t], e.flags)
  }

  ghost predicate Inv(e: Event) {
    Shape(e) && NobodyMissed(e)
  }

  // ----- send -----

  predicate Hit(e: Event, t: nat, s: Flags)
    requires t < |e.eventSet| && t < |e.eventInfo|
  {
    Satisfied(e.eventInfo[t], e.eventSet[t], s)
  }

  ghost predicate Known(e: Event, ts: seq<nat>) {
    forall i | 0 <= i < |ts| :: ts[i] < |e.eventSet| && ts[i] < |e.eventInfo|
  }

  /** The waiters of `ts` that the flags `s` satisfy, and those that they do not. */
  function Woken(e: Event, ts: seq<nat>, s: Flags): (r: seq<nat>)
    requires Known(e, ts)
    ensures forall t :: t in r <==> t in ts && t < |e.eventSet| && t < |e.eventInfo| && Hit(e, t, s)
  {
    if ts == [] then []
    else if Hit(e, ts[0], s) then [ts[0]] + Woken(e, ts[1..], s)
    else Woken(e, ts[1..], s)
  }

  function Kept(e: Event, ts: seq<nat>, s: Flags): (r: seq<nat>)
    requires Known(e, ts)
    ensures forall t :: t in r <==> t in ts && t < |e.eventSet| && t < |e.eventInfo| && !Hit(e, t, s)
  {
    if ts == [] then []
    else if Hit(e, ts[0], s) then Kept(e, ts[1..], s)
    else [ts[0]] + Kept(e, ts[1..], s)
  }

  /** The flags consumed by the satisfied waiters that asked for clearing. */
  function Consumed(e: Event, ts: seq<nat>, s: Flags): Flags
    requires Known(e, ts)
  {
    if ts == [] then {}
    else
      var t := ts[0];
      (if Hit(e, t, s) && e.eventInfo[t].clear then Received(e.eventInfo[t], e.eventSet[t], s) else {})
        + Consumed(e, ts[1..], s)
  }

  /** What the threads' fields hold once the satisfied waiters of `ts` have been served. */
  function Served(e: Event, ts: seq<nat>, s: Flags): (r: seq<Flags>)
    requires Known(e, ts)
    ensures |r| == |e.eventSet|
  {
    seq(|e.eventSet|, t requires 0 <= t < |e.eventSet| =>
      if t in ts && t < |e.eventInfo| && Hit(e, t, s) then Received(e.eventInfo[t], e.eventSet[t], s) else e.eventSet[t])
  }

  /** `rt_event_send` */
  function Send(e: Event, flags: Flags): (Event, Status)
    requires Shape(e)
  {
    if flags == {} then (e, Error)
    else
      var s := e.flags + flags;
      (Event(s - Consumed(e, e.waiting, s), Served(e, e.waiting, s), e.eventInfo, Kept(e, e.waiting, s)), Ok)
  }

  // ----- receive -----

  /** `_rt_event_recv` by thread `t`, up to where it returns or goes to sleep. */
  function Recv(e: Event, t: nat, want: Flags, option: How, wait: bool): (Event, Status)
    requires Shape(e) && t < |e.eventSet| && t !in e.waiting && Chosen(option)
  {
    if want == {} then (e, Error)
    else if Satisfied(option, want, e.flags) then
      (e.(eventSet := e.eventSet[t := e.flags * want], eventInfo := e.eventInfo[t := option],
          flags := if option.clear then e.flags - want else e.flags), Ok)
    else if !wait then (e, TimedOut)
    else
      (e.(eventSet := e.eventSet[t := want], eventInfo := e.eventInfo[t := option], waiting := e.waiting + [t]), Blocked)
  }

  // ----- what they keep -----

  /** Fewer flags satisfy fewer waiters. */
  lemma FewerFlags(option: How, want: Flags, s: Flags, c: Flags)
    requires !Satisfied(option, want, s)
    ensures !Satisfied(option, want, s - c)
  {
    if want * s != want {
      assert want * (s - c) <= want * s;
    }
  }

  lemma KeptNoDup(e: Event, ts: seq<nat>, s: Flags)
    requires Known(e, ts) && NoDup(ts)
    ensures NoDup(Kept(e, ts, s))
  {
    if ts == [] {
    } else {
      KeptNoDup(e, ts[1..], s);
      var r := Kept(e, ts[1..], s);
      forall i | 0 <= i < |r| ensures r[i] != ts[0] {
        assert r[i] in r;
      }
    }
  }

  /** What a waiter waits for: all of its flags, or any one of them. */
  ghost predicate Met(option: How, want: Flags, flags: Flags) {
    if option.and then want <= flags else exists flag :: flag in want && flag in flags
  }

  lemma MetSatisfied(option: How, want: Flags, flags: Flags)
    requires Chosen(option)
    ensures Satisfied(option, want, flags) <==> Met(option, want, flags)
    ensures Satisfied(option, want, flags) ==> Received(option, want, flags) == want * flags
  {
    if option.and {
      assert want * flags == want <==> want <= flags;
    } else if want * flags != {} {
      var flag :| flag in want * flags;
      assert flag in want && flag in flags;
    } else {
      assert forall flag | flag in want && flag in flags :: flag in want * flags;
    }
  }

  /** Thread `t` has been woken by the send that leads from `e` to `r`, it asked for clearing and `flag` is among what it got. */
  ghost predicate TookAway(e: Event, r: Event, t: nat, flag: nat) {
    && t in e.waiting && t !in r.waiting && t < |e.eventInfo| && t < |r.eventSet|
    && e.eventInfo[t].clear && flag in r.eventSet[t]
  }

  /**
   A send wakes exactly the waiters whose condition the flags, the new ones included, meet; each gets those of
   its flags that are set; a flag is set afterwards exactly if it was or is new and nobody woken took it
   away; and nobody waits for what is there.
   */
  lemma SendWakes(e: Event, flags: Flags)
    requires Inv(e) && flags != {}
    ensures var (r, status) := Send(e, flags); var s := e.flags + flags;
      && Inv(r) && status == Ok && r.eventInfo == e.eventInfo
      && (forall t | t in e.waiting :: t < |e.eventSet| && t < |e.eventInfo|)
      && (forall t :: t in r.waiting <==> t in e.waiting && !Met(e.eventInfo[t], e.eventSet[t], s))
      && (forall t | t in e.waiting && t !in r.waiting :: r.eventSet[t] == e.eventSet[t] * s && r.eventSet[t] != {})
      && (forall t | 0 <= t < |e.eventSet| && (t !in e.waiting || t in r.waiting) :: r.eventSet[t] == e.eventSet[t])
      && (forall flag :: flag in r.flags <==> flag in s && !exists t :: TookAway(e, r, t, flag))
  {
    hide NoDup, Kept, Satisfied, Received, Met;
    var s := e.flags + flags;
    var r := Send(e, flags).0;
    forall t | t in e.waiting
      ensures t < |e.eventSet| && t < |e.eventInfo| && e.eventSet[t] != {} && Chosen(e.eventInfo[t])
      ensures Hit(e, t, s) <==> Met(e.eventInfo[t], e.eventSet[t], s)
      ensures Hit(e, t, s) ==> Received(e.eventInfo[t], e.eventSet[t], s) == e.eventSet[t] * s != {}
    {
      WaiterAt(e, t);
      MetSatisfied(e.eventInfo[t], e.eventSet[t], s);
      if Hit(e, t, s) {
        GetsSomething(e.eventInfo[t], e.eventSet[t], s);
      }
    }
    SendKeeps(e, flags);
    forall flag ensures flag in r.flags <==> flag in s && !exists t :: TookAway(e, r, t, flag) {
      ConsumedExactly(e, e.waiting, s, flag);
      forall t: nat ensures Consumer(e, e.waiting, s, t, flag) <==> TookAway(e, r, t, flag) {
      }
    }
  }

  lemma WaiterAt(e: Event, t: nat)
    requires Shape(e) && t in e.waiting
    ensures Waiter(e, t)
  {
    var i: nat :| i < |e.waiting| && e.waiting[i] == t;
    assert Waiter(e, e.waiting[i]);
  }

  lemma SendKeeps(e: Event, flags: Flags)
    requires Inv(e) && flags != {}
    ensures Inv(Send(e, flags).0)
  {
    hide Satisfied, Received, Consumed;
    var s := e.flags + flags;
    var r := Send(e, flags).0;
    KeptNoDup(e, e.waiting, s);
    forall i | 0 <= i < |r.waiting| ensures Waiter(r, r.waiting[i]) && Unsatisfied(r, r.waiting[i]) {
      var t := r.waiting[i];
      assert t in r.waiting;
      WaiterAt(e, t);
      FewerFlags(e.eventInfo[t], e.eventSet[t], s, Consumed(e, e.waiting, s));
    }
  }

  /** Those who stay keep their order. */
  lemma StayInOrder(e: Event, flags: Flags, a: nat, b: nat)
    requires Inv(e) && flags != {} && a < b < |e.waiting|
    requires e.waiting[a] in Send(e, flags).0.waiting && e.waiting[b] in Send(e, flags).0.waiting
    ensures var q := Send(e, flags).0.waiting;
      exists i: nat, j: nat | i < j < |q| :: q[i] == e.waiting[a] && q[j] == e.waiting[b]
  {
    var i, j := KeptInOrder(e, e.waiting, e.flags + flags, a, b);
  }

  lemma {:induction false} KeptInOrder(e: Event, ts: seq<nat>, s: Flags, a: nat, b: nat) returns (i: nat, j: nat)
    requires Known(e, ts) && a < b < |ts| && !Hit(e, ts[a], s) && !Hit(e, ts[b], s)
    ensures var q := Kept(e, ts, s); i < j < |q| && q[i] == ts[a] && q[j] == ts[b]
  {
    hide Hit, Kept;
    var rest := ts[1..];
    var q := Kept(e, rest, s);
    KeptCons(e, ts, s);
    if a == 0 {
      i := 0;
      assert rest[b - 1] == ts[b];
      var k: nat :| k < |q| && q[k] == ts[b];
      j := k + 1;
    } else {
      i, j := KeptInOrder(e, rest, s, a - 1, b - 1);
      if !Hit(e, ts[0], s) {
        i, j := i + 1, j + 1;
      }
    }
  }

  lemma KeptCons(e: Event, ts: seq<nat>, s: Flags)
    requires Known(e, ts) && ts != []
    ensures Kept(e, ts, s) == (if Hit(e, ts[0], s) then [] else [ts[0]]) + Kept(e, ts[1..], s)
  {
  }

  /** A satisfied waiter gets at least one flag, and only flags that are set. */
  lemma GetsSomething(option: How, want: Flags, s: Flags)
    requires want != {} && Satisfied(option, want, s)
    ensures Received(option, want, s) != {} && Received(option, want, s) <= s
  {
  }

  /** A flag is cleared by a send exactly if some woken waiter that asked for clearing received it. */
  lemma {:induction false} ConsumedExactly(e: Event, ts: seq<nat>, s: Flags, flag: nat)
    requires Known(e, ts)
    ensures flag in Consumed(e, ts, s) <==> exists t :: Consumer(e, ts, s, t, flag)
  {
    if ts == [] {
    } else {
      ConsumedExactly(e, ts[1..], s, flag);
      var t := ts[0];
      if flag in Consumed(e, ts, s) && flag !in Consumed(e, ts[1..], s) {
        assert Consumer(e, ts, s, t, flag);
      }
      if u :| Consumer(e, ts[1..], s, u, flag) {
        assert Consumer(e, ts, s, u, flag);
      }
      if u :| Consumer(e, ts, s, u, flag) && u != t {
        assert Consumer(e, ts[1..], s, u, flag);
      }
    }
  }

  ghost predicate Consumer(e: Event, ts: seq<nat>, s: Flags, t: nat, flag: nat) {
    && t in ts && t < |e.eventSet| && t < |e.eventInfo|
    && Hit(e, t, s) && e.eventInfo[t].clear && flag in Received(e.eventInfo[t], e.eventSet[t], s)
  }

  /**
   A receive returns at once exactly if its condition is met, with those of its flags that are set; with clearing
   exactly the wanted flags go, otherwise none. It waits, behind those that do already, exactly if it may, and is
   refused otherwise; nobody is left waiting for what is there.
   */
  lemma RecvKeeps(e: Event, t: nat, want: Flags, option: How, wait: bool)
    requires Inv(e) && t < |e.eventSet| && t !in e.waiting && Chosen(option)
    ensures var (r, status) := Recv(e, t, want, option, wait);
      && Inv(r)
      && (status == Error <==> want == {})
      && (status == Ok <==> want != {} && Met(option, want, e.flags))
      && (status == Blocked <==> want != {} && !Met(option, want, e.flags) && wait)
      && (status == TimedOut <==> want != {} && !Met(option, want, e.flags) && !wait)
      && (forall flag :: flag in r.flags <==> flag in e.flags && !(status == Ok && option.clear && flag in want))
      && r.waiting == (if status == Blocked then e.waiting + [t] else e.waiting)
      && (status == Ok ==> t < |r.eventSet| && r.eventSet[t] != {} && r.eventSet[t] == e.flags * want)
      && (status == Blocked ==> t < |r.eventSet| && r.eventSet[t] == want && r.eventInfo[t] == option)
      && (status == Error || status == TimedOut ==> r == e)
      && |r.eventSet| == |e.eventSet| == |r.eventInfo| == |e.eventInfo|
      && forall u | 0 <= u < |e.eventSet| && u != t :: r.eventSet[u] == e.eventSet[u] && r.eventInfo[u] == e.eventInfo[u]
  {
    MetSatisfied(option, want, e.flags);
    RecvInv(e, t, want, option, wait);
    if want != {} && Satisfied(option, want, e.flags) {
      GetsSomething(option, want, e.flags);
    }
  }

  lemma RecvInv(e: Event, t: nat, want: Flags, option: How, wait: bool)
    requires Inv(e) && t < |e.eventSet| && t !in e.waiting && Chosen(option)
    ensures Inv(Recv(e, t, want, option, wait).0)
  {
    hide Satisfied, Received;
    var r := Recv(e, t, want, option, wait).0;
    forall i | 0 <= i < |r.waiting| ensures Waiter(r, r.waiting[i]) && Unsatisfied(r, r.waiting[i]) {
      if i < |e.waiting| {
        var u := e.waiting[i];
        assert u in e.waiting;
        assert Waiter(e, u) && Unsatisfied(e, u);
        FewerFlags(e.eventInfo[u], e.eventSet[u], e.flags, want);
      }
    }
  }

  // ----- runs -----

  datatype Op = SendOp(flags: Flags) | RecvOp(t: nat, want: Flags, option: How, wait: bool) | TimeOut(t: nat) | Reset

  ghost predicate Enabled(e: Event, op: Op)
    requires Shape(e)
  {
    match op
    case SendOp(_) => true
    case RecvOp(t, _, option, _) => t < |e.eventSet| && t !in e.waiting && Chosen(option)
    case TimeOut(t) => t in e.waiting
    case Reset => true
  }

  function Step(e: Event, op: Op): Event
    requires Inv(e) && Enabled(e, op)
  {
    match op
    case SendOp(flags) => Send(e, flags).0
    case RecvOp(t, want, option, wait) => Recv(e, t, want, option, wait).0
    case TimeOut(t) => e.(waiting := Remove(e.waiting, t))
    case Reset => e.(waiting := [], flags := {})
  }

  lemma StepKeeps(e: Event, op: Op)
    requires Inv(e) && Enabled(e, op)
    ensures Inv(Step(e, op))
  {
    match op
    case SendOp(flags) => if flags != {} { SendKeeps(e, flags); }
    case RecvOp(t, want, option, wait) => RecvInv(e, t, want, option, wait);
    case TimeOut(t) =>
      RemoveNoDup(e.waiting, t);
      var r := Step(e, op);
      forall i | 0 <= i < |r.waiting| ensures Waiter(r, r.waiting[i]) && Unsatisfied(r, r.waiting[i]) {
        assert r.waiting[i] in e.waiting;
        var k :| 0 <= k < |e.waiting| && e.waiting[k] == r.waiting[i];
        assert Waiter(e, e.waiting[k]) && Unsatisfied(e, e.waiting[k]);
      }
    case Reset =>
  }

  ghost predicate Possible(e: Event, ops: seq<Op>)
    requires Inv(e)
    decreases |ops|
  {
    ops == [] || (Enabled(e, ops[0]) && (StepKeeps(e, ops[0]); Possible(Step(e, ops[0]), ops[1..])))
  }

  function Run(e: Event, ops: seq<Op>): Event
    requires Inv(e) && Possible(e, ops)
    decreases |ops|
  {
    if ops == [] then e
    else
      StepKeeps(e, ops[0]);
      Run(Step(e, ops[0]), ops[1..])
  }

  /** After any history of sends, receives, timeouts and resets, nobody waits for what is there. */
  lemma {:induction false} NoLostWakeUp(threads: nat, ops: seq<Op>)
    requires Inv(Fresh(threads)) && Possible(Fresh(threads), ops)
    ensures Inv(Run(Fresh(threads), ops))
  {
    RunKeeps(Fresh(threads), ops);
  }

  function Fresh(threads: nat): (e: Event)
    ensures Inv(e)
  {
    Event({}, seq(threads, _ => {}), seq(threads, _ => How(false, false, false)), [])
  }

  lemma {:induction false} RunKeeps(e: Event, ops: seq<Op>)
    requires Inv(e) && Possible(e, ops)
    ensures Inv(Run(e, ops))
    decreases |ops|
  {
    if ops != [] {
      StepKeeps(e, ops[0]);
      RunKeeps(Step(e, ops[0]), ops[1..]);
    }
  }

  // ----- the code -----

  /** How far the loop of a send has come: the first `n` threads of `list` stay, those behind are still to be looked at. */
  ghost predicate Midway(e: Event, s: Flags, list: seq<nat>, n: nat, eventSet: seq<Flags>, woken: seq<nat>, clear: Flags) {
    && n <= |list| && Known(e, e.waiting) && Known(e, list) && NoDup(list) && |eventSet| == |e.eventSet|
    && list[..n] + Kept(e, list[n..], s) == Kept(e, e.waiting, s)
    && woken + Woken(e, list[n..], s) == Woken(e, e.waiting, s)
    && clear + Consumed(e, list[n..], s) == Consumed(e, e.waiting, s)
    && (forall t | 0 <= t < |eventSet| :: eventSet[t] == ServedSoFar(e, s, list[n..], t))
    && (forall i | 0 <= i < |list| :: list[i] in e.waiting)
  }

  function ServedSoFar(e: Event, s: Flags, todo: seq<nat>, t: nat): Flags
    requires Known(e, e.waiting) && t < |e.eventSet|
  {
    if t in todo then e.eventSet[t] else Served(e, e.waiting, s)[t]
  }

  lemma MidwayStart(e: Event, s: Flags)
    requires Shape(e)
    ensures Midway(e, s, e.waiting, 0, e.eventSet, [], {})
  {
    forall i | 0 <= i < |e.waiting| ensures e.waiting[i] < |e.eventSet| && e.waiting[i] < |e.eventInfo| {
      assert Waiter(e, e.waiting[i]);
    }
    assert e.waiting[0..] == e.waiting;
  }

  lemma LookAt(e: Event, s: Flags, list: seq<nat>, n: nat)
    requires Known(e, list) && n < |list|
    ensures var t := list[n]; var now, rest := list[n..], list[n + 1..];
      && Kept(e, now, s) == (if Hit(e, t, s) then [] else [t]) + Kept(e, rest, s)
      && Woken(e, now, s) == (if Hit(e, t, s) then [t] else []) + Woken(e, rest, s)
      && Consumed(e, now, s) ==
           (if Hit(e, t, s) && e.eventInfo[t].clear then Received(e.eventInfo[t], e.eventSet[t], s) else {})
             + Consumed(e, rest, s)
  {
    assert list[n..][1..] == list[n + 1..];
  }

  /** The thread at position `n` leaves with what it received. */
  lemma MidwayHit(e: Event, s: Flags, list: seq<nat>, n: nat, eventSet: seq<Flags>, woken: seq<nat>, clear: Flags)
    requires Midway(e, s, list, n, eventSet, woken, clear) && n < |list| && Hit(e, list[n], s)
    ensures list[n] < |eventSet| && list[n] < |e.eventInfo| && eventSet[list[n]] == e.eventSet[list[n]]
    ensures var t := list[n]; var got := Received(e.eventInfo[t], e.eventSet[t], s);
      Midway(e, s, list[..n] + list[n + 1..], n, eventSet[t := got], woken + [t],
        if e.eventInfo[t].clear then clear + got else clear)
  {
    hide NoDup, Served, Kept, Woken, Consumed;
    var t := list[n];
    var rest := list[..n] + list[n + 1..];
    LookAt(e, s, list, n);
    assert rest[n..] == list[n + 1..] && rest[..n] == list[..n];
    Without(list, n);
    forall i | 0 <= i < |rest| ensures rest[i] < |e.eventSet| && rest[i] < |e.eventInfo| && rest[i] in e.waiting {
      assert rest[i] == if i < n then list[i] else list[i + 1];
    }
    ServedNext(e, s, list, n, eventSet, eventSet[t := Received(e.eventInfo[t], e.eventSet[t], s)]);
    assert woken + [t] + Woken(e, list[n + 1..], s) == woken + Woken(e, list[n..], s);
  }

  lemma Without(list: seq<nat>, n: nat)
    requires n < |list| && NoDup(list)
    ensures NoDup(list[..n] + list[n + 1..])
  {
  }

  /** The thread at position `n` stays. */
  lemma MidwayMiss(e: Event, s: Flags, list: seq<nat>, n: nat, eventSet: seq<Flags>, woken: seq<nat>, clear: Flags)
    requires Midway(e, s, list, n, eventSet, woken, clear) && n < |list| && !Hit(e, list[n], s)
    ensures list[n] < |eventSet| && list[n] < |e.eventInfo| && eventSet[list[n]] == e.eventSet[list[n]]
    ensures Midway(e, s, list, n + 1, eventSet, woken, clear)
  {
    hide NoDup, Served, Kept, Woken, Consumed;
    LookAt(e, s, list, n);
    assert list[..n + 1] + Kept(e, list[n + 1..], s) == list[..n] + Kept(e, list[n..], s);
    assert list[n] in list[n..];
    ServedNext(e, s, list, n, eventSet, eventSet);
  }

  lemma KnownAt(e: Event, s: Flags, list: seq<nat>, n: nat, eventSet: seq<Flags>, woken: seq<nat>, clear: Flags)
    requires Midway(e, s, list, n, eventSet, woken, clear) && n < |list|
    ensures list[n] < |e.eventSet| == |eventSet| && list[n] < |e.eventInfo|
  {
  }

  lemma ServedNext(e: Event, s: Flags, list: seq<nat>, n: nat, eventSet: seq<Flags>, after: seq<Flags>)
    requires Known(e, e.waiting) && n < |list| && NoDup(list) && list[n] in e.waiting
    requires list[n] < |e.eventSet| == |eventSet| == |after| && list[n] < |e.eventInfo|
    requires after[list[n]] ==
      if Hit(e, list[n], s) then Received(e.eventInfo[list[n]], e.eventSet[list[n]], s) else e.eventSet[list[n]]
    requires forall t | 0 <= t < |after| && t != list[n] :: after[t] == eventSet[t]
    requires forall t | 0 <= t < |eventSet| :: eventSet[t] == ServedSoFar(e, s, list[n..], t)
    ensures forall t | 0 <= t < |after| :: after[t] == ServedSoFar(e, s, list[n + 1..], t)
  {
    assert list[n..] == [list[n]] + list[n + 1..];
    assert list[n] !in list[n + 1..];
    forall t | 0 <= t < |after| ensures after[t] == ServedSoFar(e, s, list[n + 1..], t) {
      assert t != list[n] ==> (t in list[n..] <==> t in list[n + 1..]);
    }
  }

  lemma MidwayEnd(e: Event, s: Flags, list: seq<nat>, n: nat, eventSet: seq<Flags>, woken: seq<nat>, clear: Flags)
    requires Midway(e, s, list, n, eventSet, woken, clear) && n == |list|
    ensures list == Kept(e, e.waiting, s) && woken == Woken(e, e.waiting, s) && clear == Consumed(e, e.waiting, s)
    ensures eventSet == Served(e, e.waiting, s)
  {
    assert list[n..] == [] && list[..n] == list;
    assert list + [] == list && woken + [] == woken;
  }

  class EventObject {
    var flags: Flags
    var eventSet: seq<Flags>
    var eventInfo: seq<How>
    var suspendThread: seq<nat>

    ghost function State(): Event
      reads this
    {
      Event(flags, eventSet, eventInfo, suspendThread)
    }

    constructor (threads: nat)
      ensures State() == Fresh(threads)
    {
      flags, suspendThread := {}, [];
      eventSet, eventInfo := seq(threads, _ => {}), seq(threads, _ => How(false, false, false));
    }

    /** Whether one waiter's condition holds; if it does, its `event_set` becomes what it has received. */
    method Check(thread: nat) returns (ok: bool)
      requires thread < |eventSet| && thread < |eventInfo|
      modifies this`eventSet
      ensures ok == Satisfied(eventInfo[thread], old(eventSet)[thread], flags)
      ensures eventSet == if ok then old(eventSet)[thread := Received(eventInfo[thread], old(eventSet)[thread], flags)]
                          else old(eventSet)
    {
      ok := false;
      if eventInfo[thread].and {
        ok := eventSet[thread] * flags == eventSet[thread];
      } else if eventInfo[thread].or {
        if eventSet[thread] * flags != {} {
          eventSet := eventSet[thread := eventSet[thread] * flags];
          ok := true;
        }
      }
    }

    /** `rt_event_send` */
    method SendFlags(bits: Flags) returns (status: Status, ghost woken: seq<nat>)
      requires Inv(State())
      modifies this
      ensures (State(), status) == Send(old(State()), bits) && Inv(State())
      ensures bits == {} ==> woken == []
      ensures Known(old(State()), old(suspendThread))
      ensures bits != {} ==> woken == Woken(old(State()), old(suspendThread), old(flags) + bits)
    {
      hide Midway, Kept, Woken, Consumed, Served, NobodyMissed, NoDup;
      ghost var e := State();
      MidwayStart(e, e.flags + bits);
      woken := [];
      if bits == {} {
        return Error, woken;
      }
      SendKeeps(e, bits);
      flags := flags + bits;
      var needClearSet: Flags := {};
      var n: nat := 0;
      while n < |suspendThread|
        invariant flags == e.flags + bits && eventInfo == e.eventInfo && n <= |suspendThread|
        invariant Midway(e, flags, suspendThread, n, eventSet, woken, needClearSet)
        decreases |suspendThread| - n
      {
        var thread := suspendThread[n];
        KnownAt(e, flags, suspendThread, n, eventSet, woken, needClearSet);
        if Hit(e, thread, flags) {
          MidwayHit(e, flags, suspendThread, n, eventSet, woken, needClearSet);
        } else {
          MidwayMiss(e, flags, suspendThread, n, eventSet, woken, needClearSet);
        }
        var ok := Check(thread);
        if ok {
          if eventInfo[thread].clear {
            needClearSet := needClearSet + eventSet[thread];
          }
          suspendThread := suspendThread[..n] + suspendThread[n + 1..];
          woken := woken + [thread];
        } else {
          n := n + 1;
        }
      }
      MidwayEnd(e, flags, suspendThread, n, eventSet, woken, needClearSet);
      assert flags - {} == flags;
      if needClearSet != {} {
        flags := flags - needClearSet;
      }
      return Ok, woken;
    }

    /** `_rt_event_recv` */
    method RecvFlags(thread: nat, want: Flags, option: How, timeout: int) returns (status: Status, recved: Flags)
      requires Inv(State()) && thread < |eventSet| && thread !in suspendThread && Chosen(option)
      modifies this
      ensures (State(), status) == Recv(old(State()), thread, want, option, timeout != 0) && Inv(State())
      ensures status == Ok ==> recved == old(flags) * want
    {
      RecvInv(State(), thread, want, option, timeout != 0);
      recved := {};
      if want == {} {
        return Error, recved;
      }
      var ok := if option.and then flags * want == want else flags * want != {};
      if ok {
        recved := flags * want;
        eventSet := eventSet[thread := flags * want];
        eventInfo := eventInfo[thread := option];
        if option.clear {
          flags := flags - want;
        }
        return Ok, recved;
      } else if timeout == 0 {
        return TimedOut, recved;
      } else {
        eventSet := eventSet[thread := want];
        eventInfo := eventInfo[thread := option];
        suspendThread := suspendThread + [thread];
        return Blocked, recved;
      }
    }
  }
}
