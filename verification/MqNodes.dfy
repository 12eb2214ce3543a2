/** The message queue's node lists: the pointer code of each locked region, proved against the lists it maintains. */
module MqNodes {
  import opened Common
  import opened MessageQueue

  function At(ns: seq<nat>, i: nat): Option<nat> {
    if i < |ns| then Some(ns[i]) else None
  }

  /** Following `next` from `head` visits exactly `ns`. */
  ghost predicate Chain(next: seq<Option<nat>>, head: Option<nat>, ns: seq<nat>) {
    && head == At(ns, 0)
    && forall i | 0 <= i < |ns| :: Leads(next, ns, i)
  }

  ghost predicate Leads(next: seq<Option<nat>>, ns: seq<nat>, i: nat)
    requires i < |ns|
  {
    ns[i] < |next| && next[ns[i]] == At(ns, i + 1)
  }

  /** Two disjoint chains, the first with its last node known. */
  ghost predicate TwoLists(next: seq<Option<nat>>, head: Option<nat>, tail: Option<nat>, queue: seq<nat>,
                           freeHead: Option<nat>, free: seq<nat>) {
    && NoDup(queue) && NoDup(free) && (forall i | 0 <= i < |free| :: free[i] !in queue)
    && Chain(next, head, queue) && Chain(next, freeHead, free)
    && tail == (if queue == [] then None else Some(queue[|queue| - 1]))
  }

  lemma ChainFrame(next: seq<Option<nat>>, head: Option<nat>, ns: seq<nat>, n: nat, x: Option<nat>)
    requires Chain(next, head, ns) && n < |next| && n !in ns
    ensures Chain(next[n := x], head, ns)
  {
    var s := next[n := x];
    forall i | 0 <= i < |ns| ensures Leads(s, ns, i) {
      assert Leads(next, ns, i);
    }
  }

  /** Pointers after linking `n` at position `i`. */
  function Spliced(next: seq<Option<nat>>, ns: seq<nat>, i: nat, n: nat): seq<Option<nat>>
    requires n < |next| && i <= |ns| && (i > 0 ==> ns[i - 1] < |next|)
  {
    var s := next[n := At(ns, i)];
    if i == 0 then s else s[ns[i - 1] := Some(n)]
  }

  lemma ChainSplice(next: seq<Option<nat>>, head: Option<nat>, ns: seq<nat>, i: nat, n: nat)
    requires Chain(next, head, ns) && NoDup(ns) && n < |next| && n !in ns && i <= |ns|
    ensures i > 0 ==> ns[i - 1] < |next|
    ensures Chain(Spliced(next, ns, i, n), if i == 0 then Some(n) else head, ns[..i] + [n] + ns[i..])
  {
    assert i > 0 ==> Leads(next, ns, i - 1);
    var s := Spliced(next, ns, i, n);
    var r := ns[..i] + [n] + ns[i..];
    forall k | 0 <= k < |r| ensures Leads(s, r, k) {
      if k < i {
        assert Leads(next, ns, k) && r[k] == ns[k];
        assert k + 1 < i ==> r[k + 1] == ns[k + 1];
      } else if k > i {
        assert Leads(next, ns, k - 1) && r[k] == ns[k - 1];
        assert k + 1 < |r| ==> r[k + 1] == ns[k];
      } else {
        assert k + 1 < |r| ==> r[k + 1] == ns[k];
      }
    }
  }

  /** A node that is in neither list joins the queue at position `i`. */
  lemma SpliceKeeps(next: seq<Option<nat>>, head: Option<nat>, tail: Option<nat>, queue: seq<nat>,
                    freeHead: Option<nat>, free: seq<nat>, i: nat, n: nat)
    requires TwoLists(next, head, tail, queue, freeHead, free)
    requires n < |next| && n !in queue && n !in free && i <= |queue|
    ensures i > 0 ==> queue[i - 1] < |next|
    ensures TwoLists(Spliced(next, queue, i, n), if i == 0 then Some(n) else head,
                     if i == |queue| then Some(n) else tail, queue[..i] + [n] + queue[i..], freeHead, free)
  {
    ChainSplice(next, head, queue, i, n);
    ChainFrame(next, freeHead, free, n, At(queue, i));
    if i > 0 {
      assert queue[i - 1] !in free;
      ChainFrame(next[n := At(queue, i)], freeHead, free, queue[i - 1], Some(n));
    }
    var r := queue[..i] + [n] + queue[i..];
    assert forall m :: m in r <==> m == n || m in queue[..i] || m in queue[i..];
  }

  lemma PopKeeps(next: seq<Option<nat>>, head: Option<nat>, ns: seq<nat>)
    requires Chain(next, head, ns) && ns != []
    ensures ns[0] < |next| && Chain(next, next[ns[0]], ns[1..])
  {
    assert Leads(next, ns, 0);
    forall i | 0 <= i < |ns[1..]| ensures Leads(next, ns[1..], i) {
      assert Leads(next, ns, i + 1);
    }
  }

  lemma PushKeeps(next: seq<Option<nat>>, head: Option<nat>, ns: seq<nat>, n: nat)
    requires Chain(next, head, ns) && n < |next| && n !in ns
    ensures Chain(next[n := head], Some(n), [n] + ns)
  {
    var r := [n] + ns;
    var s := next[n := head];
    forall i | 0 <= i < |r| ensures Leads(s, r, i) {
      if i > 0 {
        assert Leads(next, ns, i - 1);
      }
    }
  }

  /** The walk may have gone past the first `i` messages. */
  ghost predicate PassedBy(queue: seq<nat>, letter: seq<Letter>, node: nat, prio: int, i: nat) {
    && (forall k | 0 <= k < |queue| :: queue[k] < |letter|) && i <= |queue|
    && Insert(queue, letter, node, prio) == queue[..i] + Insert(queue[i..], letter, node, prio)
  }

  lemma PassNone(queue: seq<nat>, letter: seq<Letter>, node: nat, prio: int)
    requires forall k | 0 <= k < |queue| :: queue[k] < |letter|
    ensures PassedBy(queue, letter, node, prio, 0)
  {
    assert queue[..0] + Insert(queue[0..], letter, node, prio) == Insert(queue, letter, node, prio) by {
      assert queue[0..] == queue;
    }
  }

  lemma PassNext(queue: seq<nat>, letter: seq<Letter>, node: nat, prio: int, i: nat)
    requires PassedBy(queue, letter, node, prio, i) && i < |queue| && letter[queue[i]].prio >= prio
    ensures PassedBy(queue, letter, node, prio, i + 1)
  {
    assert queue[i..][1..] == queue[i + 1..];
    assert queue[..i] + [queue[i]] == queue[..i + 1];
  }

  lemma StopHere(queue: seq<nat>, letter: seq<Letter>, node: nat, prio: int, i: nat)
    requires PassedBy(queue, letter, node, prio, i) && (i < |queue| ==> letter[queue[i]].prio < prio)
    ensures Insert(queue, letter, node, prio) == queue[..i] + [node] + queue[i..]
  {
    assert Insert(queue[i..], letter, node, prio) == [node] + queue[i..];
  }

  function Preceding(ns: seq<nat>, i: nat): Option<nat> {
    if 0 < i <= |ns| then Some(ns[i - 1]) else None
  }

  /** The next pointer of a node in neither list is free to change. */
  lemma ClearedKeeps(next: seq<Option<nat>>, head: Option<nat>, tail: Option<nat>, queue: seq<nat>,
                     freeHead: Option<nat>, free: seq<nat>, n: nat)
    requires TwoLists(next, head, tail, queue, freeHead, free) && n < |next| && n !in queue && n !in free
    ensures TwoLists(next[n := None], head, tail, queue, freeHead, free)
    ensures head == At(queue, 0)
  {
    ChainFrame(next, head, queue, n, None);
    ChainFrame(next, freeHead, free, n, None);
  }

  lemma NextOf(next: seq<Option<nat>>, head: Option<nat>, tail: Option<nat>, queue: seq<nat>,
               freeHead: Option<nat>, free: seq<nat>, i: nat)
    requires TwoLists(next, head, tail, queue, freeHead, free) && i < |queue|
    ensures queue[i] < |next| && next[queue[i]] == At(queue, i + 1)
  {
    assert Leads(next, queue, i);
  }

  /** Linking the node where the walk has stopped. */
  lemma SpliceHere(next: seq<Option<nat>>, head: Option<nat>, tail: Option<nat>, queue: seq<nat>,
                   freeHead: Option<nat>, free: seq<nat>, i: nat, n: nat, letter: seq<Letter>, prio: int)
    requires TwoLists(next, head, tail, queue, freeHead, free)
    requires n < |next| && n !in queue && n !in free && next[n] == None
    requires PassedBy(queue, letter, n, prio, i) && (i < |queue| ==> queue[i] < |letter| && letter[queue[i]].prio < prio)
    ensures i <= |queue| && (i > 0 ==> queue[i - 1] < |next| && queue[i - 1] != n)
    ensures forall k | 0 <= k < |queue| :: queue[k] < |letter|
    ensures TwoLists(Spliced(next, queue, i, n), if i == 0 then Some(n) else head,
                     if i == |queue| then Some(n) else tail, Insert(queue, letter, n, prio), freeHead, free)
  {
    hide NoDup, Insert;
    StopHere(queue, letter, n, prio, i);
    SpliceKeeps(next, head, tail, queue, freeHead, free, i, n);
  }

  class Queue {
    const max: nat
    var next: seq<Option<nat>>
    var letter: seq<Letter>
    var msgQueueHead: Option<nat>
    var msgQueueTail: Option<nat>
    var msgQueueFree: Option<nat>
    var entry: nat
    ghost var queue: seq<nat>
    ghost var free: seq<nat>

    ghost predicate Valid()
      reads this
    {
      && |next| == |letter| == max <= ENTRY_MAX && entry == |queue|
      && TwoLists(next, msgQueueHead, msgQueueTail, queue, msgQueueFree, free)
    }

    /** Neither queued nor free: in the hands of the caller. */
    ghost predicate Out(node: nat)
      reads this
    {
      node < max && node !in queue && node !in free
    }

    /** The part of `rt_mq_init` that builds a pool of `max` nodes. */
    constructor (max: nat)
      requires 0 < max <= ENTRY_MAX
      ensures Valid() && this.max == max && entry == 0 && queue == []
      ensures free == Reverse(seq(max, i requires 0 <= i => i))
    {
      this.max := max;
      next, letter := seq(max, _ => None), seq(max, _ => Letter(0, 0, 0));
      msgQueueHead, msgQueueTail, msgQueueFree, entry := None, None, None, 0;
      queue, free := [], [];
      new;
      var temp := 0;
      while temp < max
        invariant temp <= max == this.max && queue == [] && entry == 0 && Valid()
        invariant forall n :: n in free <==> 0 <= n < temp
        invariant free == Reverse(seq(temp, i requires 0 <= i => i))
      {
        PushKeeps(next, msgQueueFree, free, temp);
        ReverseGrows(temp);
        next := next[temp := msgQueueFree];
        msgQueueFree := Some(temp);
        free := [temp] + free;
        temp := temp + 1;
      }
    }

    /** First locked region of `_rt_mq_send_wait` and `rt_mq_urgent`. */
    method TakeFree() returns (node: Option<nat>)
      requires Valid()
      modifies this
      ensures Valid() && queue == old(queue) && entry == old(entry) && letter == old(letter)
      ensures old(free) == [] ==> node == None && free == []
      ensures old(free) != [] ==> node == Some(old(free)[0]) && free == old(free)[1..] && Out(node.value)
    {
      node := msgQueueFree;
      if node.Some? {
        PopKeeps(next, msgQueueFree, free);
        msgQueueFree := next[node.value];
        free := free[1..];
      }
    }

    /** A node in the caller's hands leaves room in the counter. */
    lemma RoomToCount(node: nat)
      requires Valid() && Out(node)
      ensures entry < max
    {
      forall i | 0 <= i < |queue| ensures queue[i] < max {
        assert Leads(next, queue, i);
      }
      Pigeonhole(queue + [node], max);
    }

    /** Counting the message that has just been linked; false when the counter is at its limit. */
    method CountEntry() returns (ok: bool)
      modifies this`entry
      ensures ok == (old(entry) < ENTRY_MAX) && entry == if ok then old(entry) + 1 else old(entry)
    {
      ok := entry < ENTRY_MAX;
      if ok {
        entry := entry + 1;
      }
    }

    /** Second locked region of a send in the plain build. */
    method LinkTail(node: nat) returns (ok: bool)
      requires Valid() && Out(node)
      modifies this
      ensures Valid() && queue == old(queue) + [node] && free == old(free) && letter == old(letter)
      ensures ok && entry == old(entry) + 1
    {
      RoomToCount(node);
      SpliceKeeps(next, msgQueueHead, msgQueueTail, queue, msgQueueFree, free, |queue|, node);
      assert queue[..|queue|] + [node] + queue[|queue|..] == queue + [node];
      next := next[node := None];
      if msgQueueTail.Some? {
        next := next[msgQueueTail.value := Some(node)];
      }
      msgQueueTail := Some(node);
      if msgQueueHead == None {
        msgQueueHead := Some(node);
      }
      queue := queue + [node];
      ok := CountEntry();
    }

    /** Second locked region of `rt_mq_urgent`. */
    method LinkHead(node: nat) returns (ok: bool)
      requires Valid() && Out(node)
      modifies this
      ensures Valid() && queue == [node] + old(queue) && free == old(free) && letter == old(letter)
      ensures ok && entry == old(entry) + 1
    {
      RoomToCount(node);
      SpliceKeeps(next, msgQueueHead, msgQueueTail, queue, msgQueueFree, free, 0, node);
      assert queue[..0] + [node] + queue[0..] == [node] + queue;
      next := next[node := msgQueueHead];
      msgQueueHead := Some(node);
      if msgQueueTail == None {
        msgQueueTail := Some(node);
      }
      queue := [node] + queue;
      ok := CountEntry();
    }

    /** Second locked region of a send in the priority build. */
    method LinkByPrio(node: nat, prio: int) returns (ok: bool)
      requires Valid() && Out(node)
      modifies this
      ensures Valid() && free == old(free) && letter == old(letter)[node := old(letter)[node].(prio := prio)]
      ensures (forall i | 0 <= i < |old(queue)| :: old(queue)[i] < |old(letter)|)
        && queue == Insert(old(queue), old(letter), node, prio)
      ensures ok && entry == old(entry) + 1
    {
      RoomToCount(node);
      forall i | 0 <= i < |queue| ensures queue[i] < max {
        assert Leads(next, queue, i);
      }
      Walk(node, prio);
      ok := CountEntry();
    }

    /** The loop of the priority build, which links the node; an empty queue gets the node as its head first. */
    method Walk(msg: nat, prio: int)
      requires Valid() && Out(msg) && forall i | 0 <= i < |queue| :: queue[i] < max
      modifies this`next, this`letter, this`msgQueueHead, this`msgQueueTail, this`queue
      ensures letter == old(letter)[msg := old(letter)[msg].(prio := prio)] && |next| == |letter|
      ensures queue == Insert(old(queue), old(letter), msg, prio)
      ensures TwoLists(next, msgQueueHead, msgQueueTail, queue, msgQueueFree, free)
    {
      hide PassedBy, Insert, NoDup, TwoLists;
      ghost var queue0, letter0, head0, tail0 := queue, letter, msgQueueHead, msgQueueTail;
      ClearedKeeps(next, msgQueueHead, msgQueueTail, queue, msgQueueFree, free, msg);
      PassNone(queue, letter, msg, prio);
      next, letter := next[msg := None], letter[msg := letter[msg].(prio := prio)];
      ghost var next0 := next;
      if msgQueueHead == None {
        msgQueueHead := Some(msg);
      }
      var node, prev: Option<nat> := msgQueueHead, None;
      ghost var i := 0;
      while node.Some?
        invariant node == (if queue0 == [] then Some(msg) else At(queue0, i)) && prev == Preceding(queue0, i)
        invariant i == 0 || i < |queue0|
        invariant next == next0 && msgQueueTail == tail0 && queue == queue0
        invariant letter == letter0[msg := letter0[msg].(prio := prio)]
        invariant msgQueueHead == if queue0 == [] then Some(msg) else head0
        invariant PassedBy(queue0, letter0, msg, prio, i)
        decreases |queue0| - i
      {
        if letter[node.value].prio < prio {
          SpliceHere(next0, head0, tail0, queue0, msgQueueFree, free, i, msg, letter0, prio);
          if prev == None {
            msgQueueHead := Some(msg);
          } else {
            next := next[prev.value := Some(msg)];
          }
          next := next[msg := node];
          assert next == Spliced(next0, queue0, i, msg);
          queue := Insert(queue0, letter0, msg, prio);
          break;
        }
        if queue0 != [] {
          NextOf(next0, head0, tail0, queue0, msgQueueFree, free, i);
        }
        if next[node.value] == None {
          if queue0 != [] {
            PassNext(queue0, letter0, msg, prio, i);
          }
          SpliceHere(next0, head0, tail0, queue0, msgQueueFree, free, |queue0|, msg, letter0, prio);
          if node != Some(msg) {
            next := next[node.value := Some(msg)];
          }
          msgQueueTail := Some(msg);
          assert next == Spliced(next0, queue0, |queue0|, msg);
          queue := Insert(queue0, letter0, msg, prio);
          break;
        }
        PassNext(queue0, letter0, msg, prio, i);
        prev, node := node, next[node.value];
        i := i + 1;
      }
    }

    /** First locked region of `_rt_mq_recv`. */
    method Unlink() returns (node: Option<nat>)
      requires Valid()
      modifies this
      ensures Valid() && free == old(free) && letter == old(letter)
      ensures old(entry) == 0 ==> node == None && queue == old(queue) && entry == 0
      ensures old(entry) > 0 ==> old(queue) != [] && node == Some(old(queue)[0]) && queue == old(queue)[1..]
      ensures old(entry) > 0 ==> entry == old(entry) - 1 && Out(node.value)
    {
      if entry == 0 {
        return None;
      }
      node := msgQueueHead;
      PopKeeps(next, msgQueueHead, queue);
      msgQueueHead := next[node.value];
      if msgQueueTail == node {
        msgQueueTail := None;
      }
      entry := entry - 1;
      queue := queue[1..];
    }

    /** Second locked region of `_rt_mq_recv`. */
    method GiveBack(node: nat)
      requires Valid() && Out(node)
      modifies this
      ensures Valid() && free == [node] + old(free) && queue == old(queue) && entry == old(entry) && letter == old(letter)
    {
      PushKeeps(next, msgQueueFree, free, node);
      ChainFrame(next, msgQueueHead, queue, node, msgQueueFree);
      next := next[node := msgQueueFree];
      msgQueueFree := Some(node);
      free := [node] + free;
    }

    /** The lists, whatever the counter says. */
    ghost predicate Linked()
      reads this
    {
      |next| == |letter| == max <= ENTRY_MAX && TwoLists(next, msgQueueHead, msgQueueTail, queue, msgQueueFree, free)
    }

    /** The RT_IPC_CMD_RESET branch of `rt_mq_control`. */
    method Reset()
      requires Valid()
      modifies this
      ensures Valid() && queue == [] && entry == 0 && free == Reverse(old(queue)) + old(free) && letter == old(letter)
    {
      hide TwoLists, Moved, Reverse;
      HeadSays();
      ghost var done: seq<nat> := [];
      MovedStart(queue, free);
      while msgQueueHead.Some?
        invariant Linked() && letter == old(letter) && (msgQueueHead.Some? <==> queue != [])
        invariant Moved(old(queue), old(free), done, queue, free)
        decreases |queue|
      {
        MovedNext(old(queue), old(free), done, queue, free);
        done := done + [queue[0]];
        FreeFirst();
        HeadSays();
      }
      MovedEnd(old(queue), old(free), done, free);
      entry := 0;
    }

    lemma HeadSays()
      requires Linked()
      ensures msgQueueHead.Some? <==> queue != []
    {
      hide NoDup;
    }

    /** The body of the reset loop. */
    method FreeFirst()
      requires Linked() && queue != []
      modifies this
      ensures Linked() && queue == old(queue)[1..] && free == [old(queue)[0]] + old(free) && letter == old(letter)
    {
      var msg := msgQueueHead.value;
      PopKeeps(next, msgQueueHead, queue);
      msgQueueHead := next[msg];
      if msgQueueTail == Some(msg) {
        msgQueueTail := None;
      }
      PushKeeps(next, msgQueueFree, free, msg);
      ChainFrame(next, msgQueueHead, queue[1..], msg, msgQueueFree);
      next := next[msg := msgQueueFree];
      msgQueueFree := Some(msg);
      free := [msg] + free;
      queue := queue[1..];
    }
  }

  /** `rt_mq_init`; null stands for the error it returns when the pool comes to no nodes. */
  method Init(msgSize: nat, poolSize: nat, byPrio: bool) returns (q: Queue?)
    ensures q == null <==> MaxMsgs(msgSize, poolSize, byPrio) == 0
    ensures q != null ==> fresh(q) && q.Valid() && q.max == MaxMsgs(msgSize, poolSize, byPrio) && q.queue == []
    ensures q != null ==> q.free == Reverse(seq(q.max, i requires 0 <= i => i))
  {
    var maxMsgs := poolSize / NodeSize(msgSize, byPrio) % (ENTRY_MAX + 1);
    if maxMsgs == 0 {
      return null;
    }
    q := new Queue(maxMsgs);
  }

  /** Part way through a reset: the messages `done` have gone over to the free list, one on top of the other. */
  ghost predicate Moved(queue0: seq<nat>, free0: seq<nat>, done: seq<nat>, queue: seq<nat>, free: seq<nat>) {
    queue0 == done + queue && free == Reverse(done) + free0
  }

  lemma MovedStart(queue: seq<nat>, free: seq<nat>)
    ensures Moved(queue, free, [], queue, free)
  {
    assert Reverse([]) == [];
  }

  lemma MovedNext(queue0: seq<nat>, free0: seq<nat>, done: seq<nat>, queue: seq<nat>, free: seq<nat>)
    requires Moved(queue0, free0, done, queue, free) && queue != []
    ensures Moved(queue0, free0, done + [queue[0]], queue[1..], [queue[0]] + free)
  {
    hide Reverse;
    ReverseAppend(done, queue[0]);
    assert done + queue == (done + [queue[0]]) + queue[1..];
    assert [queue[0]] + (Reverse(done) + free0) == ([queue[0]] + Reverse(done)) + free0;
  }

  lemma MovedEnd(queue0: seq<nat>, free0: seq<nat>, done: seq<nat>, free: seq<nat>)
    requires Moved(queue0, free0, done, [], free)
    ensures free == Reverse(queue0) + free0
  {
    hide Reverse;
    assert done == queue0;
  }

  lemma {:induction false} ReverseAppend(ns: seq<nat>, n: nat)
    ensures Reverse(ns + [n]) == [n] + Reverse(ns)
  {
    if ns == [] {
    } else {
      assert (ns + [n])[1..] == ns[1..] + [n];
      ReverseAppend(ns[1..], n);
    }
  }

  lemma ReverseGrows(k: nat)
    ensures Reverse(seq(k + 1, i requires 0 <= i => i)) == [k] + Reverse(seq(k, i requires 0 <= i => i))
  {
    ReverseAppend(seq(k, i requires 0 <= i => i), k);
    assert seq(k + 1, i requires 0 <= i => i) == seq(k, i requires 0 <= i => i) + [k];
  }
}
