/** The bitmap over the ready queues of the single-core scheduler, in its one- and two-level forms. */
module ReadyIndex {
  import Ffs

  /** Words as the sets of their one bits: a 32-bit group word, and for more than 32 priorities 32 bytes below it. */
  datatype Index = OneLevel(group: set<nat>) | TwoLevel(group: set<nat>, table: seq<set<nat>>)

  ghost predicate Within(bits: set<nat>, width: nat) {
    forall p | p in bits :: p < width
  }

  /** In the two-level form a group bit says that the byte below it has a one. */
  ghost predicate WellFormed(x: Index) {
    && Within(x.group, 32)
    && (x.TwoLevel? ==>
          && |x.table| == 32
          && forall g: nat | g < 32 :: Within(x.table[g], 8) && (g in x.group <==> x.table[g] != {}))
  }

  /** Whether the priority's own bit is set. */
  predicate Marked(x: Index, p: nat)
    requires x.TwoLevel? ==> |x.table| == 32
  {
    match x
    case OneLevel(group) => p in group
    case TwoLevel(_, table) => p / 8 < 32 && p % 8 in table[p / 8]
  }

  /** The end of `rt_sched_insert_thread`. */
  function Mark(x: Index, p: nat): Index
    requires x.TwoLevel? ==> |x.table| == 32 && p / 8 < 32
  {
    match x
    case OneLevel(group) => OneLevel(group + {p})
    case TwoLevel(group, table) => TwoLevel(group + {p / 8}, table[p / 8 := table[p / 8] + {p % 8}])
  }

  /** The end of `rt_sched_remove_thread`: the group bit goes with the last bit below it. */
  function Unmark(x: Index, p: nat): Index
    requires x.TwoLevel? ==> |x.table| == 32 && p / 8 < 32
  {
    match x
    case OneLevel(group) => OneLevel(group - {p})
    case TwoLevel(group, table) =>
      var byte := table[p / 8] - {p % 8};
      TwoLevel(if byte == {} then group - {p / 8} else group, table[p / 8 := byte])
  }

  function Empty(wide: bool): (x: Index)
    ensures WellFormed(x) && forall p: nat :: !Marked(x, p)
  {
    if wide then TwoLevel({}, seq(32, _ => {})) else OneLevel({})
  }

  lemma MarkKeeps(x: Index, p: nat)
    requires WellFormed(x) && p < (if x.TwoLevel? then 256 else 32)
    ensures WellFormed(Mark(x, p))
    ensures forall q: nat :: Marked(Mark(x, p), q) <==> q == p || Marked(x, q)
  {
    forall q: nat ensures q / 8 == p / 8 && q % 8 == p % 8 ==> q == p {
      assert q == 8 * (q / 8) + q % 8 && p == 8 * (p / 8) + p % 8;
    }
  }

  lemma UnmarkKeeps(x: Index, p: nat)
    requires WellFormed(x) && p < (if x.TwoLevel? then 256 else 32)
    ensures WellFormed(Unmark(x, p))
    ensures forall q: nat :: Marked(Unmark(x, p), q) <==> q != p && Marked(x, q)
  {
    forall q: nat ensures q / 8 == p / 8 && q % 8 == p % 8 ==> q == p {
      assert q == 8 * (q / 8) + q % 8 && p == 8 * (p / 8) + p % 8;
    }
  }

  // ----- the lookup -----

  function GroupWord(bits: set<nat>): (n: nat)
    ensures n < 0x1_0000_0000
  {
    Ffs.WordBound(bits, 0, 32);
    Ffs.Word(bits, 0, 32)
  }

  function TableByte(bits: set<nat>): (n: nat)
    ensures n < 0x1_0000_0000
  {
    Ffs.WordBound(bits, 0, 8);
    Ffs.Word(bits, 0, 8)
  }

  /** `_scheduler_get_highest_priority_thread`: the priority it comes to, with `__rt_ffs` on the words themselves. */
  function Find(x: Index): int
    requires x.TwoLevel? ==> |x.table| == 32
  {
    var number := Ffs.FindFirstSet(GroupWord(x.group)) - 1;
    if x.OneLevel? then number
    else if 0 <= number < 32 then 8 * number + Ffs.FindFirstSet(TableByte(x.table[number])) - 1
    else -1
  }

  ghost predicate IsLeast(p: int, bits: set<nat>) {
    0 <= p && p in bits && forall q | q in bits :: p <= q
  }

  lemma FfsOfGroup(bits: set<nat>)
    requires Within(bits, 32)
    ensures bits == {} <==> GroupWord(bits) == 0
    ensures bits != {} ==> IsLeast(Ffs.FindFirstSet(GroupWord(bits)) - 1, bits)
  {
    hide Ffs.FindFirstSet, Ffs.Low;
    Ffs.LowestOfWord(bits, 0, 32);
    Ffs.FindsFirst(GroupWord(bits));
    if bits != {} {
      var p :| p in bits;
    }
  }

  lemma FfsOfByte(bits: set<nat>)
    requires Within(bits, 8) && bits != {}
    ensures IsLeast(Ffs.FindFirstSet(TableByte(bits)) - 1, bits)
  {
    hide Ffs.FindFirstSet, Ffs.Low;
    Ffs.LowestOfWord(bits, 0, 8);
    Ffs.FindsFirst(TableByte(bits));
    var p :| p in bits;
  }

  /** The lookup finds the least marked priority, in both forms. */
  lemma FindsLeast(x: Index)
    requires WellFormed(x) && x.group != {}
    ensures var p := Find(x); 0 <= p && Marked(x, p) && forall q: nat | Marked(x, q) :: p <= q
  {
    hide Ffs.FindFirstSet, GroupWord, TableByte;
    FfsOfGroup(x.group);
    if x.TwoLevel? {
      var number := Ffs.FindFirstSet(GroupWord(x.group)) - 1;
      FfsOfByte(x.table[number]);
      var p := Find(x);
      assert p / 8 == number && p % 8 == p - 8 * number;
      forall q: nat | Marked(x, q) ensures p <= q {
        assert q / 8 in x.group;
      }
    }
  }

  /** The group word is zero exactly when no priority is marked. */
  lemma GroupSaysAll(x: Index)
    requires WellFormed(x)
    ensures x.group == {} <==> forall p: nat :: !Marked(x, p)
  {
    if x.group != {} {
      var g :| g in x.group;
      if x.TwoLevel? {
        var b :| b in x.table[g];
        assert (8 * g + b) / 8 == g && (8 * g + b) % 8 == b;
        assert Marked(x, 8 * g + b);
      } else {
        assert Marked(x, g);
      }
    }
  }

  // ----- against a linear scan -----

  /** Looking at one queue after the other, from the most urgent on. */
  function Scan(queues: seq<seq<nat>>, p: nat): (r: nat)
    requires p <= |queues|
    ensures p <= r <= |queues| && (r < |queues| ==> queues[r] != [])
    ensures forall q | p <= q < r :: queues[q] == []
    decreases |queues| - p
  {
    if p == |queues| || queues[p] != [] then p else Scan(queues, p + 1)
  }

  /** A priority is marked exactly when its queue has someone in it. */
  ghost predicate Agrees(x: Index, queues: seq<seq<nat>>) {
    && WellFormed(x) && |queues| <= (if x.TwoLevel? then 256 else 32)
    && (forall p: nat | p < |queues| :: Marked(x, p) <==> queues[p] != [])
    && (forall p: nat | Marked(x, p) :: p < |queues|)
  }

  /** With anybody ready at all, the bitmap lookup and the linear scan come to the same queue. */
  lemma LookupIsScan(x: Index, queues: seq<seq<nat>>)
    requires Agrees(x, queues)
    ensures x.group == {} <==> Scan(queues, 0) == |queues|
    ensures x.group != {} ==> Find(x) == Scan(queues, 0)
  {
    hide Find;
    GroupSaysAll(x);
    var r := Scan(queues, 0);
    if x.group != {} {
      FindsLeast(x);
      var p := Find(x);
      assert p < |queues| && queues[p] != [];
      assert p <= r;
    }
  }
}
