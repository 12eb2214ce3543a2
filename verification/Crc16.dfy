/**
 The 16-bit CRC with generator x^16 + x^12 + x^5 + 1 (section 2 of ITU-T V.41): its table-driven and its
 bit-serial form, and which errors it cannot miss. `CrcDivision` relates it to polynomial division.

 The word operations have names so that proofs can use their laws without looking at single bits.
 */
module Crc16 {

  // ----- word operations and their laws -----

  function Xor(x: bv16, y: bv16): bv16 {
    x ^ y
  }

  predicate Top(c: bv16) {
    c & 0x8000 != 0
  }

  function Up(c: bv16): bv16 {
    c << 1
  }

  function Up8(c: bv16): bv16 {
    c << 8
  }

  function Low(c: bv16): bv16 {
    c & 0xff
  }

  function High(b: bv8): bv16 {
    (b as bv16) << 8
  }

  function Top8(c: bv16): bv8 {
    (c >> 8) as bv8
  }

  /** The table index: the byte xor the register's high byte. */
  function Index(c: bv16, b: bv8): bv8 {
    b ^ Top8(c)
  }

  lemma XorCommutes(x: bv16, y: bv16)
    ensures Xor(x, y) == Xor(y, x)
  {
  }

  lemma XorCancels(x: bv16, y: bv16, z: bv16)
    requires Xor(x, z) == Xor(y, z)
    ensures x == y
  {
  }

  lemma XorLeft(x: bv16, y: bv16, g: bv16)
    ensures Xor(Xor(x, g), y) == Xor(Xor(x, y), g)
  {
  }

  lemma XorRight(x: bv16, y: bv16, g: bv16)
    ensures Xor(x, Xor(y, g)) == Xor(Xor(x, y), g)
  {
  }

  lemma XorTwice(x: bv16, g: bv16)
    ensures Xor(Xor(x, g), g) == x
  {
  }

  lemma XorBoth(x: bv16, y: bv16, g: bv16)
    ensures Xor(Xor(x, g), Xor(y, g)) == Xor(x, y)
  {
    hide Xor;
    XorRight(Xor(x, g), y, g);
    XorLeft(x, y, g);
    XorTwice(Xor(x, y), g);
  }

  lemma UpXor(x: bv16, y: bv16)
    ensures Up(Xor(x, y)) == Xor(Up(x), Up(y))
  {
  }

  lemma TopXor(x: bv16, y: bv16)
    ensures Top(Xor(x, y)) == (Top(x) != Top(y))
  {
  }

  lemma UpInjective(x: bv16, y: bv16)
    requires Up(x) == Up(y) && Top(x) == Top(y)
    ensures x == y
  {
  }

  lemma GeneratorIsOdd(x: bv16, y: bv16)
    ensures Xor(Up(x), 0x1021) != Up(y)
  {
  }

  lemma Decompose(c: bv16)
    ensures c == Xor(High(Top8(c)), Low(c))
  {
  }

  lemma HighIndex(c: bv16, b: bv8)
    ensures High(Index(c, b)) == Xor(High(Top8(c)), High(b))
  {
  }

  lemma SplitBytes(c: bv16, b: bv8)
    ensures Xor(c, High(b)) == Xor(High(Index(c, b)), Low(c))
  {
    hide Xor, High, Low, Top8, Index;
    Decompose(c);
    HighIndex(c, b);
    XorLeft(High(Top8(c)), High(b), Low(c));
  }

  lemma HighInjective(c: bv16, a: bv8, b: bv8)
    requires Xor(c, High(a)) == Xor(c, High(b))
    ensures a == b
  {
  }

  lemma IndexInjective(c: bv16, a: bv8, b: bv8)
    requires Index(c, a) == Index(c, b)
    ensures a == b
  {
  }

  lemma SameLowByte(c: bv16, e: bv16, b: bv8, e': bv16, b': bv8)
    requires Xor(Xor(Up8(c), e), High(b)) == Xor(Xor(Up8(c), e'), High(b'))
    ensures Low(e) == Low(e')
  {
  }

  // ----- bit-serial -----

  /** One bit position: shift left, and subtract the generator when a one falls out. */
  function Shift(c: bv16): bv16 {
    if Top(c) then Xor(Up(c), 0x1021) else Up(c)
  }

  function Shift2(c: bv16): bv16 {
    Shift(Shift(c))
  }

  function Shift4(c: bv16): bv16 {
    Shift2(Shift2(c))
  }

  function Shift8(c: bv16): bv16 {
    Shift4(Shift4(c))
  }

  function ByteStep(c: bv16, b: bv8): bv16 {
    Shift8(Xor(c, High(b)))
  }

  /** The CRC of a message from any seed, one byte after the other. */
  function Crc(data: seq<bv8>, seed: bv16): bv16 {
    if data == [] then seed else ByteStep(Crc(data[..|data| - 1], seed), data[|data| - 1])
  }

  lemma CrcAppend(data: seq<bv8>, b: bv8, seed: bv16)
    ensures Crc(data + [b], seed) == ByteStep(Crc(data, seed), b)
  {
    hide ByteStep;
    assert (data + [b])[..|data|] == data;
  }

  // ----- shifting is linear -----

  lemma ShiftLinear(x: bv16, y: bv16)
    ensures Shift(Xor(x, y)) == Xor(Shift(x), Shift(y))
  {
    hide Xor, Up, Top;
    UpXor(x, y);
    TopXor(x, y);
    XorLeft(Up(x), Up(y), 0x1021);
    XorRight(Up(x), Up(y), 0x1021);
    XorBoth(Up(x), Up(y), 0x1021);
  }

  lemma Shift2Linear(x: bv16, y: bv16)
    ensures Shift2(Xor(x, y)) == Xor(Shift2(x), Shift2(y))
  {
    hide Xor, Shift;
    ShiftLinear(x, y);
    ShiftLinear(Shift(x), Shift(y));
  }

  lemma Shift4Linear(x: bv16, y: bv16)
    ensures Shift4(Xor(x, y)) == Xor(Shift4(x), Shift4(y))
  {
    hide Xor, Shift2;
    Shift2Linear(x, y);
    Shift2Linear(Shift2(x), Shift2(y));
  }

  lemma Shift8Linear(x: bv16, y: bv16)
    ensures Shift8(Xor(x, y)) == Xor(Shift8(x), Shift8(y))
  {
    hide Xor, Shift4;
    Shift4Linear(x, y);
    Shift4Linear(Shift4(x), Shift4(y));
  }

  // ----- the table -----

  /** What the table holds: the index in the high byte, shifted eight times. */
  function Entry(index: bv8): bv16 {
    Shift8(High(index))
  }

  ghost predicate IsTable(table: seq<bv16>) {
    |table| == 256 && forall i: bv8 :: TableAt(table, i)
  }

  ghost predicate TableAt(table: seq<bv16>, i: bv8)
    requires |table| == 256
  {
    table[i as nat] == Entry(i)
  }

  /** A low byte just moves up. */
  lemma Shift8Low(c: bv16)
    ensures Shift8(Low(c)) == Up8(c)
  {
  }

  /** One look-up does the work of eight shifts. */
  lemma LookUp(c: bv16, b: bv8)
    ensures ByteStep(c, b) == Xor(Up8(c), Entry(Index(c, b)))
  {
    hide Xor, Shift8, High, Index, Low, Up8;
    var i := High(Index(c, b));
    SplitBytes(c, b);
    Shift8Linear(i, Low(c));
    Shift8Low(c);
    XorCommutes(Shift8(i), Up8(c));
  }

  function ShiftBy(c: bv16, n: nat): bv16 {
    if n == 0 then c else Shift(ShiftBy(c, n - 1))
  }

  lemma EightShifts(c: bv16)
    ensures ShiftBy(c, 8) == Shift8(c)
  {
    hide Shift;
    assert ShiftBy(c, 1) == Shift(c);
    assert ShiftBy(c, 2) == Shift2(c);
    assert ShiftBy(c, 4) == Shift4(c);
    assert ShiftBy(c, 6) == Shift2(Shift4(c));
  }

  /** One turn of the inner loop of `make_crc16_table`. */
  method ShiftOnce(crc: bv16) returns (r: bv16)
    ensures r == Shift(crc)
  {
    if crc & 0x8000 != 0 {
      r := (crc << 1) ^ 0x1021;
    } else {
      r := crc << 1;
    }
  }

  /** The inner loop of `make_crc16_table`. */
  method MakeEntry(index: bv8) returns (crc: bv16)
    ensures crc == Entry(index)
  {
    hide Shift, Shift8;
    crc := (index as bv16) << 8;
    EightShifts(High(index));
    var bit := 0;
    while bit < 8
      invariant bit <= 8 && crc == ShiftBy(High(index), bit)
    {
      crc := ShiftOnce(crc);
      bit := bit + 1;
    }
  }

  /** `make_crc16_table` */
  method MakeTable() returns (table: seq<bv16>)
    ensures IsTable(table)
  {
    hide Entry;
    table := [];
    while |table| < 256
      invariant |table| <= 256
      invariant forall i: nat | i < |table| :: table[i] == Entry(i as bv8)
    {
      var entry := MakeEntry(|table| as bv8);
      table := table + [entry];
    }
    forall i: bv8 ensures TableAt(table, i) {
      RoundTrip(i);
    }
  }

  lemma RoundTrip(i: bv8)
    ensures (i as nat) < 256 && (i as nat) as bv8 == i
  {
  }

  /** The loop body of `xmaker_crc16`. */
  method Next(crc: bv16, byte: bv8, table: seq<bv16>) returns (next: bv16)
    requires IsTable(table)
    ensures next == ByteStep(crc, byte)
  {
    hide ByteStep, Entry, Xor, Up8, Index;
    LookUp(crc, byte);
    var index := Index(crc, byte);
    RoundTrip(index);
    assert TableAt(table, index);
    next := Xor(Up8(crc), table[index as nat]);
  }

  /** `xmaker_crc16` */
  method Compute(data: seq<bv8>, seed: bv16, table: seq<bv16>) returns (crc: bv16)
    requires IsTable(table)
    ensures crc == Crc(data, seed)
  {
    hide ByteStep, IsTable;
    crc := seed;
    var i := 0;
    while i < |data|
      invariant i <= |data| && crc == Crc(data[..i], seed)
    {
      assert data[..i + 1] == data[..i] + [data[i]];
      CrcAppend(data[..i], data[i], seed);
      crc := Next(crc, data[i], table);
      i := i + 1;
    }
    assert data[..i] == data;
  }

  // ----- error detection -----

  /** Nothing is lost by shifting, because the generator has a constant term. */
  lemma ShiftInjective(x: bv16, y: bv16)
    requires Shift(x) == Shift(y)
    ensures x == y
  {
    hide Xor, Up, Top;
    if Top(x) && !Top(y) {
      GeneratorIsOdd(x, y);
    } else if !Top(x) && Top(y) {
      GeneratorIsOdd(y, x);
    } else {
      if Top(x) {
        XorCancels(Up(x), Up(y), 0x1021);
      }
      UpInjective(x, y);
    }
  }

  lemma Shift2Injective(x: bv16, y: bv16)
    requires Shift2(x) == Shift2(y)
    ensures x == y
  {
    hide Shift;
    ShiftInjective(Shift(x), Shift(y));
    ShiftInjective(x, y);
  }

  lemma Shift4Injective(x: bv16, y: bv16)
    requires Shift4(x) == Shift4(y)
    ensures x == y
  {
    hide Shift2;
    Shift2Injective(Shift2(x), Shift2(y));
    Shift2Injective(x, y);
  }

  lemma Shift8Injective(x: bv16, y: bv16)
    requires Shift8(x) == Shift8(y)
    ensures x == y
  {
    hide Shift4;
    Shift4Injective(Shift4(x), Shift4(y));
    Shift4Injective(x, y);
  }

  /** Once two computations differ, equal bytes keep them apart. */
  lemma SameByte(c: bv16, d: bv16, b: bv8)
    requires ByteStep(c, b) == ByteStep(d, b)
    ensures c == d
  {
    hide Xor, Shift8, High;
    Shift8Injective(Xor(c, High(b)), Xor(d, High(b)));
    XorCancels(c, d, High(b));
  }

  lemma OneByte(c: bv16, a: bv8, b: bv8)
    requires ByteStep(c, a) == ByteStep(c, b)
    ensures a == b
  {
    hide Xor, Shift8, High;
    Shift8Injective(Xor(c, High(a)), Xor(c, High(b)));
    HighInjective(c, a, b);
  }

  /** The low byte of a table entry determines its index. */
  lemma EntryLow(i: bv8, j: bv8)
    requires Low(Entry(i)) == Low(Entry(j))
    ensures i == j
  {
  }

  /** Two bytes taken in one after the other: the register after them determines both. */
  lemma TwoBytes(c: bv16, a: bv8, b: bv8, a': bv8, b': bv8)
    requires ByteStep(ByteStep(c, a), b) == ByteStep(ByteStep(c, a'), b')
    ensures a == a' && b == b'
  {
    hide Xor, Shift8, High, Entry, Index, Up8, Low;
    Shift8Injective(Xor(ByteStep(c, a), High(b)), Xor(ByteStep(c, a'), High(b')));
    LookUp(c, a);
    LookUp(c, a');
    SameLowByte(c, Entry(Index(c, a)), b, Entry(Index(c, a')), b');
    EntryLow(Index(c, a), Index(c, a'));
    IndexInjective(c, a, a');
    HighInjective(ByteStep(c, a), b, b');
  }

  /** Different registers stay different through any common rest of the message. */
  lemma {:induction false} RestKeepsApart(head: seq<bv8>, head': seq<bv8>, rest: seq<bv8>, seed: bv16)
    requires Crc(head, seed) != Crc(head', seed)
    ensures Crc(head + rest, seed) != Crc(head' + rest, seed)
  {
    hide ByteStep;
    if rest == [] {
      assert head + rest == head && head' + rest == head';
    } else {
      var less, b := rest[..|rest| - 1], rest[|rest| - 1];
      RestKeepsApart(head, head', less, seed);
      assert head + rest == (head + less) + [b] && head' + rest == (head' + less) + [b];
      CrcAppend(head + less, b, seed);
      CrcAppend(head' + less, b, seed);
      if ByteStep(Crc(head + less, seed), b) == ByteStep(Crc(head' + less, seed), b) {
        SameByte(Crc(head + less, seed), Crc(head' + less, seed), b);
      }
    }
  }

  /** Two messages that differ only in one byte never have the same CRC. */
  lemma OneByteDetected(head: seq<bv8>, a: bv8, a': bv8, rest: seq<bv8>, seed: bv16)
    requires a != a'
    ensures Crc(head + [a] + rest, seed) != Crc(head + [a'] + rest, seed)
  {
    hide ByteStep;
    CrcAppend(head, a, seed);
    CrcAppend(head, a', seed);
    if ByteStep(Crc(head, seed), a) == ByteStep(Crc(head, seed), a') {
      OneByte(Crc(head, seed), a, a');
    }
    RestKeepsApart(head + [a], head + [a'], rest, seed);
  }

  /** Nor do two messages that differ only within two neighbouring bytes. */
  lemma TwoBytesDetected(head: seq<bv8>, a: bv8, b: bv8, a': bv8, b': bv8, rest: seq<bv8>, seed: bv16)
    requires a != a' || b != b'
    ensures Crc(head + [a, b] + rest, seed) != Crc(head + [a', b'] + rest, seed)
  {
    hide ByteStep;
    TwoAppended(head, a, b, seed);
    TwoAppended(head, a', b', seed);
    if Crc(head + [a, b], seed) == Crc(head + [a', b'], seed) {
      TwoBytes(Crc(head, seed), a, b, a', b');
    }
    RestKeepsApart(head + [a, b], head + [a', b'], rest, seed);
  }

  lemma TwoAppended(head: seq<bv8>, a: bv8, b: bv8, seed: bv16)
    ensures Crc(head + [a, b], seed) == ByteStep(ByteStep(Crc(head, seed), a), b)
  {
    hide ByteStep;
    assert head + [a, b] == head + [a] + [b];
    CrcAppend(head, a, seed);
    CrcAppend(head + [a], b, seed);
  }
}
