/** Finding the first set bit, in both forms the kernel has, and what it means for a ready bitmap. */
module Ffs {

  /** Position of the lowest one among the binary digits of `n`. */
  function Low(n: nat): (k: nat)
    requires n > 0
    decreases n
  {
    if n % 2 == 1 then 0 else 1 + Low(n / 2)
  }

  // ----- the table of 256 entries -----

  /** One line of `__lowest_bit_bitmap`: 16 entries, all lines being alike except for the first entry. */
  function Line(first: nat): (r: seq<nat>)
    ensures |r| == 16
  {
    [first, 0, 1, 0, 2, 0, 1, 0, 3, 0, 1, 0, 2, 0, 1, 0]
  }

  const FIRSTS: seq<nat> := [0, 4, 5, 4, 6, 4, 5, 4, 7, 4, 5, 4, 6, 4, 5, 4]

  function LowestBit(index: nat): nat
    requires index < 256
  {
    Line(FIRSTS[index / 16])[index % 16]
  }

  lemma LowSmall(c: nat)
    requires 0 < c < 16
    ensures Low(c) == Line(0)[c]
  {
    assert Low(1) == 0;
    assert Low(2) == 1;
    assert Low(4) == 1 + Low(2);
    assert Low(8) == 1 + Low(4);
    assert Low(6) == 1 + Low(3);
    assert Low(10) == 1 + Low(5);
    assert Low(12) == 1 + Low(6);
    assert Low(14) == 1 + Low(7);
  }

  /** Four zero digits at the end. */
  lemma LowTimes16(r: nat)
    requires r > 0
    ensures Low(16 * r) == 4 + Low(r)
  {
    assert 16 * r / 2 == 8 * r && 8 * r / 2 == 4 * r && 4 * r / 2 == 2 * r && 2 * r / 2 == r;
    assert Low(16 * r) == 1 + Low(8 * r);
    assert Low(8 * r) == 1 + Low(4 * r);
    assert Low(4 * r) == 1 + Low(2 * r);
    assert Low(2 * r) == 1 + Low(r);
  }

  lemma LowDigit(m: nat)
    ensures Low(2 * m + 1) == 0
    ensures m > 0 ==> Low(2 * m) == 1 + Low(m)
  {
    assert (2 * m + 1) % 2 == 1 && (2 * m) % 2 == 0 && 2 * m / 2 == m;
  }

  lemma LowPlus4(r: nat, c: nat)
    requires 0 < c < 4
    ensures Low(4 * r + c) == Low(c)
  {
    hide Low;
    if c == 2 {
      LowDigit(2 * r + 1);
      LowDigit(r);
      LowDigit(1);
      LowDigit(0);
    } else {
      LowDigit(2 * r + c / 2);
      LowDigit(c / 2);
    }
  }

  lemma LowPlus8(r: nat, c: nat)
    requires 0 < c < 8
    ensures Low(8 * r + c) == Low(c)
  {
    hide Low;
    LowDigit(4 * r + c / 2);
    LowDigit(c / 2);
    if c % 2 == 0 {
      LowPlus4(r, c / 2);
    }
  }

  /** Higher digits do not matter once a lower one is set. */
  lemma LowPlus16(r: nat, c: nat)
    requires 0 < c < 16
    ensures Low(16 * r + c) == Low(c)
  {
    hide Low;
    LowDigit(8 * r + c / 2);
    LowDigit(c / 2);
    if c % 2 == 0 {
      LowPlus8(r, c / 2);
    }
  }

  lemma FirstEntries(r: nat)
    requires 0 < r < 16
    ensures FIRSTS[r] == 4 + Line(0)[r]
  {
  }

  lemma TableIsLow(index: nat)
    requires 0 < index < 256
    ensures LowestBit(index) == Low(index)
  {
    hide Low;
    var r, c := index / 16, index % 16;
    assert index == 16 * r + c;
    if c == 0 {
      LowTimes16(r);
      LowSmall(r);
      FirstEntries(r);
      LineStarts(FIRSTS[r]);
    } else {
      LowPlus16(r, c);
      LowSmall(c);
      LineRest(FIRSTS[r], c);
    }
  }

  lemma LineStarts(first: nat)
    ensures Line(first)[0] == first
  {
  }

  lemma LineRest(first: nat, c: nat)
    requires 0 < c < 16
    ensures Line(first)[c] == Line(0)[c]
  {
  }

  lemma LowTimes256(q: nat)
    requires q > 0
    ensures Low(256 * q) == 8 + Low(q)
  {
    LowTimes16(16 * q);
    LowTimes16(q);
  }

  lemma LowPlus256(q: nat, r: nat)
    requires 0 < r < 256
    ensures Low(256 * q + r) == Low(r)
  {
    var h, c := r / 16, r % 16;
    assert r == 16 * h + c && 256 * q + r == 16 * (16 * q + h) + c;
    if c == 0 {
      LowTimes16(16 * q + h);
      LowTimes16(h);
      LowPlus16(q, h);
    } else {
      LowPlus16(16 * q + h, c);
      LowPlus16(h, c);
    }
  }

  /** `__rt_ffs` with the 256-entry table, on the value as an unsigned 32-bit number. */
  function FindFirstSet(value: nat): (r: nat)
    requires value < 0x1_0000_0000
  {
    if value == 0 then 0
    else if value % 256 != 0 then LowestBit(value % 256) + 1
    else if value / 256 % 256 != 0 then LowestBit(value / 256 % 256) + 9
    else if value / 65536 % 256 != 0 then LowestBit(value / 65536 % 256) + 17
    else LowestBit(value / 16777216 % 256) + 25
  }

  /** It returns one more than the position of the lowest set bit, and zero for zero. */
  lemma FindsFirst(value: nat)
    requires value < 0x1_0000_0000
    ensures FindFirstSet(value) == if value == 0 then 0 else Low(value) + 1
  {
    hide Low, LowestBit;
    if value == 0 {
    } else {
      var a := value / 256;
      var b := a / 256;
      var c := b / 256;
      Bytes(value);
      if value % 256 != 0 {
        LowPlus256(a, value % 256);
        TableIsLow(value % 256);
      } else {
        LowTimes256(a);
        if a % 256 != 0 {
          LowPlus256(b, a % 256);
          TableIsLow(a % 256);
        } else {
          LowTimes256(b);
          if b % 256 != 0 {
            LowPlus256(c, b % 256);
            TableIsLow(b % 256);
          } else {
            LowTimes256(c);
            TableIsLow(c);
          }
        }
      }
    }
  }

  lemma Bytes(value: nat)
    requires value < 0x1_0000_0000
    ensures var a := value / 256; var b := a / 256; var c := b / 256;
      && value == 256 * a + value % 256 && a == 256 * b + a % 256 && b == 256 * c + b % 256
      && value / 65536 == b && value / 16777216 == c && c < 256 && c % 256 == c
  {
  }

  // ----- the table of 37 entries -----

  /** The lines of the small table; its last three entries do not exist and are never looked up. */
  function TinyLine(l: nat): (r: seq<nat>)
    ensures |r| == 8
  {
    if l == 0 then [0, 1, 2, 27, 3, 24, 28, 32]
    else if l == 1 then [4, 17, 25, 31, 29, 12, 32, 14]
    else if l == 2 then [5, 8, 18, 32, 26, 23, 32, 16]
    else if l == 3 then [30, 11, 13, 7, 32, 22, 15, 10]
    else [6, 21, 9, 20, 19, 0, 0, 0]
  }

  function Tiny(index: nat): nat {
    TinyLine(index / 8)[index % 8]
  }

  function Isolate(v: bv32): bv32 {
    (v & (v - 1)) ^ v
  }

  /** `__rt_ffs` in its tiny form: the lowest one alone, modulo 37. */
  function TinyFindFirstSet(v: bv32): nat {
    Tiny((Isolate(v) as nat) % 37)
  }

  function Power(k: nat): nat {
    if k == 0 then 1 else 2 * Power(k - 1)
  }

  /** `m` has a single one, and it is the lowest of `v`. */
  predicate IsLowestOne(v: bv32, m: bv32) {
    m & (m - 1) == 0 && v & m != 0 && v & (m - 1) == 0
  }

  lemma IsolateLowest(v: bv32, m: bv32)
    requires IsLowestOne(v, m)
    ensures Isolate(v) == m
  {
  }

  lemma TinyStep0Low(r: nat)
    requires 0 <= r < 4 && 1 <= Tiny(r) <= 31
    ensures Tiny(2 * r % 37) == Tiny(r) + 1
  {
    assert r in {0, 1, 2, 3};
  }

  lemma TinyStep0High(r: nat)
    requires 4 <= r < 8 && 1 <= Tiny(r) <= 31
    ensures Tiny(2 * r % 37) == Tiny(r) + 1
  {
    assert r in {4, 5, 6, 7};
  }

  lemma TinyStep1Low(r: nat)
    requires 8 <= r < 12 && 1 <= Tiny(r) <= 31
    ensures Tiny(2 * r % 37) == Tiny(r) + 1
  {
    assert r in {8, 9, 10, 11};
  }

  lemma TinyStep1High(r: nat)
    requires 12 <= r < 16 && 1 <= Tiny(r) <= 31
    ensures Tiny(2 * r % 37) == Tiny(r) + 1
  {
    assert r in {12, 13, 14, 15};
  }

  lemma TinyStep2Low(r: nat)
    requires 16 <= r < 20 && 1 <= Tiny(r) <= 31
    ensures Tiny(2 * r % 37) == Tiny(r) + 1
  {
    assert r in {16, 17, 18, 19};
  }

  lemma TinyStep2High(r: nat)
    requires 20 <= r < 24 && 1 <= Tiny(r) <= 31
    ensures Tiny(2 * r % 37) == Tiny(r) + 1
  {
    assert r in {20, 21, 22, 23};
  }

  lemma TinyStep3Low(r: nat)
    requires 24 <= r < 28 && 1 <= Tiny(r) <= 31
    ensures Tiny(2 * r % 37) == Tiny(r) + 1
  {
    assert r in {24, 25, 26, 27};
  }

  lemma TinyStep3High(r: nat)
    requires 28 <= r < 32 && 1 <= Tiny(r) <= 31
    ensures Tiny(2 * r % 37) == Tiny(r) + 1
  {
    assert r in {28, 29, 30, 31};
  }

  lemma TinyStep4Low(r: nat)
    requires 32 <= r < 34 && 1 <= Tiny(r) <= 31
    ensures Tiny(2 * r % 37) == Tiny(r) + 1
  {
    assert r in {32, 33};
  }

  lemma TinyStep4High(r: nat)
    requires 34 <= r < 37 && 1 <= Tiny(r) <= 31
    ensures Tiny(2 * r % 37) == Tiny(r) + 1
  {
    assert r in {34, 35, 36};
  }

  /** In the table, doubling modulo 37 is stepping to the next position. */
  lemma TinyStep(r: nat)
    requires r < 37 && 1 <= Tiny(r) <= 31
    ensures Tiny(2 * r % 37) == Tiny(r) + 1
  {
    hide Tiny;
    if r < 4 { TinyStep0Low(r); }
    else if r < 8 { TinyStep0High(r); }
    else if r < 12 { TinyStep1Low(r); }
    else if r < 16 { TinyStep1High(r); }
    else if r < 20 { TinyStep2Low(r); }
    else if r < 24 { TinyStep2High(r); }
    else if r < 28 { TinyStep3Low(r); }
    else if r < 32 { TinyStep3High(r); }
    else if r < 34 { TinyStep4Low(r); }
    else { TinyStep4High(r); }
  }

  lemma DoubleModulo(p: nat)
    ensures (2 * p) % 37 == 2 * (p % 37) % 37
  {
    var q, r := p / 37, p % 37;
    assert p == 37 * q + r;
    if 2 * r < 37 {
      RemainderIs(2 * p, 2 * q, 2 * r);
      RemainderIs(2 * r, 0, 2 * r);
    } else {
      RemainderIs(2 * p, 2 * q + 1, 2 * r - 37);
      RemainderIs(2 * r, 1, 2 * r - 37);
    }
  }

  lemma RemainderIs(n: nat, q: nat, r: nat)
    requires n == 37 * q + r && r < 37
    ensures n % 37 == r
  {
  }

  lemma PowerModulo(k: nat)
    ensures Power(k + 1) % 37 == 2 * (Power(k) % 37) % 37
  {
    DoubleModulo(Power(k));
  }

  lemma TinyStart()
    ensures Tiny(Power(0) % 37) == 1
  {
  }

  /** The 32 powers of two fall on different entries. */
  lemma {:induction false} TinyOfPower(k: nat)
    requires k < 32
    ensures Tiny(Power(k) % 37) == k + 1
  {
    hide Tiny;
    if k == 0 {
      TinyStart();
    } else {
      TinyOfPower(k - 1);
      PowerModulo(k - 1);
      TinyStep(Power(k - 1) % 37);
    }
  }

  lemma {:induction false} PowerSquare(a: nat)
    ensures Power(2 * a) == Power(a) * Power(a)
  {
    if a > 0 {
      PowerSquare(a - 1);
      var p := Power(a - 1);
      assert Power(2 * a) == 2 * Power(2 * a - 1) == 4 * Power(2 * (a - 1));
      assert (2 * p) * (2 * p) == 4 * (p * p);
    }
  }

  lemma {:induction false} PowerGrows(k: nat, n: nat)
    requires k <= n
    ensures Power(k) <= Power(n)
    decreases n - k
  {
    if k < n {
      PowerGrows(k + 1, n);
    }
  }

  lemma PowerOf32()
    ensures Power(32) == 0x1_0000_0000
  {
    hide Power;
    assert Power(1) == 2 by {
      PowerOfOne();
    }
    PowerSquare(1);
    PowerSquare(2);
    PowerSquare(4);
    PowerSquare(8);
    PowerSquare(16);
  }

  lemma PowerOfOne()
    ensures Power(1) == 2
  {
    assert Power(0) == 1;
  }

  lemma WordHas32Bits(k: nat)
    requires Power(k) < 0x1_0000_0000
    ensures k < 32
  {
    hide Power;
    PowerOf32();
    if k >= 32 {
      PowerGrows(32, k);
    }
  }

  lemma NextOne(v: bv32, m: bv32)
    requires m != 0 && m & (m - 1) == 0 && v & (m - 1) == 0 && v & m == 0 && v != 0
    ensures m < 0x8000_0000 && m << 1 != 0
    ensures (m << 1) & ((m << 1) - 1) == 0 && v & ((m << 1) - 1) == 0
  {
  }

  lemma Doubled(m: bv32)
    requires m < 0x8000_0000
    ensures (m << 1) as nat == 2 * (m as nat)
  {
  }

  /** The lowest one of `v`, searched upwards from `m`. */
  lemma {:induction false} SearchOne(v: bv32, m: bv32, k: nat) returns (m': bv32, k': nat)
    requires v != 0 && m != 0 && m & (m - 1) == 0 && v & (m - 1) == 0 && m as nat == Power(k)
    ensures IsLowestOne(v, m') && m' as nat == Power(k')
    decreases 0x1_0000_0000 - (m as nat)
  {
    if v & m != 0 {
      m', k' := m, k;
    } else {
      NextOne(v, m);
      Doubled(m);
      m', k' := SearchOne(v, m << 1, k + 1);
    }
  }

  lemma TinyOfNonZero(v: bv32) returns (m: bv32)
    requires v != 0
    ensures IsLowestOne(v, m) && TinyFindFirstSet(v) > 0 && m as nat == Power(TinyFindFirstSet(v) - 1)
  {
    var k;
    m, k := SearchOne(v, 1, 0);
    IsolateLowest(v, m);
    WordHas32Bits(k);
    TinyOfPower(k);
  }

  lemma IsolateZero()
    ensures Isolate(0) == 0
  {
  }

  /** The tiny form returns one more than the position of the lowest one of every word, and zero for zero. */
  lemma TinyFindsFirst(v: bv32)
    ensures v == 0 ==> TinyFindFirstSet(v) == 0
    ensures v != 0 ==> TinyFindFirstSet(v) > 0
    ensures v != 0 ==> exists m: bv32 :: IsLowestOne(v, m) && m as nat == Power(TinyFindFirstSet(v) - 1)
  {
    hide Isolate, IsLowestOne, Power;
    if v == 0 {
      IsolateZero();
    } else {
      var _ := TinyOfNonZero(v);
    }
  }

  // ----- bitmaps -----

  /** The word whose ones are at the given positions, from position `from` on. */
  function Word(bits: set<nat>, from: nat, width: nat): (n: nat)
    requires from <= width
    decreases width - from
  {
    if from == width then 0 else (if from in bits then 1 else 0) + 2 * Word(bits, from + 1, width)
  }

  lemma {:induction false} WordBound(bits: set<nat>, from: nat, width: nat)
    requires from <= width <= 32
    ensures Word(bits, from, width) < Power(width - from) <= 0x1_0000_0000
    decreases width - from
  {
    if from < width {
      WordBound(bits, from + 1, width);
    }
    PowerGrows(width - from, 32);
    PowerOf32();
  }

  /** The lowest set bit of a word is the least member of the set it stands for. */
  lemma {:induction false} LowestOfWord(bits: set<nat>, from: nat, width: nat)
    requires from <= width
    ensures Word(bits, from, width) == 0 <==> forall p | p in bits :: !(from <= p < width)
    ensures var n := Word(bits, from, width);
      n > 0 ==> from + Low(n) < width && from + Low(n) in bits && forall p | p in bits && from <= p < width :: from + Low(n) <= p
    decreases width - from
  {
    hide Low;
    if from < width {
      LowestOfWord(bits, from + 1, width);
      LowDigit(Word(bits, from + 1, width));
    }
  }
}
