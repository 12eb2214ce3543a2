/**
 The CRC as the remainder of a polynomial division over GF(2). A polynomial is the set of the exponents of its
 terms; adding is symmetric difference.
 */
module CrcDivision {
  import opened Crc16

  type Poly = set<nat>

  function Add(p: Poly, q: Poly): (r: Poly)
    ensures forall e :: e in r <==> (e in p) != (e in q)
  {
    (p - q) + (q - p)
  }

  function TimesX(p: Poly, k: nat): (r: Poly)
    ensures forall e :: e in r <==> e >= k && e - k in p
  {
    var r := set e | e in p :: e + k;
    assert forall e | e >= k && e - k in p :: e - k in p && e in r;
    r
  }

  /** Times x^16 + x^12 + x^5 + 1. */
  function TimesG(q: Poly): Poly {
    Add(Add(TimesX(q, 16), TimesX(q, 12)), Add(TimesX(q, 5), q))
  }

  // ----- registers and messages as polynomials -----

  function Mask(i: nat): bv16
    requires i < 16
  {
    if i == 0 then 0x0001 else if i == 1 then 0x0002 else if i == 2 then 0x0004 else if i == 3 then 0x0008
    else if i == 4 then 0x0010 else if i == 5 then 0x0020 else if i == 6 then 0x0040 else if i == 7 then 0x0080
    else if i == 8 then 0x0100 else if i == 9 then 0x0200 else if i == 10 then 0x0400 else if i == 11 then 0x0800
    else if i == 12 then 0x1000 else if i == 13 then 0x2000 else if i == 14 then 0x4000 else 0x8000
  }

  function And(c: bv16, m: bv16): bv16 {
    c & m
  }

  predicate Hit(c: bv16, m: bv16) {
    And(c, m) != 0
  }

  predicate Bit(c: bv16, i: nat)
    requires i < 16
  {
    Hit(c, Mask(i))
  }

  function Bits(c: bv16): (p: Poly)
    ensures forall e :: e in p <==> e < 16 && Bit(c, e)
  {
    set e: nat | e < 16 && Bit(c, e)
  }

  /** A bit string, first bit first, as a polynomial: the last bit is the constant term. */
  function Message(bits: seq<bool>): Poly {
    if bits == [] then {} else Add(TimesX(Message(bits[..|bits| - 1]), 1), Term(bits[|bits| - 1], 0))
  }

  function Term(present: bool, e: nat): Poly {
    if present then {e} else {}
  }

  // ----- taking bits in -----

  function BitStep(c: bv16, bit: bool): bv16 {
    Shift(if bit then Xor(c, 0x8000) else c)
  }

  function Feed(seed: bv16, bits: seq<bool>): bv16 {
    if bits == [] then seed else BitStep(Feed(seed, bits[..|bits| - 1]), bits[|bits| - 1])
  }

  /** The quotient's digits are the bits that fall out of the register. */
  function Quotient(seed: bv16, bits: seq<bool>): Poly {
    if bits == [] then {}
    else
      var less := bits[..|bits| - 1];
      Add(TimesX(Quotient(seed, less), 1), Term(Top(Feed(seed, less)) != bits[|bits| - 1], 0))
  }

  lemma BitXor(c: bv16, d: bv16, i: nat)
    requires i < 16
    ensures Bit(Xor(c, d), i) == (Bit(c, i) != Bit(d, i))
  {
    hide Mask, Single, Hit, Xor;
    MaskSingle(i);
    XorHit(c, d, Mask(i));
  }

  predicate Single(m: bv16) {
    m in {0x0001, 0x0002, 0x0004, 0x0008, 0x0010, 0x0020, 0x0040, 0x0080,
          0x0100, 0x0200, 0x0400, 0x0800, 0x1000, 0x2000, 0x4000, 0x8000}
  }

  lemma MaskSingle(i: nat)
    requires i < 16
    ensures Single(Mask(i))
  {
  }

  lemma XorHit(c: bv16, d: bv16, m: bv16)
    requires Single(m)
    ensures Hit(Xor(c, d), m) == (Hit(c, m) != Hit(d, m))
  {
    hide Single, And, Xor;
    XorMasked(c, d, m);
    AllOrNothing(c, m);
    AllOrNothing(d, m);
    XorCases(And(c, m), And(d, m), m);
  }

  lemma XorMasked(c: bv16, d: bv16, m: bv16)
    ensures And(Xor(c, d), m) == Xor(And(c, m), And(d, m))
  {
  }

  lemma AllOrNothing(c: bv16, m: bv16)
    requires Single(m)
    ensures And(c, m) == 0 || And(c, m) == m
  {
  }

  lemma XorCases(x: bv16, y: bv16, m: bv16)
    requires (x == 0 || x == m) && (y == 0 || y == m)
    ensures (Xor(x, y) != 0) == ((x != 0) != (y != 0))
  {
    hide Xor;
    XorZero(x);
    XorZero(y);
    XorCommutes(x, y);
    XorTwice(0, m);
    XorCommutes(0, m);
    XorZero(m);
  }

  lemma BitUp(c: bv16, i: nat)
    requires i < 15
    ensures Bit(Up(c), i + 1) == Bit(c, i)
  {
  }

  lemma BitEnds(c: bv16)
    ensures !Bit(Up(c), 0) && Bit(c, 15) == Top(c)
  {
  }

  lemma BitConstants(i: nat)
    requires i < 16
    ensures Bit(0x1021, i) == (i in {0, 5, 12}) && Bit(0x8000, i) == (i == 15)
  {
  }

  /** Where each bit of the register goes when a message bit is taken in. */
  lemma BitOfStep(c: bv16, bit: bool, i: nat)
    requires i < 16
    ensures Bit(BitStep(c, bit), i) ==
      ((i > 0 && Bit(c, i - 1)) != (Top(c) != bit && i in {0, 5, 12}))
  {
    hide Bit, Xor, Up, Top;
    var d := if bit then Xor(c, 0x8000) else c;
    BitConstants(i);
    BitXor(Up(d), 0x1021, i);
    if i == 0 {
      BitEnds(d);
    } else {
      BitUp(d, i - 1);
      BitXor(c, 0x8000, i - 1);
      BitConstants(i - 1);
    }
    BitEnds(c);
    BitEnds(d);
    BitXor(c, 0x8000, 15);
    BitConstants(15);
  }

  /** One digit of the division. */
  lemma StepDivides(c: bv16, bit: bool)
    ensures Add(TimesX(Bits(c), 1), Term(bit, 16)) ==
      Add(TimesG(Term(Top(c) != bit, 0)), Bits(BitStep(c, bit)))
  {
    hide Bit, Xor, Up, Top, BitStep;
    var l := Add(TimesX(Bits(c), 1), Term(bit, 16));
    var r := Add(TimesG(Term(Top(c) != bit, 0)), Bits(BitStep(c, bit)));
    forall e: nat ensures e in l <==> e in r {
      if e < 16 {
        BitOfStep(c, bit, e);
      } else {
        BitEnds(c);
      }
    }
  }

  lemma TimesGLinear(p: Poly, q: Poly)
    ensures TimesG(Add(p, q)) == Add(TimesG(p), TimesG(q))
  {
  }

  lemma ShiftsCommute(q: Poly, k: nat)
    ensures TimesX(TimesX(q, 1), k) == TimesX(TimesX(q, k), 1)
  {
  }

  lemma ShiftSum(p: Poly, q: Poly)
    ensures TimesX(Add(p, q), 1) == Add(TimesX(p, 1), TimesX(q, 1))
  {
  }

  lemma TimesGShifts(q: Poly)
    ensures TimesG(TimesX(q, 1)) == TimesX(TimesG(q), 1)
  {
    hide Add, TimesX;
    ShiftsCommute(q, 16);
    ShiftsCommute(q, 12);
    ShiftsCommute(q, 5);
    ShiftSum(TimesX(q, 16), TimesX(q, 12));
    ShiftSum(TimesX(q, 5), q);
    ShiftSum(Add(TimesX(q, 16), TimesX(q, 12)), Add(TimesX(q, 5), q));
  }

  lemma TimesGZero()
    ensures TimesG({}) == {}
  {
  }

  /** Everything moves up by one exponent, and one more digit is divided. */
  lemma Regroup(s: Poly, m: Poly, q: Poly, r: Poly, n: nat, b: Poly, g: Poly, r': Poly)
    requires Add(TimesX(s, n), TimesX(m, 16)) == Add(TimesG(q), r)
    requires Add(TimesX(r, 1), TimesX(b, 16)) == Add(TimesG(g), r')
    ensures Add(TimesX(s, n + 1), TimesX(Add(TimesX(m, 1), b), 16)) == Add(TimesG(Add(TimesX(q, 1), g)), r')
  {
    TimesGLinear(TimesX(q, 1), g);
    TimesGShifts(q);
    var t, g1 := TimesG(q), TimesG(g);
    assert TimesX(Add(TimesX(s, n), TimesX(m, 16)), 1) == TimesX(Add(t, r), 1);
    var l := Add(TimesX(s, n + 1), TimesX(Add(TimesX(m, 1), b), 16));
    var h := Add(Add(TimesX(t, 1), g1), r');
    forall e: nat ensures e in l <==> e in h {
      assert e in TimesX(Add(TimesX(s, n), TimesX(m, 16)), 1) <==> e in TimesX(Add(t, r), 1);
      assert e in Add(TimesX(r, 1), TimesX(b, 16)) <==> e in Add(g1, r');
    }
  }

  /**
   Feeding a bit string into a register divides: seed times x^n plus message times x^16 is the quotient times
   the generator plus the register.
   */
  lemma {:induction false} FeedDivides(seed: bv16, bits: seq<bool>)
    ensures Add(TimesX(Bits(seed), |bits|), TimesX(Message(bits), 16)) ==
      Add(TimesG(Quotient(seed, bits)), Bits(Feed(seed, bits)))
  {
    hide TimesG, BitStep, Bit, Top;
    if bits == [] {
      assert TimesX(Bits(seed), 0) == Bits(seed);
      TimesGZero();
    } else {
      var n := |bits| - 1;
      var less, b := bits[..n], bits[n];
      FeedDivides(seed, less);
      var c := Feed(seed, less);
      StepDivides(c, b);
      assert TimesX(Term(b, 0), 16) == Term(b, 16);
      Regroup(Bits(seed), Message(less), Quotient(seed, less), Bits(c), n,
        Term(b, 0), Term(Top(c) != b, 0), Bits(BitStep(c, b)));
    }
  }

  /** There is only one remainder of degree below 16. */
  lemma RemainderUnique(q: Poly, r: Poly, q': Poly, r': Poly)
    requires Add(TimesG(q), r) == Add(TimesG(q'), r')
    requires forall e | e in r || e in r' :: e < 16
    ensures q == q' && r == r'
  {
    var d := Add(q, q');
    TimesGLinear(q, q');
    assert TimesG(d) == Add(r, r') by {
      forall e: nat ensures e in TimesG(d) <==> e in Add(r, r') {
        assert e in Add(TimesG(q), r) <==> e in Add(TimesG(q'), r');
      }
    }
    NoLowMultiple(d);
    assert q == q' by {
      forall e: nat ensures e in q <==> e in q' {
        assert e !in d;
      }
    }
    assert r == r' by {
      forall e: nat ensures e in r <==> e in r' {
        assert e in Add(TimesG(q), r) <==> e in Add(TimesG(q'), r');
      }
    }
  }

  /** A multiple of the generator has degree 16 at least. */
  lemma NoLowMultiple(d: Poly)
    requires forall e | e in TimesG(d) :: e < 16
    ensures d == {}
  {
    if d != {} {
      var m := LeadingTerm(d);
    }
  }

  lemma LeadingTerm(d: Poly) returns (m: nat)
    requires d != {}
    ensures m >= 16 && m in TimesG(d)
  {
    m := Highest(d);
    m := m + 16;
  }

  lemma Highest(p: Poly) returns (m: nat)
    requires p != {}
    ensures m in p && forall e | e in p :: e <= m
    decreases |p|
  {
    m :| m in p;
    var rest := p - {m};
    assert forall e | e in p :: e in rest || e == m;
    if rest != {} {
      var n := Highest(rest);
      m := if n > m then n else m;
    }
  }

  // ----- bytes -----

  /** The bits of a byte, most significant first. */
  function ByteBits(b: bv8): seq<bool> {
    [b & 0x80 != 0, b & 0x40 != 0, b & 0x20 != 0, b & 0x10 != 0, b & 0x08 != 0, b & 0x04 != 0, b & 0x02 != 0, b & 0x01 != 0]
  }

  function MessageBits(data: seq<bv8>): seq<bool> {
    if data == [] then [] else MessageBits(data[..|data| - 1]) + ByteBits(data[|data| - 1])
  }

  /** A bit on top of the register goes in like a message bit; the bits below it move up. */
  lemma OneBit(c: bv16, h: bv16)
    ensures Shift(Xor(c, h)) == Xor(BitStep(c, Top(h)), Up(h))
  {
    hide Xor, Up, Top;
    var t: bv16 := if Top(h) then 0x8000 else 0;
    ClearTop(h, t);
    XorZero(c);
    XorBoth(c, h, t);
    ShiftLinear(Xor(c, t), Xor(h, t));
  }

  lemma XorZero(x: bv16)
    ensures Xor(x, 0) == x
  {
  }

  lemma ClearTop(h: bv16, t: bv16)
    requires t == if Top(h) then 0x8000 else 0
    ensures !Top(Xor(h, t)) && Up(Xor(h, t)) == Up(h)
  {
  }

  lemma ByteIsBits(c: bv16, b: bv8)
    ensures ByteStep(c, b) == Feed(c, ByteBits(b))
  {
    hide Xor, Up, Top, High, BitStep, Shift;
    var h0 := High(b);
    var h1 := Up(h0);
    var h2 := Up(h1);
    var h3 := Up(h2);
    var h4 := Up(h3);
    var h5 := Up(h4);
    var h6 := Up(h5);
    var h7 := Up(h6);
    HighBits(b);
    var bs := ByteBits(b);
    var c1 := BitStep(c, bs[0]);
    var c2 := BitStep(c1, bs[1]);
    var c3 := BitStep(c2, bs[2]);
    var c4 := BitStep(c3, bs[3]);
    var c5 := BitStep(c4, bs[4]);
    var c6 := BitStep(c5, bs[5]);
    var c7 := BitStep(c6, bs[6]);
    OneBit(c, h0);
    OneBit(c1, h1);
    OneBit(c2, h2);
    OneBit(c3, h3);
    OneBit(c4, h4);
    OneBit(c5, h5);
    OneBit(c6, h6);
    OneBit(c7, h7);
    XorZero(BitStep(c7, bs[7]));
    FeedEight(c, bs);
  }

  function Four(v: bv16, b0: bool, b1: bool, b2: bool, b3: bool): bv16 {
    BitStep(BitStep(BitStep(BitStep(v, b0), b1), b2), b3)
  }

  lemma FeedEight(c: bv16, bs: seq<bool>)
    requires |bs| == 8
    ensures Feed(c, bs) == Four(Four(c, bs[0], bs[1], bs[2], bs[3]), bs[4], bs[5], bs[6], bs[7])
  {
    hide Four, Feed, BitStep;
    NothingFed(c, bs);
    FeedFour(c, bs, 0, c);
    FeedFour(c, bs, 4, Four(c, bs[0], bs[1], bs[2], bs[3]));
    assert bs[..8] == bs;
  }

  lemma FeedFour(c: bv16, bs: seq<bool>, k: nat, v: bv16)
    requires k + 4 <= |bs| && Feed(c, bs[..k]) == v
    ensures Feed(c, bs[..k + 4]) == Four(v, bs[k], bs[k + 1], bs[k + 2], bs[k + 3])
  {
    hide BitStep, Feed;
    FeedNext(c, bs, k, v);
    FeedNext(c, bs, k + 1, BitStep(v, bs[k]));
    FeedNext(c, bs, k + 2, BitStep(BitStep(v, bs[k]), bs[k + 1]));
    FeedNext(c, bs, k + 3, BitStep(BitStep(BitStep(v, bs[k]), bs[k + 1]), bs[k + 2]));
  }

  lemma NothingFed(c: bv16, bs: seq<bool>)
    ensures Feed(c, bs[..0]) == c
  {
  }

  lemma FeedNext(c: bv16, bs: seq<bool>, k: nat, v: bv16)
    requires k < |bs| && Feed(c, bs[..k]) == v
    ensures Feed(c, bs[..k + 1]) == BitStep(v, bs[k])
  {
    hide BitStep;
    assert bs[..k + 1] == bs[..k] + [bs[k]];
    FeedAppend(c, bs[..k], bs[k]);
  }

  lemma FeedAppend(seed: bv16, bits: seq<bool>, b: bool)
    ensures Feed(seed, bits + [b]) == BitStep(Feed(seed, bits), b)
  {
    assert (bits + [b])[..|bits|] == bits;
  }

  lemma HighBits(b: bv8)
    ensures var h := High(b); var bs := ByteBits(b);
      && Top(h) == bs[0] && Top(Up(h)) == bs[1] && Top(Up(Up(h))) == bs[2] && Top(Up(Up(Up(h)))) == bs[3]
      && Top(Up(Up(Up(Up(h))))) == bs[4] && Top(Up(Up(Up(Up(Up(h)))))) == bs[5]
      && Top(Up(Up(Up(Up(Up(Up(h))))))) == bs[6] && Top(Up(Up(Up(Up(Up(Up(Up(h)))))))) == bs[7]
      && Up(Up(Up(Up(Up(Up(Up(Up(h)))))))) == 0
  {
  }

  lemma {:induction false} FeedConcat(seed: bv16, a: seq<bool>, b: seq<bool>)
    ensures Feed(seed, a + b) == Feed(Feed(seed, a), b)
  {
    if b == [] {
      assert a + b == a;
    } else {
      var less := b[..|b| - 1];
      assert a + b == (a + less) + [b[|b| - 1]];
      FeedAppend(seed, a + less, b[|b| - 1]);
      FeedConcat(seed, a, less);
    }
  }

  lemma {:induction false} CrcFeeds(data: seq<bv8>, seed: bv16)
    ensures Crc(data, seed) == Feed(seed, MessageBits(data)) && |MessageBits(data)| == 8 * |data|
  {
    hide ByteStep, BitStep, ByteBits;
    if data == [] {
    } else {
      var less, b := data[..|data| - 1], data[|data| - 1];
      CrcFeeds(less, seed);
      FeedConcat(seed, MessageBits(less), ByteBits(b));
      ByteIsBits(Crc(less, seed), b);
      EightBits(b);
    }
  }

  lemma EightBits(b: bv8)
    ensures |ByteBits(b)| == 8
  {
  }

  /**
   The CRC is the remainder of dividing seed * x^(8n) + message * x^16 by x^16 + x^12 + x^5 + 1, for every
   message of n bytes and every seed; and no other polynomial of degree below 16 is.
   */
  lemma CrcIsRemainder(data: seq<bv8>, seed: bv16, q: Poly, r: Poly)
    requires forall e | e in r :: e < 16
    ensures Add(TimesX(Bits(seed), 8 * |data|), TimesX(Message(MessageBits(data)), 16)) == Add(TimesG(q), r)
      <==> q == Quotient(seed, MessageBits(data)) && r == Bits(Crc(data, seed))
  {
    var bits := MessageBits(data);
    CrcFeeds(data, seed);
    FeedDivides(seed, bits);
    if Add(TimesX(Bits(seed), 8 * |data|), TimesX(Message(bits), 16)) == Add(TimesG(q), r) {
      RemainderUnique(q, r, Quotient(seed, bits), Bits(Crc(data, seed)));
    }
  }
}
