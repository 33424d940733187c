/** The field of 256 elements of AES (section 4 of FIPS 197): bytes with XOR as addition and
    multiplication modulo x^8 + x^4 + x^3 + x + 1. */
module GaloisField {
  import opened Blocks
  import opened Polynomials

  function Plus(a: Byte, b: Byte): Byte {
    a ^ b
  }

  lemma PlusLaws(a: Byte, b: Byte, c: Byte)
    ensures Plus(a, b) == Plus(b, a) && Plus(Plus(a, b), c) == Plus(a, Plus(b, c))
    ensures Plus(a, 0) == a && Plus(a, a) == 0
  {}

  lemma PlusInterchange(a: Byte, b: Byte, c: Byte, d: Byte)
    ensures Plus(Plus(a, b), Plus(c, d)) == Plus(Plus(a, c), Plus(b, d))
  {
    hide Plus;
    PlusLaws(a, b, Plus(c, d));
    PlusLaws(b, c, d);
    PlusLaws(c, b, d);
    PlusLaws(a, c, Plus(b, d));
  }

  /** v if the bit of b selected by mask is set, zero otherwise. */
  function Pick(b: Byte, mask: Byte, v: Byte): Byte {
    if b & mask != 0 then v else 0
  }

  predicate OneBit(mask: Byte) {
    mask == 0x01 || mask == 0x02 || mask == 0x04 || mask == 0x08 || mask == 0x10 || mask == 0x20 || mask == 0x40 || mask == 0x80
  }

  lemma PickPlus(b: Byte, mask: Byte, v: Byte, w: Byte)
    ensures Pick(b, mask, Plus(v, w)) == Plus(Pick(b, mask, v), Pick(b, mask, w))
  {}

  lemma PlusPick(a: Byte, b: Byte, mask: Byte, v: Byte)
    requires OneBit(mask)
    ensures Pick(Plus(a, b), mask, v) == Plus(Pick(a, mask, v), Pick(b, mask, v))
  {
    assert (a ^ b) & mask == (a & mask) ^ (b & mask);
    assert OneBit(mask) ==> (a & mask == 0 || a & mask == mask) && (b & mask == 0 || b & mask == mask);
  }

  function Shift(a: Byte): Byte {
    a << 1
  }

  lemma ShiftPlus(a: Byte, b: Byte)
    ensures Shift(Plus(a, b)) == Plus(Shift(a), Shift(b))
  {}

  /** xtime of section 4.2.1: multiplication by x. */
  function XTime(a: Byte): Byte {
    Plus(Shift(a), Pick(a, 0x80, 0x1b))
  }

  lemma XTimePlus(a: Byte, b: Byte)
    ensures XTime(Plus(a, b)) == Plus(XTime(a), XTime(b))
  {
    hide Shift, Pick, Plus;
    ShiftPlus(a, b);
    PlusPick(a, b, 0x80, 0x1b);
    PlusInterchange(Shift(a), Shift(b), Pick(a, 0x80, 0x1b), Pick(b, 0x80, 0x1b));
  }

  lemma XTimePick(b: Byte, mask: Byte, v: Byte)
    ensures XTime(Pick(b, mask, v)) == Pick(b, mask, XTime(v))
  {
    assert XTime(0) == 0;
    hide XTime;
  }

  function Sum8(a0: Byte, a1: Byte, a2: Byte, a3: Byte, a4: Byte, a5: Byte, a6: Byte, a7: Byte): Byte {
    Plus(Plus(Plus(a0, a1), Plus(a2, a3)), Plus(Plus(a4, a5), Plus(a6, a7)))
  }

  lemma Sum8Plus(a0: Byte, a1: Byte, a2: Byte, a3: Byte, a4: Byte, a5: Byte, a6: Byte, a7: Byte,
                 b0: Byte, b1: Byte, b2: Byte, b3: Byte, b4: Byte, b5: Byte, b6: Byte, b7: Byte)
    ensures Sum8(Plus(a0, b0), Plus(a1, b1), Plus(a2, b2), Plus(a3, b3), Plus(a4, b4), Plus(a5, b5), Plus(a6, b6), Plus(a7, b7))
         == Plus(Sum8(a0, a1, a2, a3, a4, a5, a6, a7), Sum8(b0, b1, b2, b3, b4, b5, b6, b7))
  {
    hide Plus;
    PlusInterchange(a0, b0, a1, b1);
    PlusInterchange(a2, b2, a3, b3);
    PlusInterchange(a4, b4, a5, b5);
    PlusInterchange(a6, b6, a7, b7);
    PlusInterchange(Plus(a0, a1), Plus(b0, b1), Plus(a2, a3), Plus(b2, b3));
    PlusInterchange(Plus(a4, a5), Plus(b4, b5), Plus(a6, a7), Plus(b6, b7));
    PlusInterchange(Plus(Plus(a0, a1), Plus(a2, a3)), Plus(Plus(b0, b1), Plus(b2, b3)),
                    Plus(Plus(a4, a5), Plus(a6, a7)), Plus(Plus(b4, b5), Plus(b6, b7)));
  }

  /** The sum of those v_i whose bit is set in b. */
  function Select(b: Byte, v0: Byte, v1: Byte, v2: Byte, v3: Byte, v4: Byte, v5: Byte, v6: Byte, v7: Byte): Byte {
    Sum8(Pick(b, 0x01, v0), Pick(b, 0x02, v1), Pick(b, 0x04, v2), Pick(b, 0x08, v3),
         Pick(b, 0x10, v4), Pick(b, 0x20, v5), Pick(b, 0x40, v6), Pick(b, 0x80, v7))
  }

  /** Section 4.2: the sum of the a * x^i over the bits i of b. */
  function Times(a: Byte, b: Byte): Byte {
    var a1 := XTime(a);
    var a2 := XTime(a1);
    var a3 := XTime(a2);
    var a4 := XTime(a3);
    var a5 := XTime(a4);
    var a6 := XTime(a5);
    Select(b, a, a1, a2, a3, a4, a5, a6, XTime(a6))
  }

  lemma SelectPlus(b: Byte, v0: Byte, v1: Byte, v2: Byte, v3: Byte, v4: Byte, v5: Byte, v6: Byte, v7: Byte,
                   w0: Byte, w1: Byte, w2: Byte, w3: Byte, w4: Byte, w5: Byte, w6: Byte, w7: Byte)
    ensures Select(b, Plus(v0, w0), Plus(v1, w1), Plus(v2, w2), Plus(v3, w3), Plus(v4, w4), Plus(v5, w5), Plus(v6, w6), Plus(v7, w7))
         == Plus(Select(b, v0, v1, v2, v3, v4, v5, v6, v7), Select(b, w0, w1, w2, w3, w4, w5, w6, w7))
  {
    hide Pick, Plus, Sum8;
    PickPlus(b, 0x01, v0, w0);
    PickPlus(b, 0x02, v1, w1);
    PickPlus(b, 0x04, v2, w2);
    PickPlus(b, 0x08, v3, w3);
    PickPlus(b, 0x10, v4, w4);
    PickPlus(b, 0x20, v5, w5);
    PickPlus(b, 0x40, v6, w6);
    PickPlus(b, 0x80, v7, w7);
    Sum8Plus(Pick(b, 0x01, v0), Pick(b, 0x02, v1), Pick(b, 0x04, v2), Pick(b, 0x08, v3),
             Pick(b, 0x10, v4), Pick(b, 0x20, v5), Pick(b, 0x40, v6), Pick(b, 0x80, v7),
             Pick(b, 0x01, w0), Pick(b, 0x02, w1), Pick(b, 0x04, w2), Pick(b, 0x08, w3),
             Pick(b, 0x10, w4), Pick(b, 0x20, w5), Pick(b, 0x40, w6), Pick(b, 0x80, w7));
  }

  lemma PlusSelect(b: Byte, c: Byte, v0: Byte, v1: Byte, v2: Byte, v3: Byte, v4: Byte, v5: Byte, v6: Byte, v7: Byte)
    ensures Select(Plus(b, c), v0, v1, v2, v3, v4, v5, v6, v7)
         == Plus(Select(b, v0, v1, v2, v3, v4, v5, v6, v7), Select(c, v0, v1, v2, v3, v4, v5, v6, v7))
  {
    hide Pick, Plus, Sum8;
    PlusPick(b, c, 0x01, v0);
    PlusPick(b, c, 0x02, v1);
    PlusPick(b, c, 0x04, v2);
    PlusPick(b, c, 0x08, v3);
    PlusPick(b, c, 0x10, v4);
    PlusPick(b, c, 0x20, v5);
    PlusPick(b, c, 0x40, v6);
    PlusPick(b, c, 0x80, v7);
    Sum8Plus(Pick(b, 0x01, v0), Pick(b, 0x02, v1), Pick(b, 0x04, v2), Pick(b, 0x08, v3),
             Pick(b, 0x10, v4), Pick(b, 0x20, v5), Pick(b, 0x40, v6), Pick(b, 0x80, v7),
             Pick(c, 0x01, v0), Pick(c, 0x02, v1), Pick(c, 0x04, v2), Pick(c, 0x08, v3),
             Pick(c, 0x10, v4), Pick(c, 0x20, v5), Pick(c, 0x40, v6), Pick(c, 0x80, v7));
  }

  lemma XTimeSum8(p0: Byte, p1: Byte, p2: Byte, p3: Byte, p4: Byte, p5: Byte, p6: Byte, p7: Byte)
    ensures XTime(Sum8(p0, p1, p2, p3, p4, p5, p6, p7))
         == Sum8(XTime(p0), XTime(p1), XTime(p2), XTime(p3), XTime(p4), XTime(p5), XTime(p6), XTime(p7))
  {
    hide Plus, XTime;
    XTimePlus(p0, p1);
    XTimePlus(p2, p3);
    XTimePlus(p4, p5);
    XTimePlus(p6, p7);
    XTimePlus(Plus(p0, p1), Plus(p2, p3));
    XTimePlus(Plus(p4, p5), Plus(p6, p7));
    XTimePlus(Plus(Plus(p0, p1), Plus(p2, p3)), Plus(Plus(p4, p5), Plus(p6, p7)));
  }

  lemma SelectXTime(b: Byte, v0: Byte, v1: Byte, v2: Byte, v3: Byte, v4: Byte, v5: Byte, v6: Byte, v7: Byte)
    ensures XTime(Select(b, v0, v1, v2, v3, v4, v5, v6, v7))
         == Select(b, XTime(v0), XTime(v1), XTime(v2), XTime(v3), XTime(v4), XTime(v5), XTime(v6), XTime(v7))
  {
    hide Pick, XTime, Plus, Sum8;
    XTimePick(b, 0x01, v0);
    XTimePick(b, 0x02, v1);
    XTimePick(b, 0x04, v2);
    XTimePick(b, 0x08, v3);
    XTimePick(b, 0x10, v4);
    XTimePick(b, 0x20, v5);
    XTimePick(b, 0x40, v6);
    XTimePick(b, 0x80, v7);
    XTimeSum8(Pick(b, 0x01, v0), Pick(b, 0x02, v1), Pick(b, 0x04, v2), Pick(b, 0x08, v3),
              Pick(b, 0x10, v4), Pick(b, 0x20, v5), Pick(b, 0x40, v6), Pick(b, 0x80, v7));
  }

  lemma SelectBits(b: Byte)
    ensures Select(b, 0x01, 0x02, 0x04, 0x08, 0x10, 0x20, 0x40, 0x80) == b
  {}

  // ----- multiplication is bilinear and commutes with multiplication by x -----

  lemma TimesPlus(a: Byte, b: Byte, c: Byte)
    ensures Times(a, Plus(b, c)) == Plus(Times(a, b), Times(a, c))
  {
    hide Select, XTime, Plus;
    var a1 := XTime(a);
    var a2 := XTime(a1);
    var a3 := XTime(a2);
    var a4 := XTime(a3);
    var a5 := XTime(a4);
    var a6 := XTime(a5);
    PlusSelect(b, c, a, a1, a2, a3, a4, a5, a6, XTime(a6));
  }

  lemma PlusTimes(a: Byte, b: Byte, c: Byte)
    ensures Times(Plus(a, b), c) == Plus(Times(a, c), Times(b, c))
  {
    hide Select, XTime, Plus;
    var a1, b1 := XTime(a), XTime(b);
    var a2, b2 := XTime(a1), XTime(b1);
    var a3, b3 := XTime(a2), XTime(b2);
    var a4, b4 := XTime(a3), XTime(b3);
    var a5, b5 := XTime(a4), XTime(b4);
    var a6, b6 := XTime(a5), XTime(b5);
    XTimePlus(a, b);
    XTimePlus(a1, b1);
    XTimePlus(a2, b2);
    XTimePlus(a3, b3);
    XTimePlus(a4, b4);
    XTimePlus(a5, b5);
    XTimePlus(a6, b6);
    SelectPlus(c, a, a1, a2, a3, a4, a5, a6, XTime(a6), b, b1, b2, b3, b4, b5, b6, XTime(b6));
  }

  lemma XTimeTimes(a: Byte, b: Byte)
    ensures Times(XTime(a), b) == XTime(Times(a, b))
  {
    hide Select, XTime;
    var a1 := XTime(a);
    var a2 := XTime(a1);
    var a3 := XTime(a2);
    var a4 := XTime(a3);
    var a5 := XTime(a4);
    var a6 := XTime(a5);
    SelectXTime(b, a, a1, a2, a3, a4, a5, a6, XTime(a6));
  }

  lemma OneTimes(b: Byte)
    ensures Times(1, b) == b
  {
    assert XTime(0x01) == 0x02 && XTime(0x02) == 0x04 && XTime(0x04) == 0x08 && XTime(0x08) == 0x10;
    assert XTime(0x10) == 0x20 && XTime(0x20) == 0x40 && XTime(0x40) == 0x80;
    hide Select, XTime;
    SelectBits(b);
  }

  lemma ZeroTimes(c: Byte)
    ensures Times(0, c) == 0
  {
    hide Times, Plus;
    PlusLaws(0, 0, 0);
    PlusTimes(0, 0, c);
    PlusLaws(Times(0, c), 0, 0);
  }

  lemma PickTimes(b: Byte, mask: Byte, v: Byte, c: Byte)
    ensures Times(Pick(b, mask, v), c) == Pick(b, mask, Times(v, c))
  {
    hide Times;
    ZeroTimes(c);
  }

  lemma Sum8Times(p0: Byte, p1: Byte, p2: Byte, p3: Byte, p4: Byte, p5: Byte, p6: Byte, p7: Byte, c: Byte)
    ensures Times(Sum8(p0, p1, p2, p3, p4, p5, p6, p7), c)
         == Sum8(Times(p0, c), Times(p1, c), Times(p2, c), Times(p3, c), Times(p4, c), Times(p5, c), Times(p6, c), Times(p7, c))
  {
    hide Plus, Times;
    PlusTimes(p0, p1, c);
    PlusTimes(p2, p3, c);
    PlusTimes(p4, p5, c);
    PlusTimes(p6, p7, c);
    PlusTimes(Plus(p0, p1), Plus(p2, p3), c);
    PlusTimes(Plus(p4, p5), Plus(p6, p7), c);
    PlusTimes(Plus(Plus(p0, p1), Plus(p2, p3)), Plus(Plus(p4, p5), Plus(p6, p7)), c);
  }

  lemma SelectTimes(b: Byte, v0: Byte, v1: Byte, v2: Byte, v3: Byte, v4: Byte, v5: Byte, v6: Byte, v7: Byte, c: Byte)
    ensures Times(Select(b, v0, v1, v2, v3, v4, v5, v6, v7), c)
         == Select(b, Times(v0, c), Times(v1, c), Times(v2, c), Times(v3, c), Times(v4, c), Times(v5, c), Times(v6, c), Times(v7, c))
  {
    hide Pick, Times, Sum8;
    PickTimes(b, 0x01, v0, c);
    PickTimes(b, 0x02, v1, c);
    PickTimes(b, 0x04, v2, c);
    PickTimes(b, 0x08, v3, c);
    PickTimes(b, 0x10, v4, c);
    PickTimes(b, 0x20, v5, c);
    PickTimes(b, 0x40, v6, c);
    PickTimes(b, 0x80, v7, c);
    Sum8Times(Pick(b, 0x01, v0), Pick(b, 0x02, v1), Pick(b, 0x04, v2), Pick(b, 0x08, v3),
              Pick(b, 0x10, v4), Pick(b, 0x20, v5), Pick(b, 0x40, v6), Pick(b, 0x80, v7), c);
  }

  /** The products of the powers of x with c are the summands of Times(c, b). */
  lemma ShiftedTimes(a: Byte, b: Byte, c: Byte)
    ensures var a1 := XTime(a); var a2 := XTime(a1); var a3 := XTime(a2); var a4 := XTime(a3);
            var a5 := XTime(a4); var a6 := XTime(a5); var a7 := XTime(a6);
            Select(b, Times(a, c), Times(a1, c), Times(a2, c), Times(a3, c), Times(a4, c), Times(a5, c), Times(a6, c), Times(a7, c))
            == Times(Times(a, c), b)
  {
    var a1 := XTime(a);
    var a2 := XTime(a1);
    var a3 := XTime(a2);
    var a4 := XTime(a3);
    var a5 := XTime(a4);
    var a6 := XTime(a5);
    var d := Times(a, c);
    XTimeTimes(a, c);
    XTimeTimes(a1, c);
    XTimeTimes(a2, c);
    XTimeTimes(a3, c);
    XTimeTimes(a4, c);
    XTimeTimes(a5, c);
    XTimeTimes(a6, c);
    UnfoldTimes(d, b);
    hide Select, XTime, Times;
  }

  lemma UnfoldTimes(a: Byte, b: Byte)
    ensures var a1 := XTime(a); var a2 := XTime(a1); var a3 := XTime(a2); var a4 := XTime(a3);
            var a5 := XTime(a4); var a6 := XTime(a5);
            Times(a, b) == Select(b, a, a1, a2, a3, a4, a5, a6, XTime(a6))
  {
    hide Select, XTime;
  }

  lemma TimesComm(a: Byte, b: Byte)
    ensures Times(a, b) == Times(b, a)
  {
    assert XTime(0x01) == 0x02 && XTime(0x02) == 0x04 && XTime(0x04) == 0x08 && XTime(0x08) == 0x10;
    assert XTime(0x10) == 0x20 && XTime(0x20) == 0x40 && XTime(0x40) == 0x80;
    hide Select, XTime, Times;
    SelectBits(b);
    SelectTimes(b, 0x01, 0x02, 0x04, 0x08, 0x10, 0x20, 0x40, 0x80, a);
    ShiftedTimes(1, b, a);
    OneTimes(a);
  }

  lemma TimesSwap(a: Byte, b: Byte, c: Byte)
    ensures Times(Times(a, b), c) == Times(Times(a, c), b)
  {
    hide Select, XTime, Times;
    var a1 := XTime(a);
    var a2 := XTime(a1);
    var a3 := XTime(a2);
    var a4 := XTime(a3);
    var a5 := XTime(a4);
    var a6 := XTime(a5);
    UnfoldTimes(a, b);
    SelectTimes(b, a, a1, a2, a3, a4, a5, a6, XTime(a6), c);
    ShiftedTimes(a, b, c);
  }

  lemma TimesAssoc(a: Byte, b: Byte, c: Byte)
    ensures Times(Times(a, b), c) == Times(a, Times(b, c))
  {
    hide Times;
    TimesComm(a, Times(b, c));
    TimesSwap(b, c, a);
    TimesComm(a, b);
  }

  // ----- inverses -----

  /** a * a^2 * a^4 * ... with k factors */
  function Product(a: Byte, k: nat): Byte
    decreases k
  {
    if k == 0 then 1 else Times(a, Product(Times(a, a), k - 1))
  }

  /** a squared k times */
  function Square(a: Byte, k: nat): Byte
    decreases k
  {
    if k == 0 then a else Square(Times(a, a), k - 1)
  }

  /** The multiplicative inverse: a^2 * a^4 * ... * a^128 = a^254, and 0 for 0. */
  function Inverse(a: Byte): Byte {
    Product(Times(a, a), 7)
  }

  lemma {:induction false} ProductSquare(a: Byte, k: nat)
    ensures Times(a, Product(a, k)) == Square(a, k)
    decreases k
  {
    hide Times;
    if k == 0 {
      TimesComm(a, 1);
      OneTimes(a);
    } else {
      var rest := Product(Times(a, a), k - 1);
      TimesAssoc(a, a, rest);
      ProductSquare(Times(a, a), k - 1);
    }
  }

  lemma SquareOfSum(a: Byte, b: Byte)
    ensures Times(Plus(a, b), Plus(a, b)) == Plus(Times(a, a), Times(b, b))
  {
    hide Times, Plus;
    var ab := Times(a, b);
    PlusTimes(a, b, Plus(a, b));
    TimesPlus(a, a, b);
    TimesPlus(b, a, b);
    TimesComm(b, a);
    PlusLaws(ab, Times(b, b), ab);
    PlusLaws(ab, ab, Times(b, b));
    PlusLaws(Times(a, a), ab, Plus(ab, Times(b, b)));
    PlusLaws(0, Times(b, b), 0);
    PlusLaws(Times(b, b), 0, 0);
  }

  lemma {:induction false} SquarePlus(a: Byte, b: Byte, k: nat)
    ensures Square(Plus(a, b), k) == Plus(Square(a, k), Square(b, k))
    decreases k
  {
    hide Times, Plus;
    if k > 0 {
      SquareOfSum(a, b);
      SquarePlus(Times(a, a), Times(b, b), k - 1);
    }
  }

  lemma {:induction false} SquareTimes(a: Byte, b: Byte, k: nat)
    ensures Square(Times(a, b), k) == Times(Square(a, k), Square(b, k))
    decreases k
  {
    hide Times;
    if k > 0 {
      var ab := Times(a, b);
      TimesAssoc(ab, a, b);
      TimesSwap(a, b, a);
      TimesAssoc(Times(a, a), b, b);
      SquareTimes(Times(a, a), Times(b, b), k - 1);
    }
  }

  /** Raised to the power 256, the element is itself. */
  predicate Fixed(a: Byte) {
    Square(a, 8) == a
  }

  lemma FixedTimes(a: Byte, b: Byte)
    requires Fixed(a) && Fixed(b)
    ensures Fixed(Times(a, b))
  {
    hide Times, Square;
    SquareTimes(a, b, 8);
  }

  lemma FixedPlus(a: Byte, b: Byte)
    requires Fixed(a) && Fixed(b)
    ensures Fixed(Plus(a, b))
  {
    hide Plus, Square;
    SquarePlus(a, b, 8);
  }

  /** The eight squarings of x. */
  lemma SquaringsOfX()
    ensures Times(0x02, 0x02) == 0x04 && Times(0x04, 0x04) == 0x10 && Times(0x10, 0x10) == 0x1b && Times(0x1b, 0x1b) == 0x5e
    ensures Times(0x5e, 0x5e) == 0xe4 && Times(0xe4, 0xe4) == 0x4d && Times(0x4d, 0x4d) == 0xfa && Times(0xfa, 0xfa) == 0x02
  {}

  lemma {:induction false} SquareFixpoint(a: Byte, k: nat)
    requires Times(a, a) == a
    ensures Square(a, k) == a
  {
    hide Times;
    if k > 0 {
      SquareFixpoint(a, k - 1);
    }
  }

  lemma FixedX()
    ensures Fixed(0) && Fixed(1) && Fixed(2)
  {
    hide Times;
    SquaringsOfX();
    ZeroTimes(0);
    OneTimes(1);
    SquareFixpoint(0, 8);
    SquareFixpoint(1, 8);
    assert Square(0x4d, 2) == 2;
    assert Square(0x1b, 5) == Square(0x4d, 2);
    assert Square(2, 8) == Square(0x1b, 5);
  }

  lemma FixedBits()
    ensures Fixed(0) && Fixed(0x01) && Fixed(0x02) && Fixed(0x04) && Fixed(0x08)
    ensures Fixed(0x10) && Fixed(0x20) && Fixed(0x40) && Fixed(0x80)
  {
    assert Times(0x02, 0x02) == 0x04 && Times(0x04, 0x02) == 0x08 && Times(0x08, 0x02) == 0x10;
    assert Times(0x10, 0x02) == 0x20 && Times(0x20, 0x02) == 0x40 && Times(0x40, 0x02) == 0x80;
    hide Times, Fixed;
    FixedX();
    FixedTimes(0x02, 0x02);
    FixedTimes(0x04, 0x02);
    FixedTimes(0x08, 0x02);
    FixedTimes(0x10, 0x02);
    FixedTimes(0x20, 0x02);
    FixedTimes(0x40, 0x02);
  }

  lemma FixedSum8(p0: Byte, p1: Byte, p2: Byte, p3: Byte, p4: Byte, p5: Byte, p6: Byte, p7: Byte)
    requires Fixed(p0) && Fixed(p1) && Fixed(p2) && Fixed(p3) && Fixed(p4) && Fixed(p5) && Fixed(p6) && Fixed(p7)
    ensures Fixed(Sum8(p0, p1, p2, p3, p4, p5, p6, p7))
  {
    hide Plus, Fixed;
    FixedPlus(p0, p1);
    FixedPlus(p2, p3);
    FixedPlus(p4, p5);
    FixedPlus(p6, p7);
    FixedPlus(Plus(p0, p1), Plus(p2, p3));
    FixedPlus(Plus(p4, p5), Plus(p6, p7));
    FixedPlus(Plus(Plus(p0, p1), Plus(p2, p3)), Plus(Plus(p4, p5), Plus(p6, p7)));
  }

  lemma FixedPick(b: Byte, mask: Byte, v: Byte)
    requires Fixed(0) && Fixed(v)
    ensures Fixed(Pick(b, mask, v))
  {
    hide Fixed;
  }

  /** Every element is its own 256th power. */
  lemma AllFixed(a: Byte)
    ensures Fixed(a)
  {
    hide Fixed, Pick, Sum8;
    FixedBits();
    SelectBits(a);
    FixedPick(a, 0x01, 0x01);
    FixedPick(a, 0x02, 0x02);
    FixedPick(a, 0x04, 0x04);
    FixedPick(a, 0x08, 0x08);
    FixedPick(a, 0x10, 0x10);
    FixedPick(a, 0x20, 0x20);
    FixedPick(a, 0x40, 0x40);
    FixedPick(a, 0x80, 0x80);
    FixedSum8(Pick(a, 0x01, 0x01), Pick(a, 0x02, 0x02), Pick(a, 0x04, 0x04), Pick(a, 0x08, 0x08),
              Pick(a, 0x10, 0x10), Pick(a, 0x20, 0x20), Pick(a, 0x40, 0x40), Pick(a, 0x80, 0x80));
  }

  /** Squaring is linear; these are the squares of the powers of x. */
  function Squared(a: Byte): Byte {
    Select(a, 0x01, 0x04, 0x10, 0x40, 0x1b, 0x6c, 0xab, 0x9a)
  }

  lemma SquareOfPick(b: Byte, mask: Byte, v: Byte)
    ensures Times(Pick(b, mask, v), Pick(b, mask, v)) == Pick(b, mask, Times(v, v))
  {
    hide Times;
    ZeroTimes(0);
  }

  lemma SquareOfSum8(p0: Byte, p1: Byte, p2: Byte, p3: Byte, p4: Byte, p5: Byte, p6: Byte, p7: Byte)
    ensures var s := Sum8(p0, p1, p2, p3, p4, p5, p6, p7);
            Times(s, s) == Sum8(Times(p0, p0), Times(p1, p1), Times(p2, p2), Times(p3, p3),
                                Times(p4, p4), Times(p5, p5), Times(p6, p6), Times(p7, p7))
  {
    hide Plus, Times;
    SquareOfSum(p0, p1);
    SquareOfSum(p2, p3);
    SquareOfSum(p4, p5);
    SquareOfSum(p6, p7);
    SquareOfSum(Plus(p0, p1), Plus(p2, p3));
    SquareOfSum(Plus(p4, p5), Plus(p6, p7));
    SquareOfSum(Plus(Plus(p0, p1), Plus(p2, p3)), Plus(Plus(p4, p5), Plus(p6, p7)));
  }

  lemma SquaresOfBits()
    ensures Times(0x01, 0x01) == 0x01 && Times(0x02, 0x02) == 0x04 && Times(0x04, 0x04) == 0x10 && Times(0x08, 0x08) == 0x40
    ensures Times(0x10, 0x10) == 0x1b && Times(0x20, 0x20) == 0x6c && Times(0x40, 0x40) == 0xab && Times(0x80, 0x80) == 0x9a
  {}

  lemma SquaredIsSquare(a: Byte)
    ensures Times(a, a) == Squared(a)
  {
    hide Times, Pick, Sum8;
    SquaresOfBits();
    SelectBits(a);
    SquareOfPick(a, 0x01, 0x01);
    SquareOfPick(a, 0x02, 0x02);
    SquareOfPick(a, 0x04, 0x04);
    SquareOfPick(a, 0x08, 0x08);
    SquareOfPick(a, 0x10, 0x10);
    SquareOfPick(a, 0x20, 0x20);
    SquareOfPick(a, 0x40, 0x40);
    SquareOfPick(a, 0x80, 0x80);
    SquareOfSum8(Pick(a, 0x01, 0x01), Pick(a, 0x02, 0x02), Pick(a, 0x04, 0x04), Pick(a, 0x08, 0x08),
                 Pick(a, 0x10, 0x10), Pick(a, 0x20, 0x20), Pick(a, 0x40, 0x40), Pick(a, 0x80, 0x80));
  }

  lemma SquaredFixpoint(a: Byte)
    requires Squared(a) == a
    ensures a == 0 || a == 1
  {}

  /** The only idempotent elements are zero and one. */
  lemma Idempotent(a: Byte)
    requires Times(a, a) == a
    ensures a == 0 || a == 1
  {
    hide Times, Squared;
    SquaredIsSquare(a);
    SquaredFixpoint(a);
  }

  lemma InverseProduct(a: Byte)
    ensures Times(a, Inverse(a)) == Product(a, 8)
  {
    hide Times;
  }

  /** a * a^254 is idempotent and fixes a, so it is one unless a is zero. */
  lemma InverseLaw(a: Byte)
    requires a != 0
    ensures Times(a, Inverse(a)) == 1
  {
    hide Times, Square, Inverse, Product;
    var t := Times(a, Inverse(a));
    InverseProduct(a);
    assert Times(a, t) == a by {
      ProductSquare(a, 8);
      AllFixed(a);
    }
    assert Times(t, t) == t by {
      TimesSwap(a, Inverse(a), t);
    }
    Idempotent(t);
    TimesComm(a, 0);
    ZeroTimes(a);
  }

  lemma InverseZero()
    ensures Inverse(0) == 0
  {
    hide Times;
    ZeroTimes(0);
    ZeroTimes(Product(0, 6));
  }

  lemma InverseInverse(a: Byte)
    ensures Inverse(Inverse(a)) == a
  {
    hide Times, Inverse;
    InverseZero();
    if a != 0 {
      var b := Inverse(a);
      InverseLaw(a);
      if b == 0 {
        TimesComm(a, 0);
        ZeroTimes(a);
        assert false;
      } else {
        var c := Inverse(b);
        InverseLaw(b);
        TimesAssoc(a, b, c);
        TimesComm(a, 1);
        OneTimes(a);
        OneTimes(c);
      }
    }
  }

  function Arithmetic(): Field<Byte> {
    Field(0, 1, Plus, Times, Inverse)
  }

  /** The bytes of AES are a field of characteristic two. */
  lemma IsFieldArithmetic()
    ensures IsField(Arithmetic())
  {
    hide Plus, Times, Inverse;
    var k := Arithmetic();
    forall a, b, c ensures AddLaw(k, a, b, c) {
      PlusLaws(a, b, c);
    }
    forall a, b, c ensures MulLaw(k, a, b, c) {
      TimesComm(a, b);
      TimesAssoc(a, b, c);
      TimesComm(a, 1);
      OneTimes(a);
      TimesPlus(a, b, c);
      if a != 0 {
        InverseLaw(a);
      }
    }
  }
}
