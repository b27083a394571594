/** The packed multiply and add macros: two components in one multiplication, four in a word, equal to
    their scalar forms lane by lane, with nothing carried or borrowed between lanes. */
module Packed {
  import opened BitMath
  import opened Lanes

  /** A word of four components, lowest first. */
  function W4(b: nat, x0: nat, x1: nat, x2: nat, x3: nat): nat
  {
    x0 + (x1 + (x2 + x3 * b) * b) * b
  }

  /** `RB_MASK`, `RB_ONE_HALF`, `RB_MASK_PLUS_ONE` */
  function RbMask(c: nat): nat
  {
    W4(Base(c), Mask(c), 0, Mask(c), 0)
  }

  function RbOneHalf(c: nat): nat
  {
    W4(Base(c), Half(c), 0, Half(c), 0)
  }

  function RbMaskPlusOne(c: nat): nat
    requires c >= 1
  {
    W4(Base(c), 0, 1, 0, 16)
  }

  /** The constants as the two headers write them. */
  lemma Constants()
    ensures RbMask(8) == 0xff00ff && RbOneHalf(8) == 0x800080 && RbMaskPlusOne(8) == 0x10000100
    ensures RbMask(16) == 0xffff_0000_ffff && RbOneHalf(16) == 0x8000_0000_8000
    ensures RbMaskPlusOne(16) == 0x10_0000_0001_0000
  {
    Pow2Facts();
  }

  /** `x >> G_SHIFT` */
  function Shr(c: nat, x: nat): nat
  {
    Quotient(x, Base(c))
  }

  /** The word fits the register: arithmetic on it does not wrap around. */
  ghost predicate InWord(c: nat, w: nat)
  {
    w < Base(c) * Base(c) * Base(c) * Base(c)
  }

  lemma WordFits(c: nat, x0: nat, x1: nat, x2: nat, x3: nat)
    requires x0 < Base(c) && x1 < Base(c) && x2 < Base(c) && x3 < Base(c)
    ensures InWord(c, W4(Base(c), x0, x1, x2, x3))
  {
    var b := Base(c);
    MulStep(x3, b, b);
    MulStep(x2 + x3 * b, b * b, b);
    MulStep(x1 + (x2 + x3 * b) * b, b * b * b, b);
  }

  lemma AndWord(c: nat, x0: nat, x1: nat, x2: nat, x3: nat, y0: nat, y1: nat, y2: nat, y3: nat)
    requires x0 < Base(c) && x1 < Base(c) && x2 < Base(c) && y0 < Base(c) && y1 < Base(c) && y2 < Base(c)
    ensures And(W4(Base(c), x0, x1, x2, x3), W4(Base(c), y0, y1, y2, y3))
         == W4(Base(c), And(x0, y0), And(x1, y1), And(x2, y2), And(x3, y3))
  {
    hide And, Base;
    var b := Base(c);
    AndPush(c, x2, x3, y2, y3);
    AndPush(c, x1, x2 + x3 * b, y1, y2 + y3 * b);
    AndPush(c, x0, x1 + (x2 + x3 * b) * b, y0, y1 + (y2 + y3 * b) * b);
  }

  lemma AndPush(c: nat, x: nat, u: nat, y: nat, v: nat)
    requires x < Base(c) && y < Base(c)
    ensures And(x + u * Base(c), y + v * Base(c)) == And(x, y) + And(u, v) * Base(c)
  {
    hide And, Pow2;
    AndSplit(x, u, y, v, c);
  }

  lemma OrWord(c: nat, x0: nat, x1: nat, x2: nat, x3: nat, y0: nat, y1: nat, y2: nat, y3: nat)
    requires x0 < Base(c) && x1 < Base(c) && x2 < Base(c) && y0 < Base(c) && y1 < Base(c) && y2 < Base(c)
    ensures Or(W4(Base(c), x0, x1, x2, x3), W4(Base(c), y0, y1, y2, y3))
         == W4(Base(c), Or(x0, y0), Or(x1, y1), Or(x2, y2), Or(x3, y3))
  {
    hide Or, Base;
    var b := Base(c);
    OrPush(c, x2, x3, y2, y3);
    OrPush(c, x1, x2 + x3 * b, y1, y2 + y3 * b);
    OrPush(c, x0, x1 + (x2 + x3 * b) * b, y0, y1 + (y2 + y3 * b) * b);
  }

  lemma OrPush(c: nat, x: nat, u: nat, y: nat, v: nat)
    requires x < Base(c) && y < Base(c)
    ensures Or(x + u * Base(c), y + v * Base(c)) == Or(x, y) + Or(u, v) * Base(c)
  {
    hide Or, Pow2;
    OrSplit(x, u, y, v, c);
  }

  lemma ShiftDown(c: nat, x0: nat, x1: nat, x2: nat, x3: nat)
    requires x0 < Base(c)
    ensures Shr(c, W4(Base(c), x0, x1, x2, x3)) == W4(Base(c), x1, x2, x3, 0)
  {
    hide Base;
    var b := Base(c);
    DivModUnique(W4(b, x0, x1, x2, x3), x1 + (x2 + x3 * b) * b, b, x0);
    assert 0 * b == 0;
  }

  lemma MaskWord(c: nat, x0: nat, x1: nat, x2: nat, x3: nat)
    requires x0 < Base(c) && x1 < Base(c) && x2 < Base(c)
    ensures And(W4(Base(c), x0, x1, x2, x3), RbMask(c)) == W4(Base(c), x0, 0, x2, 0)
  {
    hide And, W4;
    AndWord(c, x0, x1, x2, x3, Mask(c), 0, Mask(c), 0);
    Ones(x0, c);
    Ones(x2, c);
    AndZero(x1);
    AndZero(x3);
  }

  /** A double-width lane: its two components, and one more than the largest. */
  function Low(c: nat, x: nat): nat
  {
    x % Base(c)
  }

  function Wide(c: nat): nat
  {
    Base(c) * Base(c)
  }

  /** Two double-width lanes side by side. */
  function Two(c: nat, lo: nat, hi: nat): nat
  {
    lo + hi * Wide(c)
  }

  /** Two double-width lanes as four components. */
  lemma TwoLanes(c: nat, lo: nat, hi: nat)
    requires lo < Wide(c) && hi < Wide(c)
    ensures Low(c, lo) < Base(c) && Shr(c, lo) < Base(c) && Low(c, hi) < Base(c) && Shr(c, hi) < Base(c)
    ensures Two(c, lo, hi) == W4(Base(c), Low(c, lo), Shr(c, lo), Low(c, hi), Shr(c, hi))
  {
    var b := Base(c);
    DivMod(lo, b);
    DivMod(hi, b);
    DivBelow(lo, b);
    DivBelow(hi, b);
    MulAssoc(hi, b, b);
    assert (hi % b + hi / b * b) * b * b == hi * b * b;
    assert (lo / b + (hi % b + hi / b * b) * b) * b == lo / b * b + (hi % b + hi / b * b) * b * b;
  }

  lemma DivBelow(x: nat, b: nat)
    requires b > 0 && x < b * b
    ensures x / b < b
  {
    DivMod(x, b);
    if x / b >= b {
      MulMonotone(b, x / b, b);
    }
  }

  lemma PairIsTwo(c: nat, x: nat, y: nat)
    ensures W4(Base(c), x, 0, y, 0) == Two(c, x, y)
  {
    assert 0 * Base(c) == 0;
    MulAssoc(y, Base(c), Base(c));
  }

  lemma AddTwo(c: nat, x: nat, x': nat, y: nat, y': nat)
    ensures Two(c, x, y) + Two(c, x', y') == Two(c, x + x', y + y')
  {
  }

  lemma ScaleTwo(c: nat, x: nat, y: nat, a: nat)
    ensures x * a >= 0 && y * a >= 0 && Two(c, x, y) * a == Two(c, x * a, y * a)
  {
    var p := Wide(c);
    assert y * p * a == y * a * p;
  }

  /** `(t >> G_SHIFT) & RB_MASK`: the upper component of each double-width lane. */
  function Upper(c: nat, t: nat): nat
  {
    And(Shr(c, t), RbMask(c))
  }

  lemma UpperOfTwo(c: nat, lo: nat, hi: nat)
    requires lo < Wide(c) && hi < Wide(c)
    ensures Shr(c, lo) < Base(c) && Shr(c, hi) < Base(c)
    ensures Upper(c, Two(c, lo, hi)) == W4(Base(c), Shr(c, lo), 0, Shr(c, hi), 0)
    ensures InWord(c, Two(c, lo, hi))
  {
    hide And, W4, RbMask, Base, Low, Shr, Two, Wide, InWord;
    TwoLanes(c, lo, hi);
    WordFits(c, Low(c, lo), Shr(c, lo), Low(c, hi), Shr(c, hi));
    ShiftDown(c, Low(c, lo), Shr(c, lo), Low(c, hi), Shr(c, hi));
    MaskWord(c, Shr(c, lo), Low(c, hi), Shr(c, hi), 0);
  }

  lemma ProductRoom(c: nat, x: nat, a: nat)
    requires c >= 1 && x < Base(c) && a < Base(c)
    ensures 0 <= x * a <= Mask(c) * Mask(c)
  {
    BaseFacts(c);
    var m := Mask(c);
    MulMonotone(x, m, a);
    MulMonotone(a, m, m);
    assert a * m == m * a;
  }

  /** A product of components plus a half leaves room for the addition that follows. */
  lemma LaneRoom(c: nat, p: nat)
    requires c >= 1 && p <= Mask(c) * Mask(c)
    ensures p + Half(c) < Wide(c) && p + Half(c) + Shr(c, p + Half(c)) < Wide(c)
  {
    BaseFacts(c);
    var b, m, h := Base(c), Mask(c), Half(c);
    assert b * b == m * m + 2 * m + 1;
    DivBelow(p + h, b);
  }

  /** The two shifts and additions divide both lanes. */
  lemma DividePair(c: nat, p: nat, q: nat)
    requires c >= 1 && p <= Mask(c) * Mask(c) && q <= Mask(c) * Mask(c)
    ensures DivOne(c, p) < Base(c) && DivOne(c, q) < Base(c)
    ensures var t := Two(c, p + Half(c), q + Half(c));
      && InWord(c, t) && InWord(c, t + Upper(c, t))
      && Upper(c, t + Upper(c, t)) == W4(Base(c), DivOne(c, p), 0, DivOne(c, q), 0)
  {
    hide And, W4, RbMask, InWord, Base, Mask, Half, DivOne, Shr, Two, Wide, Upper;
    LaneRoom(c, p);
    LaneRoom(c, q);
    var lo, hi := p + Half(c), q + Half(c);
    UpperOfTwo(c, lo, hi);
    PairIsTwo(c, Shr(c, lo), Shr(c, hi));
    AddTwo(c, lo, Shr(c, lo), hi, Shr(c, hi));
    UpperOfTwo(c, lo + Shr(c, lo), hi + Shr(c, hi));
    DivOneIs(c, p);
    DivOneIs(c, q);
  }

  lemma DivOneIs(c: nat, p: nat)
    ensures DivOne(c, p) == Shr(c, p + Half(c) + Shr(c, p + Half(c)))
  {
  }

  lemma AddHalves(c: nat, p: nat, q: nat)
    ensures Two(c, p, q) + RbOneHalf(c) == Two(c, p + Half(c), q + Half(c))
  {
    hide W4, Half, Two, Wide, Base;
    PairIsTwo(c, Half(c), Half(c));
    AddTwo(c, p, Half(c), q, Half(c));
  }

  /** `MUL`: the rounded product of two components. */
  function MulUn8(c: nat, x: nat, a: nat): nat
  {
    DivOne(c, x * a)
  }

  // ---------------------------------------------------------------------------------------------
  // Two components at a time
  // ---------------------------------------------------------------------------------------------

  /** `x_rb = x_rb * a / Mask` */
  method RbMul(c: nat, x: nat, a: nat, ghost x0: nat, ghost x1: nat, ghost x2: nat, ghost x3: nat) returns (r: nat)
    requires c >= 1 && a < Base(c) && x0 < Base(c) && x1 < Base(c) && x2 < Base(c) && x3 < Base(c)
    requires x == W4(Base(c), x0, x1, x2, x3)
    ensures MulUn8(c, x0, a) < Base(c) && MulUn8(c, x2, a) < Base(c)
    ensures r == W4(Base(c), MulUn8(c, x0, a), 0, MulUn8(c, x2, a), 0)
  {
    hide And, RbMask, RbOneHalf, W4, InWord, Base, Mask, Half, DivOne, Shr, Two, Wide;
    MaskWord(c, x0, x1, x2, x3);
    PairIsTwo(c, x0, x2);
    ScaleTwo(c, x0, x2, a);
    AddHalves(c, x0 * a, x2 * a);
    ProductRoom(c, x0, a);
    ProductRoom(c, x2, a);
    DividePair(c, x0 * a, x2 * a);
    var t := And(x, RbMask(c)) * a;
    t := t + RbOneHalf(c);
    assert InWord(c, t);
    r := Shr(c, t + And(Shr(c, t), RbMask(c)));
    r := And(r, RbMask(c));
  }

  /** `MASK` and `R_MASK` */
  lemma PickLow(c: nat, x0: nat, x1: nat, x2: nat, x3: nat)
    requires x0 < Base(c) && x1 < Base(c) && x2 < Base(c)
    ensures And(W4(Base(c), x0, x1, x2, x3), Mask(c)) == x0
    ensures And(W4(Base(c), x0, x1, x2, x3), RMask(c)) == x2 * Wide(c)
  {
    hide And, Base, Mask;
    assert W4(Base(c), Mask(c), 0, 0, 0) == Mask(c);
    OnesBelow(c, x0);
    AndWord(c, x0, x1, x2, x3, Mask(c), 0, 0, 0);
    AndWord(c, x0, x1, x2, x3, 0, 0, Mask(c), 0);
    OnesBelow(c, x2);
    AndZero(x0);
    AndZero(x1);
    AndZero(x2);
    AndZero(x3);
    MulAssoc(x2, Base(c), Base(c));
  }

  lemma OnesBelow(c: nat, x: nat)
    requires x < Base(c)
    ensures And(x, Mask(c)) == x && Or(x, Mask(c)) == Mask(c) && Mask(c) < Base(c)
  {
    Ones(x, c);
  }

  function RMask(c: nat): nat
  {
    W4(Base(c), 0, 0, Mask(c), 0)
  }

  /** Or-ing lanes that do not meet is adding them. */
  lemma OrIsTwo(c: nat, lo: nat, hi: nat)
    requires lo < Wide(c)
    ensures Or(lo, hi * Wide(c)) == Two(c, lo, hi)
  {
    hide Or, Pow2;
    Pow2Add(c, c);
    OrSplit(lo, 0, 0, hi, c + c);
    OrZero(lo);
    assert Or(0, hi) == hi by {
      OrStart(hi);
    }
    assert 0 * Wide(c) == 0;
  }

  lemma OrStart(y: nat)
    ensures Or(0, y) == y
  {
  }

  /** `x_rb = x_rb * a_rb / Mask` */
  method RbMulRb(c: nat, x: nat, a: nat, ghost x0: nat, ghost x1: nat, ghost x2: nat, ghost x3: nat,
                 ghost a0: nat, ghost a1: nat, ghost a2: nat, ghost a3: nat) returns (r: nat)
    requires c >= 1 && x0 < Base(c) && x1 < Base(c) && x2 < Base(c) && x3 < Base(c)
    requires a0 < Base(c) && a1 < Base(c) && a2 < Base(c) && a3 < Base(c)
    requires x == W4(Base(c), x0, x1, x2, x3) && a == W4(Base(c), a0, a1, a2, a3)
    ensures MulUn8(c, x0, a0) < Base(c) && MulUn8(c, x2, a2) < Base(c)
    ensures r == W4(Base(c), MulUn8(c, x0, a0), 0, MulUn8(c, x2, a2), 0)
  {
    hide And, Or, RbMask, RbOneHalf, RMask, W4, InWord, Base, Mask, Half, DivOne, Shr, Two, Wide;
    PickLow(c, x0, x1, x2, x3);
    PickLow(c, a0, a1, a2, a3);
    ShiftDown(c, a0, a1, a2, a3);
    ShiftDown(c, a1, a2, a3, 0);
    PickLow(c, a2, a3, 0, 0);
    ProductRoom(c, x0, a0);
    ProductRoom(c, x2, a2);
    LaneRoom(c, x0 * a0);
    OrIsTwo(c, x0 * a0, x2 * a2);
    MoveFactor(x2, Wide(c), a2);
    AddHalves(c, x0 * a0, x2 * a2);
    DividePair(c, x0 * a0, x2 * a2);
    var t := And(x, Mask(c)) * And(a, Mask(c));
    t := Or(t, And(x, RMask(c)) * And(Shr(c, Shr(c, a)), Mask(c)));
    t := t + RbOneHalf(c);
    assert InWord(c, t);
    t := Shr(c, t + And(Shr(c, t), RbMask(c)));
    r := And(t, RbMask(c));
  }

  lemma MoveFactor(x: nat, p: nat, a: nat)
    ensures x * p * a == x * a * p
  {
  }

  /** The sum of two components, held to the largest. */
  function Saturated(c: nat, s: nat): (r: nat)
    ensures r < Base(c)
  {
    if s > Mask(c) then Mask(c) else s
  }

  /** `RB_MASK_PLUS_ONE` less the carries: ones where a lane overflowed, a bit out of the way elsewhere. */
  lemma Borrowed(c: nat, k: nat, l: nat)
    requires c >= 1 && k <= 1 && l <= 1
    ensures W4(Base(c), k, 0, l, 0) <= RbMaskPlusOne(c)
    ensures RbMaskPlusOne(c) - W4(Base(c), k, 0, l, 0)
         == W4(Base(c), if k == 1 then Mask(c) else 0, 1 - k, if l == 1 then Mask(c) else 0, 16 - l)
  {
    hide Base, Half, W4;
    BaseFacts(c);
    var b := Base(c);
    Expand(b, k, 0, l, 0);
    Expand(b, 0, 1, 0, 16);
    Expand(b, if k == 1 then b - 1 else 0, 1 - k, if l == 1 then b - 1 else 0, 16 - l);
    Cubed(b);
    TermsBorrowed(b, b * b, b * b * b, k, l);
  }

  lemma Cubed(b: nat)
    requires b >= 1
    ensures (b - 1) * (b * b) == b * b * b - b * b && b * b <= b * b * b
  {
    MulMonotone(1, b, b * b);
  }

  lemma TermsBorrowed(b: nat, p: nat, q: nat, k: nat, l: nat)
    requires k <= 1 && l <= 1 && b >= 1 && p <= q && (b - 1) * p == q - p
    ensures k + 0 * b + l * p + 0 * q <= 0 + 1 * b + 0 * p + 16 * q
    ensures (0 + 1 * b + 0 * p + 16 * q) - (k + 0 * b + l * p + 0 * q)
         == (if k == 1 then b - 1 else 0) + (1 - k) * b + (if l == 1 then b - 1 else 0) * p + (16 - l) * q
  {
    if l == 1 {
      assert (16 - l) * q == 15 * q && l * p == p;
    } else {
      assert (16 - l) * q == 16 * q && l * p == 0;
    }
  }

  lemma Expand(b: nat, x0: nat, x1: nat, x2: nat, x3: nat)
    ensures W4(b, x0, x1, x2, x3) == x0 + x1 * b + x2 * (b * b) + x3 * (b * b * b)
  {
    assert x3 * b * b * b == x3 * (b * b * b);
    assert x2 * b * b == x2 * (b * b);
    assert (x2 + x3 * b) * b == x2 * b + x3 * b * b;
    assert (x1 + (x2 + x3 * b) * b) * b == x1 * b + x2 * b * b + x3 * b * b * b;
  }

  /** Or-ing that in, and masking, saturates one lane. */
  lemma SaturateLane(c: nat, s: nat)
    requires c >= 1 && s < 2 * Base(c)
    ensures s < Wide(c) && Shr(c, s) <= 1 && Low(c, s) < Base(c)
    ensures Or(Low(c, s), if Shr(c, s) == 1 then Mask(c) else 0) == Saturated(c, s) < Base(c)
  {
    hide Or;
    BaseFacts(c);
    var b := Base(c);
    MulMonotone(2, b, b);
    if s < b {
      DivModUnique(s, 0, b, s);
      OrZero(s);
    } else {
      DivModUnique(s, 1, b, s - b);
      OnesBelow(c, s - b);
    }
  }

  /** `x_rb = min (x_rb + y_rb, Mask)` */
  method RbAdd(c: nat, x: nat, y: nat, ghost x0: nat, ghost x2: nat, ghost y0: nat, ghost y2: nat) returns (r: nat)
    requires c >= 1 && x0 < Base(c) && x2 < Base(c) && y0 < Base(c) && y2 < Base(c)
    requires x == W4(Base(c), x0, 0, x2, 0) && y == W4(Base(c), y0, 0, y2, 0)
    ensures r == W4(Base(c), Saturated(c, x0 + y0), 0, Saturated(c, x2 + y2), 0)
  {
    hide And, Or, RbMask, RbMaskPlusOne, W4, Base, Mask, Shr, Low, Two, Wide, Saturated, InWord;
    ghost var s0, s2 := x0 + y0, x2 + y2;
    PairIsTwo(c, x0, x2);
    PairIsTwo(c, y0, y2);
    AddTwo(c, x0, y0, x2, y2);
    SaturateLane(c, s0);
    SaturateLane(c, s2);
    UpperOfTwo(c, s0, s2);
    TwoLanes(c, s0, s2);
    Borrowed(c, Shr(c, s0), Shr(c, s2));
    var t := x + y;
    assert InWord(c, t);
    FilledLanes(c, s0, s2);
    t := Or(t, RbMaskPlusOne(c) - And(Shr(c, t), RbMask(c)));
    r := And(t, RbMask(c));
  }

  lemma FilledLanes(c: nat, s0: nat, s2: nat)
    requires c >= 1 && s0 < 2 * Base(c) && s2 < 2 * Base(c) && Shr(c, s0) <= 1 && Shr(c, s2) <= 1
    ensures var k, l := Shr(c, s0), Shr(c, s2);
      And(Or(W4(Base(c), Low(c, s0), k, Low(c, s2), l),
             W4(Base(c), if k == 1 then Mask(c) else 0, 1 - k, if l == 1 then Mask(c) else 0, 16 - l)), RbMask(c))
      == W4(Base(c), Saturated(c, s0), 0, Saturated(c, s2), 0)
  {
    hide And, Or, RbMask, W4, Shr, Low, Saturated;
    BaseFacts(c);
    hide Base, Mask, Half;
    SaturateLane(c, s0);
    SaturateLane(c, s2);
    var k, l := Shr(c, s0), Shr(c, s2);
    OrWord(c, Low(c, s0), k, Low(c, s2), l, if k == 1 then Mask(c) else 0, 1 - k, if l == 1 then Mask(c) else 0,
           16 - l);
    OrBit(k);
    MaskWord(c, Saturated(c, s0), Or(k, 1 - k), Saturated(c, s2), Or(l, 16 - l));
  }

  lemma OrBit(k: nat)
    requires k <= 1
    ensures Or(k, 1 - k) == 1
  {
    assert Or(0, 0) == 0;
  }

  // ---------------------------------------------------------------------------------------------
  // Four components at a time
  // ---------------------------------------------------------------------------------------------

  /** A pixel: three colours and alpha. */
  datatype Pixel = Pixel(b: nat, g: nat, r: nat, a: nat)

  ghost predicate Fits(c: nat, p: Pixel)
  {
    p.b < Base(c) && p.g < Base(c) && p.r < Base(c) && p.a < Base(c)
  }

  function Pack(c: nat, p: Pixel): nat
  {
    W4(Base(c), p.b, p.g, p.r, p.a)
  }

  /** Every component times `a`. */
  function Scale(c: nat, p: Pixel, a: nat): Pixel
  {
    Pixel(MulUn8(c, p.b, a), MulUn8(c, p.g, a), MulUn8(c, p.r, a), MulUn8(c, p.a, a))
  }

  /** Component times component. */
  function Times(c: nat, p: Pixel, q: Pixel): Pixel
  {
    Pixel(MulUn8(c, p.b, q.b), MulUn8(c, p.g, q.g), MulUn8(c, p.r, q.r), MulUn8(c, p.a, q.a))
  }

  /** Component plus component, held to the largest. */
  function Plus(c: nat, p: Pixel, q: Pixel): Pixel
  {
    Pixel(Saturated(c, p.b + q.b), Saturated(c, p.g + q.g), Saturated(c, p.r + q.r), Saturated(c, p.a + q.a))
  }

  /** The word taken apart into blue and red, and shifted, green and alpha. */
  lemma Halves(c: nat, p: Pixel)
    requires Fits(c, p)
    ensures Shr(c, Pack(c, p)) == W4(Base(c), p.g, p.r, p.a, 0)
  {
    hide W4, Shr, Base;
    ShiftDown(c, p.b, p.g, p.r, p.a);
  }

  function Shl(c: nat, x: nat): nat
  {
    x * Base(c)
  }

  /** `r1 | (r2 << G_SHIFT)` puts the halves together. */
  lemma Joined(c: nat, p: Pixel)
    requires Fits(c, p)
    ensures Or(W4(Base(c), p.b, 0, p.r, 0), Shl(c, W4(Base(c), p.g, 0, p.a, 0))) == Pack(c, p)
  {
    hide Or, Base;
    assert Shl(c, W4(Base(c), p.g, 0, p.a, 0)) == W4(Base(c), 0, p.g, 0, p.a);
    OrWord(c, p.b, 0, p.r, 0, 0, p.g, 0, p.a);
    OrZero(p.b);
    OrZero(p.r);
    OrStart(p.g);
    OrStart(p.a);
  }

  lemma MulFits(c: nat, x: nat, a: nat)
    requires c >= 1 && x < Base(c) && a < Base(c)
    ensures MulUn8(c, x, a) < Base(c)
  {
    hide Base, Mask, DivOne;
    ProductRoom(c, x, a);
    DivOneNearest(c, x * a);
    MaskIs(c);
  }

  lemma MaskIs(c: nat)
    ensures Mask(c) + 1 == Base(c)
  {
  }

  lemma ScaleFits(c: nat, p: Pixel, a: nat)
    requires c >= 1 && Fits(c, p) && a < Base(c)
    ensures Fits(c, Scale(c, p, a))
  {
    hide MulUn8, Base;
    MulFits(c, p.b, a);
    MulFits(c, p.g, a);
    MulFits(c, p.r, a);
    MulFits(c, p.a, a);
  }

  lemma TimesFits(c: nat, p: Pixel, q: Pixel)
    requires c >= 1 && Fits(c, p) && Fits(c, q)
    ensures Fits(c, Times(c, p, q))
  {
    hide MulUn8, Base;
    MulFits(c, p.b, q.b);
    MulFits(c, p.g, q.g);
    MulFits(c, p.r, q.r);
    MulFits(c, p.a, q.a);
  }

  lemma PlusFits(c: nat, p: Pixel, q: Pixel)
    ensures Fits(c, Plus(c, p, q))
  {
  }

  /** `(y >> G_SHIFT) & RB_MASK` and `y & RB_MASK` */
  lemma MaskedHalves(c: nat, p: Pixel)
    requires Fits(c, p)
    ensures And(Pack(c, p), RbMask(c)) == W4(Base(c), p.b, 0, p.r, 0)
    ensures And(Shr(c, Pack(c, p)), RbMask(c)) == W4(Base(c), p.g, 0, p.a, 0)
  {
    hide And, RbMask, W4, Shr, Base;
    Halves(c, p);
    MaskWord(c, p.b, p.g, p.r, p.a);
    MaskWord(c, p.g, p.r, p.a, 0);
  }

  lemma BasePositive(c: nat)
    ensures 0 < Base(c)
  {
  }

  /** `x_c = x_c * a / Mask` */
  method Un8x4Mul(c: nat, x: nat, a: nat, ghost p: Pixel) returns (r: nat)
    requires c >= 1 && Fits(c, p) && a < Base(c) && x == Pack(c, p)
    ensures Fits(c, Scale(c, p, a)) && r == Pack(c, Scale(c, p, a))
  {
    hide W4, Or, Shr, Shl, Base, MulUn8;
    BasePositive(c);
    Halves(c, p);
    ScaleFits(c, p, a);
    Joined(c, Scale(c, p, a));
    var r1 := RbMul(c, x, a, p.b, p.g, p.r, p.a);
    var r2 := RbMul(c, Shr(c, x), a, p.g, p.r, p.a, 0);
    r := Or(r1, Shl(c, r2));
  }

  /** `x_c = x_c * a / Mask + y_c` */
  method Un8x4MulAdd(c: nat, x: nat, a: nat, y: nat, ghost p: Pixel, ghost q: Pixel) returns (r: nat)
    requires c >= 1 && Fits(c, p) && Fits(c, q) && a < Base(c) && x == Pack(c, p) && y == Pack(c, q)
    ensures Fits(c, Plus(c, Scale(c, p, a), q)) && r == Pack(c, Plus(c, Scale(c, p, a), q))
  {
    hide And, W4, Or, Shr, Shl, Base, MulUn8, RbMask, Saturated;
    BasePositive(c);
    Halves(c, p);
    MaskedHalves(c, q);
    ScaleFits(c, p, a);
    ghost var s := Scale(c, p, a);
    PlusFits(c, s, q);
    Joined(c, Plus(c, s, q));
    var r1 := RbMul(c, x, a, p.b, p.g, p.r, p.a);
    r1 := RbAdd(c, r1, And(y, RbMask(c)), s.b, s.r, q.b, q.r);
    var r2 := RbMul(c, Shr(c, x), a, p.g, p.r, p.a, 0);
    r2 := RbAdd(c, r2, And(Shr(c, y), RbMask(c)), s.g, s.a, q.g, q.a);
    r := Or(r1, Shl(c, r2));
  }

  /** `x_c = x_c * a / Mask + y_c * b / Mask` */
  method Un8x4MulAddMul(c: nat, x: nat, a: nat, y: nat, b: nat, ghost p: Pixel, ghost q: Pixel) returns (r: nat)
    requires c >= 1 && Fits(c, p) && Fits(c, q) && a < Base(c) && b < Base(c) && x == Pack(c, p) && y == Pack(c, q)
    ensures Fits(c, Plus(c, Scale(c, p, a), Scale(c, q, b))) && r == Pack(c, Plus(c, Scale(c, p, a), Scale(c, q, b)))
  {
    hide And, W4, Or, Shr, Shl, Base, MulUn8, RbMask, Saturated;
    BasePositive(c);
    Halves(c, p);
    Halves(c, q);
    ScaleFits(c, p, a);
    ScaleFits(c, q, b);
    ghost var s, t := Scale(c, p, a), Scale(c, q, b);
    PlusFits(c, s, t);
    Joined(c, Plus(c, s, t));
    var r1 := RbMul(c, x, a, p.b, p.g, p.r, p.a);
    var r2 := RbMul(c, y, b, q.b, q.g, q.r, q.a);
    r1 := RbAdd(c, r1, r2, s.b, s.r, t.b, t.r);
    r2 := RbMul(c, Shr(c, x), a, p.g, p.r, p.a, 0);
    var r3 := RbMul(c, Shr(c, y), b, q.g, q.r, q.a, 0);
    r2 := RbAdd(c, r2, r3, s.g, s.a, t.g, t.a);
    r := Or(r1, Shl(c, r2));
  }

  /** `x_c = x_c * a_c / Mask` */
  method Un8x4Mul4(c: nat, x: nat, y: nat, ghost p: Pixel, ghost q: Pixel) returns (r: nat)
    requires c >= 1 && Fits(c, p) && Fits(c, q) && x == Pack(c, p) && y == Pack(c, q)
    ensures Fits(c, Times(c, p, q)) && r == Pack(c, Times(c, p, q))
  {
    hide W4, Or, Shr, Shl, Base, MulUn8;
    BasePositive(c);
    Halves(c, p);
    Halves(c, q);
    TimesFits(c, p, q);
    Joined(c, Times(c, p, q));
    var r1 := RbMulRb(c, x, y, p.b, p.g, p.r, p.a, q.b, q.g, q.r, q.a);
    var r2 := RbMulRb(c, Shr(c, x), Shr(c, y), p.g, p.r, p.a, 0, q.g, q.r, q.a, 0);
    r := Or(r1, Shl(c, r2));
  }

  /** `x_c = x_c * a_c / Mask + y_c` */
  method Un8x4Mul4Add(c: nat, x: nat, a: nat, y: nat, ghost p: Pixel, ghost m: Pixel, ghost q: Pixel) returns (r: nat)
    requires c >= 1 && Fits(c, p) && Fits(c, m) && Fits(c, q) && x == Pack(c, p) && a == Pack(c, m) && y == Pack(c, q)
    ensures Fits(c, Plus(c, Times(c, p, m), q)) && r == Pack(c, Plus(c, Times(c, p, m), q))
  {
    hide And, W4, Or, Shr, Shl, Base, MulUn8, RbMask, Saturated;
    BasePositive(c);
    Halves(c, p);
    Halves(c, m);
    MaskedHalves(c, q);
    TimesFits(c, p, m);
    ghost var s := Times(c, p, m);
    PlusFits(c, s, q);
    Joined(c, Plus(c, s, q));
    var r1 := RbMulRb(c, x, a, p.b, p.g, p.r, p.a, m.b, m.g, m.r, m.a);
    r1 := RbAdd(c, r1, And(y, RbMask(c)), s.b, s.r, q.b, q.r);
    var r2 := RbMulRb(c, Shr(c, x), Shr(c, a), p.g, p.r, p.a, 0, m.g, m.r, m.a, 0);
    r2 := RbAdd(c, r2, And(Shr(c, y), RbMask(c)), s.g, s.a, q.g, q.a);
    r := Or(r1, Shl(c, r2));
  }

  /** `x_c = x_c * a_c / Mask + y_c * b / Mask` */
  method Un8x4Mul4AddMul(c: nat, x: nat, a: nat, y: nat, b: nat, ghost p: Pixel, ghost m: Pixel, ghost q: Pixel)
      returns (r: nat)
    requires c >= 1 && Fits(c, p) && Fits(c, m) && Fits(c, q) && b < Base(c)
    requires x == Pack(c, p) && a == Pack(c, m) && y == Pack(c, q)
    ensures Fits(c, Plus(c, Times(c, p, m), Scale(c, q, b))) && r == Pack(c, Plus(c, Times(c, p, m), Scale(c, q, b)))
  {
    hide And, W4, Or, Shr, Shl, Base, MulUn8, RbMask, Saturated;
    BasePositive(c);
    Halves(c, p);
    Halves(c, m);
    Halves(c, q);
    TimesFits(c, p, m);
    ScaleFits(c, q, b);
    ghost var s, t := Times(c, p, m), Scale(c, q, b);
    PlusFits(c, s, t);
    Joined(c, Plus(c, s, t));
    var r1 := RbMulRb(c, x, a, p.b, p.g, p.r, p.a, m.b, m.g, m.r, m.a);
    var r2 := RbMul(c, y, b, q.b, q.g, q.r, q.a);
    r1 := RbAdd(c, r1, r2, s.b, s.r, t.b, t.r);
    r2 := RbMulRb(c, Shr(c, x), Shr(c, a), p.g, p.r, p.a, 0, m.g, m.r, m.a, 0);
    var r3 := RbMul(c, Shr(c, y), b, q.g, q.r, q.a, 0);
    r2 := RbAdd(c, r2, r3, s.g, s.a, t.g, t.a);
    r := Or(r1, Shl(c, r2));
  }

  /** `x_c = min (x_c + y_c, Mask)` */
  method Un8x4Add(c: nat, x: nat, y: nat, ghost p: Pixel, ghost q: Pixel) returns (r: nat)
    requires c >= 1 && Fits(c, p) && Fits(c, q) && x == Pack(c, p) && y == Pack(c, q)
    ensures Fits(c, Plus(c, p, q)) && r == Pack(c, Plus(c, p, q))
  {
    hide And, W4, Or, Shr, Shl, Base, RbMask, Saturated;
    MaskedHalves(c, p);
    MaskedHalves(c, q);
    PlusFits(c, p, q);
    Joined(c, Plus(c, p, q));
    var r1 := RbAdd(c, And(x, RbMask(c)), And(y, RbMask(c)), p.b, p.r, q.b, q.r);
    var r2 := RbAdd(c, And(Shr(c, x), RbMask(c)), And(Shr(c, y), RbMask(c)), p.g, p.a, q.g, q.a);
    r := Or(r1, Shl(c, r2));
  }
}
