/** Several colour components in one machine word, for any component width;
    8 and 16 are the widths in use. */
module Lanes {
  import opened BitMath

  /** One more than the largest component, the largest, and half. */
  function Base(c: nat): (b: nat)
    ensures b > 0
  {
    Pow2(c)
  }

  lemma BaseFacts(c: nat)
    requires c >= 1
    ensures Base(c) >= 2 && Base(c) % 2 == 0 && Half(c) >= 1 && Base(c) == 2 * Half(c)
    ensures Mask(c) == Base(c) - 1 == 2 * Half(c) - 1
  {
    assert Pow2(c) == 2 * Pow2(c - 1);
  }

  function Half(c: nat): nat
  {
    Base(c) / 2
  }

  function Mask(c: nat): nat
  {
    Base(c) - 1
  }

  function Quotient(x: nat, d: nat): nat
    requires d > 0
  {
    x / d
  }

  // ---------------------------------------------------------------------------------------------
  // Rounding division by the largest component
  // ---------------------------------------------------------------------------------------------

  /** `DIV_ONE`: division by `Mask`, done with shifts. */
  function DivOne(c: nat, p: nat): nat
  {
    (p + Half(c) + (p + Half(c)) / Base(c)) / Base(c)
  }

  /** `p` divided by `m` and rounded to nearest is `q`. */
  ghost predicate Nearest(m: int, p: int, q: int)
  {
    -m < 2 * (p - m * q) < m
  }

  lemma NearestUnique(m: int, p: int, q: int, q': int)
    requires m > 0 && Nearest(m, p, q) && Nearest(m, p, q')
    ensures q == q'
  {
    if q < q' {
      MulStep(q, q', m);
    } else if q' < q {
      MulStep(q', q, m);
    }
  }

  /** The shifts round to nearest, for every product of two components and a little beyond. */
  lemma DivOneNearest(c: nat, p: nat)
    requires c >= 1 && p <= Mask(c) * Mask(c)
    ensures Nearest(Mask(c), p, DivOne(c, p)) && DivOne(c, p) <= Mask(c)
  {
    hide Base, Half, Nearest;
    BaseFacts(c);
    var b, h, m := Base(c), Half(c), Mask(c);
    var q := (p + (h - 1)) / m;
    var e := p - m * q;
    NearestQuotient(p, m, h, q);
    ShiftsDivide(p, b, h, m, q, e);
  }

  lemma NearestQuotient(p: nat, m: nat, h: nat, q: nat)
    requires m == 2 * h - 1 && h >= 1 && p <= m * m && q == (p + (h - 1)) / m
    ensures Nearest(m, p, q) && q <= m
  {
    DivMod(p + (h - 1), m);
    assert q * m == m * q;
    if q > m {
      MulStep(m, q, m);
    }
  }

  lemma ShiftsDivide(p: nat, b: nat, h: nat, m: int, q: nat, e: int)
    requires b == 2 * h && m == b - 1 && h >= 1 && q <= m && e == p - m * q && -m < 2 * e < m
    ensures (p + h + (p + h) / b) / b == q
  {
    assert m * q == b * q - q && b * q == q * b;
    var t := p + h;
    assert t == q * b + (e + h - q);
    if e + h - q >= 0 {
      DivModUnique(t, q, b, e + h - q);
      DivModUnique(t + q, q, b, e + h);
    } else {
      assert (q - 1) * b == q * b - b;
      DivModUnique(t, q - 1, b, e + h - q + b);
      DivModUnique(t + (q - 1), q, b, e + h - 1);
    }
  }

  /** Rounding keeps order. */
  lemma DivOneMonotone(c: nat, p: nat, p': nat)
    requires c >= 1 && p <= p'
    ensures DivOne(c, p) <= DivOne(c, p')
  {
    hide Base, Half, Quotient;
    var b, h := Base(c), Half(c);
    QuotientIs(p + h, b);
    QuotientIs(p' + h, b);
    QuotientIs(p + h + Quotient(p + h, b), b);
    QuotientIs(p' + h + Quotient(p' + h, b), b);
    QuotientMonotone(p + h, p' + h, b);
    QuotientMonotone(p + h + Quotient(p + h, b), p' + h + Quotient(p' + h, b), b);
  }

  lemma QuotientIs(x: nat, d: nat)
    requires d > 0
    ensures Quotient(x, d) == x / d
  {
  }

  lemma QuotientMonotone(x: nat, y: nat, d: nat)
    requires d > 0 && x <= y
    ensures Quotient(x, d) <= Quotient(y, d)
  {
    DivMonotone(x, y, d);
  }

  /** Two parts of a whole multiple, each rounded, still make up that multiple: there are no ties. */
  lemma Complement(c: nat, p: nat, p': nat, k: nat)
    requires c >= 1 && p + p' == Mask(c) * k && k <= Mask(c)
    ensures DivOne(c, p) + DivOne(c, p') == k
  {
    hide Base, Half, DivOne, Nearest;
    BaseFacts(c);
    var m := Mask(c);
    MulMonotone(k, m, m);
    assert k * m == m * k;
    DivOneNearest(c, p);
    DivOneNearest(c, p');
    OtherNearest(m, p, p', k, DivOne(c, p));
    NearestUnique(m, p', k - DivOne(c, p), DivOne(c, p'));
  }

  lemma OtherNearest(m: int, p: int, p': int, k: int, q: int)
    requires Nearest(m, p, q) && p + p' == m * k
    ensures Nearest(m, p', k - q)
  {
    assert m * (k - q) == m * k - m * q;
  }

  lemma DivOneWhole(c: nat, k: nat)
    requires c >= 1 && k <= Mask(c)
    ensures DivOne(c, Mask(c) * k) == k && DivOne(c, 0) == 0
  {
    BaseFacts(c);
    MulMonotone(k, Mask(c), Mask(c));
    assert k * Mask(c) == Mask(c) * k;
    DivOneNearest(c, Mask(c) * k);
    NearestUnique(Mask(c), Mask(c) * k, k, DivOne(c, Mask(c) * k));
    DivOneNearest(c, 0);
    assert Mask(c) * 0 == 0;
    NearestUnique(Mask(c), 0, 0, DivOne(c, 0));
  }

  // ---------------------------------------------------------------------------------------------
  // Bitwise operators
  // ---------------------------------------------------------------------------------------------

  function And(x: nat, y: nat): nat
  {
    if x == 0 then 0 else (if x % 2 == 1 && y % 2 == 1 then 1 else 0) + 2 * And(x / 2, y / 2)
  }

  function Or(x: nat, y: nat): nat
  {
    if x == 0 then y else (if x % 2 == 1 || y % 2 == 1 then 1 else 0) + 2 * Or(x / 2, y / 2)
  }

  lemma {:induction false} AndZero(x: nat)
    ensures And(x, 0) == 0
  {
    if x > 0 {
      AndZero(x / 2);
    }
  }

  lemma {:induction false} OrZero(x: nat)
    ensures Or(x, 0) == x
  {
    if x > 0 {
      OrZero(x / 2);
    }
  }

  lemma DoubleParts(x: nat, u: nat, p: nat)
    ensures (x + u * (2 * p)) % 2 == x % 2 && (x + u * (2 * p)) / 2 == x / 2 + u * p
  {
    assert u * (2 * p) == 2 * (u * p);
  }

  /** Masking works on the parts below and above any bit separately. */
  lemma {:induction false} AndSplit(x: nat, u: nat, y: nat, v: nat, k: nat)
    requires x < Pow2(k) && y < Pow2(k)
    ensures And(x + u * Pow2(k), y + v * Pow2(k)) == And(x, y) + And(u, v) * Pow2(k)
    decreases k
  {
    hide And;
    if k > 0 {
      var p := Pow2(k - 1);
      AndSplit(x / 2, u, y / 2, v, k - 1);
      AndHigher(x, u, y, v, p);
    } else {
      assert x == 0 && y == 0 && Pow2(0) == 1;
      AndZero(0);
    }
  }

  lemma AndHigher(x: nat, u: nat, y: nat, v: nat, p: nat)
    requires And(x / 2 + u * p, y / 2 + v * p) == And(x / 2, y / 2) + And(u, v) * p
    ensures And(x + u * (2 * p), y + v * (2 * p)) == And(x, y) + And(u, v) * (2 * p)
  {
    hide And;
    DoubleParts(x, u, p);
    DoubleParts(y, v, p);
    AndStep(x, y);
    AndStep(x + u * (2 * p), y + v * (2 * p));
    MulDouble(And(u, v), p);
  }

  lemma AndStep(x: nat, y: nat)
    ensures And(x, y) == (if x % 2 == 1 && y % 2 == 1 then 1 else 0) + 2 * And(x / 2, y / 2)
  {
  }

  lemma OrStep(x: nat, y: nat)
    ensures Or(x, y) == (if x % 2 == 1 || y % 2 == 1 then 1 else 0) + 2 * Or(x / 2, y / 2)
  {
  }

  lemma {:induction false} OrSplit(x: nat, u: nat, y: nat, v: nat, k: nat)
    requires x < Pow2(k) && y < Pow2(k)
    ensures Or(x + u * Pow2(k), y + v * Pow2(k)) == Or(x, y) + Or(u, v) * Pow2(k)
    decreases k
  {
    hide Or;
    if k > 0 {
      var p := Pow2(k - 1);
      OrSplit(x / 2, u, y / 2, v, k - 1);
      OrHigher(x, u, y, v, p);
    } else {
      assert x == 0 && y == 0 && Pow2(0) == 1;
      OrZero(0);
    }
  }

  lemma OrHigher(x: nat, u: nat, y: nat, v: nat, p: nat)
    requires Or(x / 2 + u * p, y / 2 + v * p) == Or(x / 2, y / 2) + Or(u, v) * p
    ensures Or(x + u * (2 * p), y + v * (2 * p)) == Or(x, y) + Or(u, v) * (2 * p)
  {
    hide Or;
    DoubleParts(x, u, p);
    DoubleParts(y, v, p);
    OrStep(x, y);
    OrStep(x + u * (2 * p), y + v * (2 * p));
    MulDouble(Or(u, v), p);
  }

  /** A mask of ones keeps what it covers; or-ing ones fills it. */
  lemma {:induction false} Ones(x: nat, k: nat)
    requires x < Pow2(k)
    ensures And(x, Pow2(k) - 1) == x && Or(x, Pow2(k) - 1) == Pow2(k) - 1
    decreases k
  {
    if k > 0 {
      Ones(x / 2, k - 1);
      OnesStep(x, Pow2(k - 1));
    }
  }

  lemma OnesStep(x: nat, p: nat)
    requires p > 0 && x < 2 * p && And(x / 2, p - 1) == x / 2 && Or(x / 2, p - 1) == p - 1
    ensures And(x, 2 * p - 1) == x && Or(x, 2 * p - 1) == 2 * p - 1
  {
    hide And, Or;
    AndStep(x, 2 * p - 1);
    OrStep(x, 2 * p - 1);
    assert (2 * p - 1) / 2 == p - 1 && (2 * p - 1) % 2 == 1;
  }
}
