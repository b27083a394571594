/** Porter-Duff operators and PDF blend modes on premultiplied pixels, component by component. */
module Blend {
  import opened BitMath
  import opened Lanes
  import opened Packed

  datatype Mode = Screen | Overlay | Darken | Lighten | ColorDodge | ColorBurn | HardLight | Difference | Exclusion

  datatype Op = Over | OverReverse | In | InReverse | Out | OutReverse | Atop | AtopReverse | Xor | Add | Saturate
              | Multiply | Pdf(mode: Mode)

  /** Colours no larger than alpha. */
  predicate Premultiplied(p: Pixel)
  {
    p.b <= p.a && p.g <= p.a && p.r <= p.a
  }

  /** `Mask - x` */
  function Inverse(c: nat, x: nat): nat
    requires x < Base(c)
  {
    Mask(c) - x
  }

  /** `DIV`: `a / b` on the scale of components. */
  function DivUn8(c: nat, a: nat, b: nat): nat
    requires b > 0
  {
    Quotient(a * Mask(c) + b / 2, b)
  }

  // ---------------------------------------------------------------------------------------------
  // Blend functions
  // ---------------------------------------------------------------------------------------------

  function Min(x: int, y: int): int
  {
    if x < y then x else y
  }

  function Max(x: int, y: int): int
  {
    if x > y then x else y
  }

  function ScreenOf(dca: int, da: int, sca: int, sa: int): int
  {
    sca * da + dca * sa - sca * dca
  }

  function OverlayOf(dca: int, da: int, sca: int, sa: int): int
  {
    if 2 * dca < da then 2 * sca * dca else sa * da - 2 * (da - dca) * (sa - sca)
  }

  function DarkenOf(dca: int, da: int, sca: int, sa: int): int
  {
    Min(dca * sa, sca * da)
  }

  function LightenOf(dca: int, da: int, sca: int, sa: int): int
  {
    Max(dca * sa, sca * da)
  }

  function ColorDodgeOf(dca: int, da: int, sca: int, sa: int): int
  {
    if sca >= sa then if dca == 0 then 0 else sa * da
    else sa * Min(dca * sa / (sa - sca), da)
  }

  function ColorBurnOf(dca: int, da: int, sca: int, sa: int): int
  {
    if sca == 0 then if dca < da then 0 else sa * da
    else var rca := (da - dca) * sa / sca; sa * (Max(rca, da) - rca)
  }

  function HardLightOf(dca: int, da: int, sca: int, sa: int): int
  {
    if 2 * sca < sa then 2 * sca * dca else sa * da - 2 * (da - dca) * (sa - sca)
  }

  function DifferenceOf(dca: int, da: int, sca: int, sa: int): int
  {
    if sca * da < dca * sa then dca * sa - sca * da else sca * da - dca * sa
  }

  function ExclusionOf(dca: int, da: int, sca: int, sa: int): int
  {
    sca * da + dca * sa - 2 * dca * sca
  }

  /** B(Dca, Da, Sca, Sa), on the scale of products of two components. */
  function Raw(mode: Mode, dca: int, da: int, sca: int, sa: int): int
  {
    match mode
    case Screen => ScreenOf(dca, da, sca, sa)
    case Overlay => OverlayOf(dca, da, sca, sa)
    case Darken => DarkenOf(dca, da, sca, sa)
    case Lighten => LightenOf(dca, da, sca, sa)
    case ColorDodge => ColorDodgeOf(dca, da, sca, sa)
    case ColorBurn => ColorBurnOf(dca, da, sca, sa)
    case HardLight => HardLightOf(dca, da, sca, sa)
    case Difference => DifferenceOf(dca, da, sca, sa)
    case Exclusion => ExclusionOf(dca, da, sca, sa)
  }

  lemma ProductSign(x: int, y: int)
    requires x >= 0 && y >= 0
    ensures x * y >= 0
  {
  }

  lemma ProductOrder(x: int, x': int, y: int)
    requires x <= x' && y >= 0
    ensures x * y <= x' * y && y * x <= y * x'
  {
    MulMonotone(x, x', y);
  }

  /** Products that every bound below is made of. */
  lemma Products(dca: int, da: int, sca: int, sa: int)
    requires 0 <= dca <= da && 0 <= sca <= sa
    ensures 0 <= sca * da <= sa * da && 0 <= dca * sa <= sa * da && 0 <= sca * dca == dca * sca
    ensures 0 <= sca * da - sca * dca && 0 <= dca * sa - sca * dca
    ensures 0 <= sa * da - dca * sa - sca * da + sca * dca
  {
    ProductSign(sca, da - dca);
    ProductSign(dca, sa - sca);
    ProductSign(sa - sca, da - dca);
    ProductSign(sca, dca);
    assert (sa - sca) * (da - dca) == sa * da - sa * dca - sca * da + sca * dca;
    assert sca * (da - dca) == sca * da - sca * dca;
    assert dca * (sa - sca) == dca * sa - dca * sca;
  }

  lemma SimpleBounds(dca: int, da: int, sca: int, sa: int)
    requires 0 <= dca <= da && 0 <= sca <= sa
    ensures 0 <= ScreenOf(dca, da, sca, sa) <= sa * da && 0 <= ExclusionOf(dca, da, sca, sa) <= sa * da
    ensures 0 <= DarkenOf(dca, da, sca, sa) <= sa * da && 0 <= LightenOf(dca, da, sca, sa) <= sa * da
    ensures 0 <= DifferenceOf(dca, da, sca, sa) <= sa * da
  {
    Products(dca, da, sca, sa);
    assert 2 * dca * sca == 2 * (dca * sca);
  }

  /** The two halves of overlay and of hard light, which differ in what decides between them. */
  lemma LightBounds(x: int, xa: int, y: int, ya: int)
    requires 0 <= x <= xa && 0 <= y <= ya
    ensures 2 * y < ya ==> 0 <= 2 * y * x <= xa * ya
    ensures 2 * y >= ya ==> 0 <= xa * ya - 2 * (ya - y) * (xa - x) <= xa * ya
  {
    if 2 * y < ya {
      ProductSign(2 * y, x);
      ProductOrder(2 * y, ya, x);
      ProductOrder(x, xa, ya);
    } else {
      ProductSign(2 * (ya - y), xa - x);
      ProductOrder(2 * (ya - y), ya, xa - x);
      ProductOrder(xa - x, xa, ya);
    }
  }

  lemma HardLightBounds(dca: int, da: int, sca: int, sa: int)
    requires 0 <= dca <= da && 0 <= sca <= sa
    ensures 0 <= HardLightOf(dca, da, sca, sa) <= sa * da
  {
    LightBounds(dca, da, sca, sa);
    assert da * sa == sa * da;
    assert 2 * (sa - sca) * (da - dca) == 2 * (da - dca) * (sa - sca);
  }

  lemma OverlayBounds(dca: int, da: int, sca: int, sa: int)
    requires 0 <= dca <= da && 0 <= sca <= sa
    ensures 0 <= OverlayOf(dca, da, sca, sa) <= sa * da
  {
    LightBounds(sca, sa, dca, da);
    assert 2 * dca * sca == 2 * sca * dca;
  }

  lemma DodgeBounds(dca: int, da: int, sca: int, sa: int)
    requires 0 <= dca <= da && 0 <= sca <= sa
    ensures 0 <= ColorDodgeOf(dca, da, sca, sa) <= sa * da
  {
    ProductSign(sa, da);
    if sca < sa {
      ProductSign(dca, sa);
      var q := dca * sa / (sa - sca);
      QuotientSign(dca * sa, sa - sca);
      ProductOrder(Min(q, da), da, sa);
      ProductSign(sa, Min(q, da));
    }
  }

  lemma BurnBounds(dca: int, da: int, sca: int, sa: int)
    requires 0 <= dca <= da && 0 <= sca <= sa
    ensures 0 <= ColorBurnOf(dca, da, sca, sa) <= sa * da
  {
    ProductSign(sa, da);
    if sca > 0 {
      ProductSign(da - dca, sa);
      var q := (da - dca) * sa / sca;
      QuotientSign((da - dca) * sa, sca);
      ProductOrder(Max(q, da) - q, da, sa);
      ProductSign(sa, Max(q, da) - q);
    }
  }

  lemma QuotientSign(x: int, d: int)
    requires x >= 0 && d > 0
    ensures x / d >= 0
  {
  }

  /** Every mode gives at least nothing and at most full coverage. */
  lemma RawBounds(mode: Mode, dca: int, da: int, sca: int, sa: int)
    requires 0 <= dca <= da && 0 <= sca <= sa
    ensures 0 <= Raw(mode, dca, da, sca, sa) <= sa * da
  {
    hide ScreenOf, OverlayOf, DarkenOf, LightenOf, ColorDodgeOf, ColorBurnOf, HardLightOf, DifferenceOf, ExclusionOf;
    SimpleBounds(dca, da, sca, sa);
    OverlayBounds(dca, da, sca, sa);
    HardLightBounds(dca, da, sca, sa);
    DodgeBounds(dca, da, sca, sa);
    BurnBounds(dca, da, sca, sa);
  }

  /** The rounded blend function. */
  function BlendUn8(c: nat, mode: Mode, dca: nat, da: nat, sca: nat, sa: nat): nat
    requires dca <= da && sca <= sa
  {
    RawBounds(mode, dca, da, sca, sa);
    DivOne(c, Raw(mode, dca, da, sca, sa))
  }

  // ---------------------------------------------------------------------------------------------
  // Operators
  // ---------------------------------------------------------------------------------------------

  /** Component plus component without saturation. */
  function PlainSum(p: Pixel, q: Pixel): Pixel
  {
    Pixel(p.b + q.b, p.g + q.g, p.r + q.r, p.a + q.a)
  }

  /** The blended part of a PDF blend mode. */
  function Blended(c: nat, mode: Mode, s: Pixel, d: Pixel): Pixel
    requires Premultiplied(s) && Premultiplied(d)
  {
    Pixel(BlendUn8(c, mode, d.b, d.a, s.b, s.a), BlendUn8(c, mode, d.g, d.a, s.g, s.a),
          BlendUn8(c, mode, d.r, d.a, s.r, s.a),
          MulUn8(c, s.a, d.a))
  }

  /** What saturate adds: the source, faded if there is not room for it. */
  function Faded(c: nat, s: Pixel, d: Pixel): Pixel
    requires d.a < Base(c)
  {
    var ida := Inverse(c, d.a);
    if s.a > ida then Scale(c, s, DivUn8(c, ida, s.a)) else s
  }

  function OpPixel(c: nat, op: Op, s: Pixel, d: Pixel): Pixel
    requires Fits(c, s) && Fits(c, d) && (op.Pdf? ==> Premultiplied(s) && Premultiplied(d))
  {
    var isa, ida := Inverse(c, s.a), Inverse(c, d.a);
    match op
    case Over => Plus(c, Scale(c, d, isa), s)
    case OverReverse => Plus(c, Scale(c, s, ida), d)
    case In => Scale(c, s, d.a)
    case InReverse => Scale(c, d, s.a)
    case Out => Scale(c, s, ida)
    case OutReverse => Scale(c, d, isa)
    case Atop => Plus(c, Scale(c, s, d.a), Scale(c, d, isa))
    case AtopReverse => Plus(c, Scale(c, s, ida), Scale(c, d, s.a))
    case Xor => Plus(c, Scale(c, s, ida), Scale(c, d, isa))
    case Add => Plus(c, d, s)
    case Saturate => Plus(c, d, Faded(c, s, d))
    case Multiply => Plus(c, Times(c, d, s), Plus(c, Scale(c, s, ida), Scale(c, d, isa)))
    case Pdf(mode) => PlainSum(Plus(c, Scale(c, d, isa), Scale(c, s, ida)), Blended(c, mode, s, d))
  }

  // ---------------------------------------------------------------------------------------------
  // What the operators keep
  // ---------------------------------------------------------------------------------------------

  lemma MulOrder(c: nat, x: nat, x': nat, a: nat)
    requires c >= 1 && x <= x'
    ensures MulUn8(c, x, a) <= MulUn8(c, x', a)
  {
    MulMonotone(x, x', a);
    DivOneMonotone(c, x * a, x' * a);
  }

  lemma MulCommutes(c: nat, x: nat, a: nat)
    ensures MulUn8(c, x, a) == MulUn8(c, a, x)
  {
    assert x * a == a * x;
  }

  lemma ScalePremultiplied(c: nat, p: Pixel, a: nat)
    requires c >= 1 && Premultiplied(p)
    ensures Premultiplied(Scale(c, p, a))
  {
    hide MulUn8;
    MulOrder(c, p.b, p.a, a);
    MulOrder(c, p.g, p.a, a);
    MulOrder(c, p.r, p.a, a);
  }

  lemma MulBoth(c: nat, x: nat, x': nat, y: nat, y': nat)
    requires c >= 1 && x <= x' && y <= y'
    ensures MulUn8(c, x, y) <= MulUn8(c, x', y')
  {
    hide MulUn8;
    MulOrder(c, x, x', y);
    MulCommutes(c, x', y);
    MulOrder(c, y, y', x');
    MulCommutes(c, x', y');
  }

  lemma TimesPremultiplied(c: nat, p: Pixel, q: Pixel)
    requires c >= 1 && Premultiplied(p) && Premultiplied(q)
    ensures Premultiplied(Times(c, p, q))
  {
    hide MulUn8;
    MulBoth(c, p.b, p.a, q.b, q.a);
    MulBoth(c, p.g, p.a, q.g, q.a);
    MulBoth(c, p.r, p.a, q.r, q.a);
  }

  lemma PlusPremultiplied(c: nat, p: Pixel, q: Pixel)
    requires Premultiplied(p) && Premultiplied(q)
    ensures Premultiplied(Plus(c, p, q))
  {
    hide Mask;
  }

  lemma MulOfInverse(c: nat, x: nat, y: nat)
    requires c >= 1 && x < Base(c) && y < Base(c)
    ensures MulUn8(c, x, y) + MulUn8(c, x, Inverse(c, y)) == x
    ensures MulUn8(c, y, x) + MulUn8(c, Inverse(c, y), x) == x
  {
    hide Base, DivOne;
    MaskIs(c);
    var m := Mask(c);
    assert x * y + x * (m - y) == m * x;
    ProductSign(x, y);
    ProductSign(x, m - y);
    Complement(c, x * y, x * (m - y), x);
    MulCommutes(c, x, y);
    MulCommutes(c, x, Inverse(c, y));
  }

  /** The three products that make up the alpha of a blend: together, the union of the coverages. */
  lemma UnionAlpha(c: nat, sa: nat, da: nat)
    requires c >= 1 && sa < Base(c) && da < Base(c)
    ensures var isa, ida := Inverse(c, sa), Inverse(c, da);
      MulUn8(c, da, isa) + MulUn8(c, sa, ida) + MulUn8(c, sa, da) == Mask(c) - MulUn8(c, isa, ida)
  {
    hide Base, MulUn8;
    MaskIs(c);
    var isa, ida := Inverse(c, sa), Inverse(c, da);
    MulOfInverse(c, da, sa);
    MulOfInverse(c, ida, sa);
    MulCommutes(c, da, sa);
    MulCommutes(c, sa, ida);
    MulCommutes(c, isa, ida);
  }

  lemma BlendBelow(c: nat, mode: Mode, dca: nat, da: nat, sca: nat, sa: nat)
    requires c >= 1 && dca <= da && sca <= sa
    ensures BlendUn8(c, mode, dca, da, sca, sa) <= MulUn8(c, sa, da)
  {
    hide Raw, DivOne;
    RawBounds(mode, dca, da, sca, sa);
    DivOneMonotone(c, Raw(mode, dca, da, sca, sa), sa * da);
  }

  /** One component of a blend stays below the alpha, so nothing saturates and nothing carries. */
  lemma LaneBelow(c: nat, dca: nat, sca: nat, sa: nat, da: nat, blend: nat)
    requires c >= 1 && sa < Base(c) && da < Base(c) && dca <= da && sca <= sa && blend <= MulUn8(c, sa, da)
    ensures var isa, ida := Inverse(c, sa), Inverse(c, da);
      Saturated(c, MulUn8(c, dca, isa) + MulUn8(c, sca, ida)) + blend
      == MulUn8(c, dca, isa) + MulUn8(c, sca, ida) + blend <= Mask(c) - MulUn8(c, isa, ida)
  {
    hide Base, MulUn8;
    UnionAlpha(c, sa, da);
    MulOrder(c, dca, da, Inverse(c, sa));
    MulOrder(c, sca, sa, Inverse(c, da));
  }

  /** Every separable blend mode: no lane carries into the next although lanes are added with plain `+`,
      the result is premultiplied, and its alpha is the union of the two coverages, rounded once. */
  lemma BlendKeeps(c: nat, mode: Mode, s: Pixel, d: Pixel)
    requires c >= 1 && Fits(c, s) && Fits(c, d) && Premultiplied(s) && Premultiplied(d)
    ensures var r := OpPixel(c, Pdf(mode), s, d);
      Fits(c, r) && Premultiplied(r) && r.a == Mask(c) - MulUn8(c, Inverse(c, s.a), Inverse(c, d.a))
  {
    hide MulUn8, Base, BlendUn8, Saturated;
    MaskIs(c);
    UnionAlpha(c, s.a, d.a);
    LaneBelow(c, d.a, s.a, s.a, d.a, MulUn8(c, s.a, d.a));
    BlendBelow(c, mode, d.b, d.a, s.b, s.a);
    LaneBelow(c, d.b, s.b, s.a, d.a, BlendUn8(c, mode, d.b, d.a, s.b, s.a));
    BlendBelow(c, mode, d.g, d.a, s.g, s.a);
    LaneBelow(c, d.g, s.g, s.a, d.a, BlendUn8(c, mode, d.g, d.a, s.g, s.a));
    BlendBelow(c, mode, d.r, d.a, s.r, s.a);
    LaneBelow(c, d.r, s.r, s.a, d.a, BlendUn8(c, mode, d.r, d.a, s.r, s.a));
  }

  /** OVER never saturates: each component is the plain sum. */
  lemma OverExact(c: nat, s: Pixel, d: Pixel)
    requires c >= 1 && Fits(c, s) && Fits(c, d) && Premultiplied(s) && Premultiplied(d)
    ensures OpPixel(c, Over, s, d) == PlainSum(Scale(c, d, Inverse(c, s.a)), s)
  {
    hide MulUn8, Base;
    MaskIs(c);
    var isa := Inverse(c, s.a);
    MulAtMost(c, d.b, isa);
    MulAtMost(c, d.g, isa);
    MulAtMost(c, d.r, isa);
    MulAtMost(c, d.a, isa);
  }

  lemma MulAtMost(c: nat, x: nat, a: nat)
    requires c >= 1 && x < Base(c) && a < Base(c)
    ensures MulUn8(c, x, a) <= a
  {
    MaskIs(c);
    MulMonotone(x, Mask(c), a);
    DivOneMonotone(c, x * a, Mask(c) * a);
    DivOneWhole(c, a);
  }

  /** ATOP leaves the alpha of the destination alone, to the bit, although its two parts are rounded
      separately. */
  lemma AtopAlpha(c: nat, s: Pixel, d: Pixel)
    requires c >= 1 && Fits(c, s) && Fits(c, d) && Premultiplied(s) && Premultiplied(d)
    ensures OpPixel(c, Atop, s, d).a == d.a
  {
    hide MulUn8, Base;
    MaskIs(c);
    MulOfInverse(c, d.a, s.a);
    MulCommutes(c, s.a, d.a);
  }

  lemma FadedFits(c: nat, s: Pixel, d: Pixel)
    requires c >= 1 && Fits(c, s) && Fits(c, d)
    ensures Fits(c, Faded(c, s, d)) && (Premultiplied(s) ==> Premultiplied(Faded(c, s, d)))
  {
    hide Scale, Base, DivUn8;
    var ida := Inverse(c, d.a);
    if s.a > ida {
      DivUn8Fits(c, ida, s.a);
      ScaleFits(c, s, DivUn8(c, ida, s.a));
      if Premultiplied(s) {
        ScalePremultiplied(c, s, DivUn8(c, ida, s.a));
      }
    }
  }

  lemma DivUn8Fits(c: nat, a: nat, b: nat)
    requires a < b
    ensures DivUn8(c, a, b) < Base(c)
  {
    var m := Mask(c);
    MulMonotone(a, b - 1, m);
    assert (b - 1) * m == b * m - m && b * m == m * b;
    DivMod(a * m + b / 2, b);
    var q := (a * m + b / 2) / b;
    assert (m + 1) * b == m * b + b;
    if q >= Base(c) {
      MulMonotone(m + 1, q, b);
    }
  }

  /** Whatever the operator, premultiplied pixels stay premultiplied and components stay components. */
  lemma OpKeeps(c: nat, op: Op, s: Pixel, d: Pixel)
    requires c >= 1 && Fits(c, s) && Fits(c, d) && Premultiplied(s) && Premultiplied(d)
    ensures Fits(c, OpPixel(c, op, s, d)) && Premultiplied(OpPixel(c, op, s, d))
  {
    hide Scale, Times, Plus, Base, Premultiplied, Fits, Faded, Blended, PlainSum;
    InverseFits(c, s, d);
    var isa, ida := Inverse(c, s.a), Inverse(c, d.a);
    match op
    case Over => Part(c, d, isa); PlusPremultiplied(c, Scale(c, d, isa), s); PlusFits(c, Scale(c, d, isa), s);
    case OverReverse => Part(c, s, ida); PlusPremultiplied(c, Scale(c, s, ida), d); PlusFits(c, Scale(c, s, ida), d);
    case In => Part(c, s, d.a);
    case InReverse => Part(c, d, s.a);
    case Out => Part(c, s, ida);
    case OutReverse => Part(c, d, isa);
    case Atop => TwoParts(c, s, d.a, d, isa);
    case AtopReverse => TwoParts(c, s, ida, d, s.a);
    case Xor => TwoParts(c, s, ida, d, isa);
    case Add => PlusPremultiplied(c, d, s); PlusFits(c, d, s);
    case Saturate => FadedFits(c, s, d); PlusPremultiplied(c, d, Faded(c, s, d)); PlusFits(c, d, Faded(c, s, d));
    case Multiply =>
      TwoParts(c, s, ida, d, isa);
      TimesPremultiplied(c, d, s);
      PlusPremultiplied(c, Times(c, d, s), Plus(c, Scale(c, s, ida), Scale(c, d, isa)));
      PlusFits(c, Times(c, d, s), Plus(c, Scale(c, s, ida), Scale(c, d, isa)));
    case Pdf(mode) => BlendKeeps(c, mode, s, d);
  }

  /** Apart from the blend modes, every operator keeps components in range, whatever pixels it is given. */
  lemma OpFits(c: nat, op: Op, s: Pixel, d: Pixel)
    requires c >= 1 && Fits(c, s) && Fits(c, d) && !op.Pdf?
    ensures Fits(c, OpPixel(c, op, s, d))
  {
    hide Scale, Times, Plus, Base, Premultiplied, Fits, Faded, Blended, PlainSum;
    InverseFits(c, s, d);
    var isa, ida := Inverse(c, s.a), Inverse(c, d.a);
    ScaleFits(c, s, ida);
    ScaleFits(c, s, d.a);
    ScaleFits(c, d, isa);
    ScaleFits(c, d, s.a);
    FadedFits(c, s, d);
    TimesFits(c, d, s);
    match op
    case Over => PlusFits(c, Scale(c, d, isa), s);
    case OverReverse => PlusFits(c, Scale(c, s, ida), d);
    case Atop => PlusFits(c, Scale(c, s, d.a), Scale(c, d, isa));
    case AtopReverse => PlusFits(c, Scale(c, s, ida), Scale(c, d, s.a));
    case Xor => PlusFits(c, Scale(c, s, ida), Scale(c, d, isa));
    case Add => PlusFits(c, d, s);
    case Saturate => PlusFits(c, d, Faded(c, s, d));
    case Multiply =>
      PlusFits(c, Scale(c, s, ida), Scale(c, d, isa));
      PlusFits(c, Times(c, d, s), Plus(c, Scale(c, s, ida), Scale(c, d, isa)));
    case _ =>
  }

  lemma InverseFits(c: nat, s: Pixel, d: Pixel)
    requires Fits(c, s) && Fits(c, d)
    ensures s.a < Base(c) && d.a < Base(c) && Inverse(c, s.a) < Base(c) && Inverse(c, d.a) < Base(c)
  {
  }

  lemma Part(c: nat, p: Pixel, a: nat)
    requires c >= 1 && Fits(c, p) && Premultiplied(p) && a < Base(c)
    ensures Fits(c, Scale(c, p, a)) && Premultiplied(Scale(c, p, a))
  {
    hide Scale, Base;
    ScaleFits(c, p, a);
    ScalePremultiplied(c, p, a);
  }

  lemma TwoParts(c: nat, p: Pixel, a: nat, q: Pixel, b: nat)
    requires c >= 1 && Fits(c, p) && Fits(c, q) && Premultiplied(p) && Premultiplied(q) && a < Base(c) && b < Base(c)
    ensures Fits(c, Plus(c, Scale(c, p, a), Scale(c, q, b))) && Premultiplied(Plus(c, Scale(c, p, a), Scale(c, q, b)))
  {
    hide Scale, Base, Plus;
    Part(c, p, a);
    Part(c, q, b);
    PlusPremultiplied(c, Scale(c, p, a), Scale(c, q, b));
    PlusFits(c, Scale(c, p, a), Scale(c, q, b));
  }

  /** MULTIPLY adds with saturation, but never saturates, and its alpha is that of the other blend modes. */
  lemma MultiplyAlpha(c: nat, s: Pixel, d: Pixel)
    requires c >= 1 && Fits(c, s) && Fits(c, d) && Premultiplied(s) && Premultiplied(d)
    ensures OpPixel(c, Multiply, s, d).a == Mask(c) - MulUn8(c, Inverse(c, s.a), Inverse(c, d.a))
    ensures OpPixel(c, Multiply, s, d)
         == PlainSum(Times(c, d, s), PlainSum(Scale(c, s, Inverse(c, d.a)), Scale(c, d, Inverse(c, s.a))))
  {
    hide MulUn8, Base;
    MaskIs(c);
    UnionAlpha(c, s.a, d.a);
    MulCommutes(c, s.a, d.a);
    MulBoth(c, d.b, d.a, s.b, s.a);
    MulBoth(c, d.g, d.a, s.g, s.a);
    MulBoth(c, d.r, d.a, s.r, s.a);
    LaneBelow(c, d.b, s.b, s.a, d.a, MulUn8(c, d.b, s.b));
    LaneBelow(c, d.g, s.g, s.a, d.a, MulUn8(c, d.g, s.g));
    LaneBelow(c, d.r, s.r, s.a, d.a, MulUn8(c, d.r, s.r));
  }
}
