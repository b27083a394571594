/** What tells the blend modes and the operators apart: laws about their results, mode by mode and region by
    region. */
module BlendLaws {
  import opened BitMath
  import opened Lanes
  import opened Packed
  import opened Blend

  // ---------------------------------------------------------------------------------------------
  // Modes
  // ---------------------------------------------------------------------------------------------

  /** Components of premultiplied pixels. */
  predicate Within(dca: int, da: int, sca: int, sa: int)
  {
    0 <= dca <= da && 0 <= sca <= sa
  }

  /** Darken gives the darker of the two, lighten the lighter, and difference what lies between them. */
  lemma DarkenLighten(dca: int, da: int, sca: int, sa: int)
    requires Within(dca, da, sca, sa)
    ensures var r := Raw(Darken, dca, da, sca, sa);
      r <= sca * da && r <= dca * sa && (r == sca * da || r == dca * sa)
    ensures var r := Raw(Lighten, dca, da, sca, sa);
      r >= sca * da && r >= dca * sa && (r == sca * da || r == dca * sa)
    ensures Raw(Difference, dca, da, sca, sa) == Raw(Lighten, dca, da, sca, sa) - Raw(Darken, dca, da, sca, sa)
  {
  }

  /** Screen multiplies what the two leave uncovered; exclusion is screen less the product. */
  lemma ScreenExclusion(dca: int, da: int, sca: int, sa: int)
    ensures sa * da - Raw(Screen, dca, da, sca, sa) == (sa - sca) * (da - dca)
    ensures Raw(Exclusion, dca, da, sca, sa) == Raw(Screen, dca, da, sca, sa) - sca * dca
  {
    assert (sa - sca) * (da - dca) == sa * da - sa * dca - sca * da + sca * dca;
    assert 2 * dca * sca == 2 * (dca * sca) && sca * dca == dca * sca;
  }

  /** Overlay multiplies by twice the destination where that is less than full, and screens with the excess where
      it is not; hard light is overlay with source and destination exchanged. */
  lemma OverlayHardLight(dca: int, da: int, sca: int, sa: int)
    ensures 2 * dca < da ==> Raw(Overlay, dca, da, sca, sa) == sca * (2 * dca)
    ensures 2 * dca >= da ==> Raw(Overlay, dca, da, sca, sa) == Raw(Screen, 2 * dca - da, da, sca, sa)
    ensures Raw(HardLight, dca, da, sca, sa) == Raw(Overlay, sca, sa, dca, da)
  {
    Tripled(2, sca, dca);
    Tripled(2, dca, sca);
    Tripled(2, da - dca, sa - sca);
    Tripled(2, sa - sca, da - dca);
    ScreenExclusion(2 * dca - da, da, sca, sa);
    assert (sa - sca) * (da - (2 * dca - da)) == 2 * ((da - dca) * (sa - sca)) by {
      assert da - (2 * dca - da) == 2 * (da - dca);
      Tripled(2, da - dca, sa - sca);
    }
    assert sa * da == da * sa;
  }

  lemma Tripled(k: int, x: int, y: int)
    ensures k * x * y == k * (x * y) == k * (y * x) == (k * y) * x
    ensures x * (k * y) == k * (x * y)
  {
    MulAssoc(k, x, y);
    MulAssoc(k, y, x);
    assert x * y == y * x;
    assert x * (k * y) == (k * y) * x;
  }

  /** Dodge divides the destination by what the source leaves uncovered, rounded down and held to full. */
  lemma Dodge(dca: int, da: int, sca: int, sa: int) returns (m: int)
    requires Within(dca, da, sca, sa)
    ensures Raw(ColorDodge, dca, da, sca, sa) == sa * m && 0 <= m <= da
    ensures sca < sa ==> m * (sa - sca) <= dca * sa && (m == da || (m + 1) * (sa - sca) > dca * sa)
    ensures sca == sa ==> m == if dca == 0 then 0 else da
  {
    if sca < sa {
      ProductSign(dca, sa);
      QuotientSign(dca * sa, sa - sca);
      var q := dca * sa / (sa - sca);
      DivMod(dca * sa, sa - sca);
      m := Min(q, da);
      MulMonotone(m, q, sa - sca);
      assert (q + 1) * (sa - sca) == q * (sa - sca) + (sa - sca);
    } else {
      m := if dca == 0 then 0 else da;
    }
  }

  /** Burn is dodge on the complements. */
  lemma Burn(dca: int, da: int, sca: int, sa: int)
    requires Within(dca, da, sca, sa)
    ensures sa * da - Raw(ColorBurn, dca, da, sca, sa) == Raw(ColorDodge, da - dca, da, sa - sca, sa)
  {
    if sca > 0 {
      var rca := (da - dca) * sa / sca;
      assert sa - (sa - sca) == sca;
      assert sa * (Max(rca, da) - rca) == sa * da - sa * Min(rca, da);
    }
  }

  // ---------------------------------------------------------------------------------------------
  // Modes on opaque pixels
  // ---------------------------------------------------------------------------------------------

  predicate Opaque(c: nat, p: Pixel)
  {
    p.a == Mask(c)
  }

  const Empty := Pixel(0, 0, 0, 0)

  lemma ScaleCorners(c: nat, p: Pixel)
    requires c >= 1 && Fits(c, p)
    ensures Scale(c, p, Mask(c)) == p && Scale(c, p, 0) == Empty && Plus(c, p, Empty) == p && Plus(c, Empty, p) == p
    ensures forall a: nat :: Scale(c, Empty, a) == Empty
    ensures Inverse(c, 0) == Mask(c) && Inverse(c, Mask(c)) == 0
  {
    hide Base, DivOne;
    MaskIs(c);
    DivOneWhole(c, p.b);
    DivOneWhole(c, p.g);
    DivOneWhole(c, p.r);
    DivOneWhole(c, p.a);
    assert p.b * Mask(c) == Mask(c) * p.b && p.g * Mask(c) == Mask(c) * p.g;
    assert p.r * Mask(c) == Mask(c) * p.r && p.a * Mask(c) == Mask(c) * p.a;
    forall a: nat
      ensures Scale(c, Empty, a) == Empty
    {
      assert 0 * a == 0;
    }
  }

  /** Of opaque pixels only the blend is left, and it needs no rounding for the darker, the lighter, and the
      difference. */
  lemma OpaqueBlend(c: nat, mode: Mode, s: Pixel, d: Pixel)
    requires c >= 1 && Fits(c, s) && Fits(c, d) && Premultiplied(s) && Premultiplied(d) && Opaque(c, s) && Opaque(c, d)
    ensures OpPixel(c, Pdf(mode), s, d)
         == Pixel(BlendUn8(c, mode, d.b, d.a, s.b, s.a), BlendUn8(c, mode, d.g, d.a, s.g, s.a),
                  BlendUn8(c, mode, d.r, d.a, s.r, s.a), Mask(c))
    ensures OpPixel(c, Pdf(Darken), s, d) == Pixel(Min(s.b, d.b), Min(s.g, d.g), Min(s.r, d.r), Mask(c))
    ensures OpPixel(c, Pdf(Lighten), s, d) == Pixel(Max(s.b, d.b), Max(s.g, d.g), Max(s.r, d.r), Mask(c))
    ensures OpPixel(c, Pdf(Difference), s, d)
         == Pixel(Abs(s.b - d.b), Abs(s.g - d.g), Abs(s.r - d.r), Mask(c))
  {
    hide Base, BlendUn8, MulUn8, Scale, Min, Max, Abs;
    MaskIs(c);
    ScaleCorners(c, s);
    ScaleCorners(c, d);
    ScaleCorners(c, Empty);
    WholeProduct(c, Mask(c));
    OpaqueLane(c, s.b, d.b);
    OpaqueLane(c, s.g, d.g);
    OpaqueLane(c, s.r, d.r);
  }

  lemma WholeProduct(c: nat, x: nat)
    requires c >= 1 && x < Base(c)
    ensures MulUn8(c, x, Mask(c)) == x == MulUn8(c, Mask(c), x)
  {
    hide Base, DivOne;
    MaskIs(c);
    DivOneWhole(c, x);
    assert x * Mask(c) == Mask(c) * x;
  }

  /** Products with one factor in common order as the other factors do. */
  lemma CommonFactor(x: int, y: int, m: int)
    requires m >= 0
    ensures Min(y * m, x * m) == m * Min(x, y) && Max(y * m, x * m) == m * Max(x, y)
    ensures (if x * m < y * m then y * m - x * m else x * m - y * m) == m * Abs(x - y)
  {
    assert x * m == m * x && y * m == m * y;
    assert m * (x - y) == m * x - m * y && m * (y - x) == m * y - m * x;
    if x < y {
      MulMonotone(x, y, m);
    } else {
      MulMonotone(y, x, m);
    }
  }

  lemma OpaqueLane(c: nat, x: nat, y: nat)
    requires c >= 1 && x < Base(c) && y < Base(c)
    ensures x <= Mask(c) && y <= Mask(c)
    ensures BlendUn8(c, Darken, y, Mask(c), x, Mask(c)) == Min(x, y)
    ensures BlendUn8(c, Lighten, y, Mask(c), x, Mask(c)) == Max(x, y)
    ensures BlendUn8(c, Difference, y, Mask(c), x, Mask(c)) == Abs(x - y)
  {
    hide Base, DivOne, Mask, Abs;
    MaskIs(c);
    var m := Mask(c);
    OpaqueRaw(x, y, m);
    AbsBelow(x, y, m);
    DivOneWhole(c, Min(x, y));
    DivOneWhole(c, Max(x, y));
    DivOneWhole(c, Abs(x - y));
  }

  lemma AbsBelow(x: nat, y: nat, m: nat)
    requires x <= m && y <= m
    ensures Abs(x - y) <= m
  {
  }

  lemma OpaqueRaw(x: int, y: int, m: int)
    requires m >= 0
    ensures Raw(Darken, y, m, x, m) == m * Min(x, y) && Raw(Lighten, y, m, x, m) == m * Max(x, y)
    ensures Raw(Difference, y, m, x, m) == m * Abs(x - y)
  {
    hide Abs, Min, Max;
    CommonFactor(x, y, m);
  }

  // ---------------------------------------------------------------------------------------------
  // Operators region by region
  // ---------------------------------------------------------------------------------------------

  /** Two coverages that know nothing of each other part a pixel into four: outside both, inside one or the other
      alone, inside both. */
  datatype Kept = Nothing | Source | Destination

  predicate PorterDuff(op: Op)
  {
    !op.Add? && !op.Saturate? && !op.Multiply? && !op.Pdf?
  }

  /** What shows where both are. */
  function InBoth(op: Op): Kept
    requires PorterDuff(op)
  {
    match op
    case Over | In | Atop => Source
    case OverReverse | InReverse | AtopReverse => Destination
    case Out | OutReverse | Xor => Nothing
  }

  /** Whether the source shows where it is alone. */
  predicate SourceAlone(op: Op)
  {
    op.Over? || op.OverReverse? || op.Out? || op.AtopReverse? || op.Xor?
  }

  /** Whether the destination shows where it is alone. */
  predicate DestinationAlone(op: Op)
  {
    op.Over? || op.OverReverse? || op.OutReverse? || op.Atop? || op.Xor?
  }

  /** What shows, region by region, as a multiple of `Mask`. */
  function Showing(c: nat, op: Op, x: nat, sa: nat, y: nat, da: nat): int
    requires PorterDuff(op) && sa < Base(c) && da < Base(c)
  {
    var source := if SourceAlone(op) then x * Inverse(c, da) else 0;
    var destination := if DestinationAlone(op) then y * Inverse(c, sa) else 0;
    var both := if InBoth(op).Source? then x * da else if InBoth(op).Destination? then y * sa else 0;
    source + destination + both
  }

  /** `r` differs from the exact `p / Mask` by no more than one rounding for each of `n` products. */
  ghost predicate Rounded(c: nat, n: nat, r: int, p: int)
  {
    Abs(2 * (Mask(c) * r - p)) <= n * Mask(c)
  }

  ghost predicate Shows(c: nat, op: Op, r: nat, x: nat, sa: nat, y: nat, da: nat)
    requires PorterDuff(op) && sa < Base(c) && da < Base(c)
  {
    Rounded(c, 2, r, Showing(c, op, x, sa, y, da))
  }

  /** One component of the result. */
  function Lane(c: nat, op: Op, x: nat, sa: nat, y: nat, da: nat): nat
    requires PorterDuff(op) && sa < Base(c) && da < Base(c)
  {
    var isa, ida := Inverse(c, sa), Inverse(c, da);
    match op
    case Over => Saturated(c, MulUn8(c, y, isa) + x)
    case OverReverse => Saturated(c, MulUn8(c, x, ida) + y)
    case In => MulUn8(c, x, da)
    case InReverse => MulUn8(c, y, sa)
    case Out => MulUn8(c, x, ida)
    case OutReverse => MulUn8(c, y, isa)
    case Atop => Saturated(c, MulUn8(c, x, da) + MulUn8(c, y, isa))
    case AtopReverse => Saturated(c, MulUn8(c, x, ida) + MulUn8(c, y, sa))
    case Xor => Saturated(c, MulUn8(c, x, ida) + MulUn8(c, y, isa))
  }

  /** A product of two components, rounded once. */
  lemma OneProduct(c: nat, x: nat, a: nat)
    requires c >= 1 && x < Base(c) && a < Base(c)
    ensures Rounded(c, 1, MulUn8(c, x, a), x * a) && Nearest(Mask(c), x * a, MulUn8(c, x, a))
    ensures MulUn8(c, x, a) <= a && MulUn8(c, x, a) <= x
  {
    hide Base, DivOne;
    MaskIs(c);
    MulMonotone(x, Mask(c), a);
    MulMonotone(a, Mask(c), Mask(c));
    assert Mask(c) * a == a * Mask(c);
    DivOneNearest(c, x * a);
    MulAtMost(c, x, a);
    MulAtMost(c, a, x);
    MulCommutes(c, x, a);
  }

  /** Nothing saturates. */
  lemma NothingSaturates(c: nat, x: nat, sa: nat, y: nat, da: nat)
    requires c >= 1 && x <= sa < Base(c) && y <= da < Base(c)
    ensures var m, isa, ida := Mask(c), Inverse(c, sa), Inverse(c, da);
      && MulUn8(c, y, isa) + x <= m && MulUn8(c, x, ida) + y <= m
      && MulUn8(c, x, da) + MulUn8(c, y, isa) <= m && MulUn8(c, x, ida) + MulUn8(c, y, sa) <= m
      && MulUn8(c, x, ida) + MulUn8(c, y, isa) <= m
  {
    hide Base, MulUn8;
    MaskIs(c);
    var isa, ida := Inverse(c, sa), Inverse(c, da);
    OneProduct(c, y, isa);
    OneProduct(c, x, ida);
    LaneBelow(c, y, x, sa, da, 0);
    MulOfInverse(c, da, sa);
    MulOfInverse(c, sa, da);
    MulCommutes(c, da, sa);
    MulOrder(c, x, sa, da);
    MulOrder(c, x, sa, ida);
    MulOrder(c, y, da, sa);
    MulOrder(c, y, da, isa);
  }

  /** Roundings add up, and a component that is there whole is not rounded. */
  lemma RoundedSum(c: nat, n: nat, a: int, p: int, k: nat, b: int, q: int)
    requires Rounded(c, n, a, p) && Rounded(c, k, b, q)
    ensures Rounded(c, n + k, a + b, p + q)
  {
    var m := Mask(c);
    assert m * (a + b) == m * a + m * b && (n + k) * m == n * m + k * m;
  }

  lemma RoundedWhole(c: nat, x: nat, a: nat)
    requires a < Base(c)
    ensures Rounded(c, 1, x, x * a + x * Inverse(c, a))
  {
    assert x * a + x * (Mask(c) - a) == Mask(c) * x;
  }

  /** Operators with one product, with one and a whole component, and with two. */
  lemma OneShows(c: nat, op: Op, x: nat, sa: nat, y: nat, da: nat)
    requires c >= 1 && (op.In? || op.InReverse? || op.Out? || op.OutReverse?)
    requires x <= sa < Base(c) && y <= da < Base(c)
    ensures Shows(c, op, Lane(c, op, x, sa, y, da), x, sa, y, da)
  {
    hide Base, MulUn8, Rounded, Mask, Inverse;
    var isa, ida := Inverse(c, sa), Inverse(c, da);
    InverseIn(c, sa);
    InverseIn(c, da);
    OneProduct(c, x, da);
    OneProduct(c, x, ida);
    OneProduct(c, y, sa);
    OneProduct(c, y, isa);
    RoundedMore(c, MulUn8(c, x, da), x * da);
    RoundedMore(c, MulUn8(c, x, ida), x * ida);
    RoundedMore(c, MulUn8(c, y, sa), y * sa);
    RoundedMore(c, MulUn8(c, y, isa), y * isa);
  }

  lemma OverShows(c: nat, op: Op, x: nat, sa: nat, y: nat, da: nat)
    requires c >= 1 && (op.Over? || op.OverReverse?)
    requires x <= sa < Base(c) && y <= da < Base(c)
    ensures Shows(c, op, Lane(c, op, x, sa, y, da), x, sa, y, da)
  {
    hide Base, MulUn8, Rounded, Mask, Inverse;
    var isa, ida := Inverse(c, sa), Inverse(c, da);
    InverseIn(c, sa);
    InverseIn(c, da);
    OneProduct(c, x, ida);
    OneProduct(c, y, isa);
    NothingSaturates(c, x, sa, y, da);
    RoundedWhole(c, x, da);
    RoundedWhole(c, y, sa);
    RoundedSum(c, 1, MulUn8(c, y, isa), y * isa, 1, x, x * da + x * ida);
    RoundedSum(c, 1, MulUn8(c, x, ida), x * ida, 1, y, y * sa + y * isa);
  }

  lemma BothShow(c: nat, op: Op, x: nat, sa: nat, y: nat, da: nat)
    requires c >= 1 && (op.Atop? || op.AtopReverse? || op.Xor?)
    requires x <= sa < Base(c) && y <= da < Base(c)
    ensures Shows(c, op, Lane(c, op, x, sa, y, da), x, sa, y, da)
  {
    hide Base, MulUn8, Rounded, Mask, Inverse;
    var isa, ida := Inverse(c, sa), Inverse(c, da);
    InverseIn(c, sa);
    InverseIn(c, da);
    OneProduct(c, x, da);
    OneProduct(c, x, ida);
    OneProduct(c, y, sa);
    OneProduct(c, y, isa);
    NothingSaturates(c, x, sa, y, da);
    RoundedSum(c, 1, MulUn8(c, x, da), x * da, 1, MulUn8(c, y, isa), y * isa);
    RoundedSum(c, 1, MulUn8(c, x, ida), x * ida, 1, MulUn8(c, y, sa), y * sa);
    RoundedSum(c, 1, MulUn8(c, x, ida), x * ida, 1, MulUn8(c, y, isa), y * isa);
  }

  lemma RoundedMore(c: nat, a: int, p: int)
    requires Rounded(c, 1, a, p)
    ensures Rounded(c, 2, a, p)
  {
    assert 2 * Mask(c) == 1 * Mask(c) + Mask(c);
  }

  lemma LaneShows(c: nat, op: Op, x: nat, sa: nat, y: nat, da: nat)
    requires c >= 1 && PorterDuff(op) && x <= sa < Base(c) && y <= da < Base(c)
    ensures Shows(c, op, Lane(c, op, x, sa, y, da), x, sa, y, da)
  {
    hide Base, Shows, Lane;
    if op.In? || op.InReverse? || op.Out? || op.OutReverse? {
      OneShows(c, op, x, sa, y, da);
    } else if op.Over? || op.OverReverse? {
      OverShows(c, op, x, sa, y, da);
    } else {
      BothShow(c, op, x, sa, y, da);
    }
  }

  lemma InverseIn(c: nat, a: nat)
    requires a < Base(c)
    ensures Inverse(c, a) < Base(c)
  {
  }

  /** Every Porter-Duff operator shows in each region what its name says, within a rounding for each region that it
      is made of. */
  lemma RegionByRegion(c: nat, op: Op, s: Pixel, d: Pixel)
    requires c >= 1 && PorterDuff(op) && Fits(c, s) && Fits(c, d) && Premultiplied(s) && Premultiplied(d)
    ensures s.a < Base(c) && d.a < Base(c)
    ensures var r := OpPixel(c, op, s, d);
      && Shows(c, op, r.b, s.b, s.a, d.b, d.a) && Shows(c, op, r.g, s.g, s.a, d.g, d.a)
      && Shows(c, op, r.r, s.r, s.a, d.r, d.a) && Shows(c, op, r.a, s.a, s.a, d.a, d.a)
  {
    hide Base, MulUn8, Saturated, Shows;
    LaneShows(c, op, s.b, s.a, d.b, d.a);
    LaneShows(c, op, s.g, s.a, d.g, d.a);
    LaneShows(c, op, s.r, s.a, d.r, d.a);
    LaneShows(c, op, s.a, s.a, d.a, d.a);
  }

  /** Exactly, where no destination is, where no source is, and where both cover all. */
  lemma Corners(c: nat, op: Op, s: Pixel, d: Pixel)
    requires c >= 1 && PorterDuff(op) && Fits(c, s) && Fits(c, d)
    ensures OpPixel(c, op, s, Empty) == if SourceAlone(op) then s else Empty
    ensures OpPixel(c, op, Empty, d) == if DestinationAlone(op) then d else Empty
    ensures Opaque(c, s) && Opaque(c, d) ==>
      OpPixel(c, op, s, d) == match InBoth(op) case Source => s case Destination => d case Nothing => Empty
  {
    hide Base, Scale, Plus, Inverse;
    MaskIs(c);
    ScaleCorners(c, s);
    ScaleCorners(c, d);
    ScaleCorners(c, Empty);
  }

  // ---------------------------------------------------------------------------------------------
  // The other operators
  // ---------------------------------------------------------------------------------------------

  /** A blend mode or MULTIPLY: source alone, destination alone, and the blend where both are. */
  function BlendShowing(c: nat, x: nat, sa: nat, y: nat, da: nat, both: int): int
    requires sa < Base(c) && da < Base(c)
  {
    x * Inverse(c, da) + y * Inverse(c, sa) + both
  }

  ghost predicate Blends(c: nat, r: nat, x: nat, sa: nat, y: nat, da: nat, both: int)
    requires sa < Base(c) && da < Base(c)
  {
    Rounded(c, 3, r, BlendShowing(c, x, sa, y, da, both))
  }

  lemma BlendLane(c: nat, x: nat, sa: nat, y: nat, da: nat, both: nat)
    requires c >= 1 && x <= sa < Base(c) && y <= da < Base(c) && both <= sa * da
    ensures Blends(c, MulUn8(c, y, Inverse(c, sa)) + MulUn8(c, x, Inverse(c, da)) + DivOne(c, both), x, sa, y, da, both)
    ensures DivOne(c, both) <= MulUn8(c, sa, da)
  {
    hide Base, DivOne;
    MaskIs(c);
    OneProduct(c, x, Inverse(c, da));
    OneProduct(c, y, Inverse(c, sa));
    MulMonotone(sa, Mask(c), da);
    MulMonotone(da, Mask(c), Mask(c));
    assert Mask(c) * da == da * Mask(c);
    DivOneNearest(c, both);
    DivOneMonotone(c, both, sa * da);
  }

  /** One lane of a blend mode. */
  lemma ModeLane(c: nat, mode: Mode, x: nat, sa: nat, y: nat, da: nat)
    requires c >= 1 && x <= sa < Base(c) && y <= da < Base(c)
    ensures Blends(c, Saturated(c, MulUn8(c, y, Inverse(c, sa)) + MulUn8(c, x, Inverse(c, da)))
                      + BlendUn8(c, mode, y, da, x, sa), x, sa, y, da, Raw(mode, y, da, x, sa))
  {
    hide Base, DivOne, MulUn8, Blends, Raw;
    RawBounds(mode, y, da, x, sa);
    BlendLane(c, x, sa, y, da, Raw(mode, y, da, x, sa));
    LaneBelow(c, y, x, sa, da, BlendUn8(c, mode, y, da, x, sa));
  }

  lemma BlendByRegion(c: nat, mode: Mode, s: Pixel, d: Pixel)
    requires c >= 1 && Fits(c, s) && Fits(c, d) && Premultiplied(s) && Premultiplied(d)
    ensures s.a < Base(c) && d.a < Base(c)
    ensures var r := OpPixel(c, Pdf(mode), s, d);
      && Blends(c, r.b, s.b, s.a, d.b, d.a, Raw(mode, d.b, d.a, s.b, s.a))
      && Blends(c, r.g, s.g, s.a, d.g, d.a, Raw(mode, d.g, d.a, s.g, s.a))
      && Blends(c, r.r, s.r, s.a, d.r, d.a, Raw(mode, d.r, d.a, s.r, s.a))
  {
    hide Base, MulUn8, Saturated, Blends, Raw, BlendUn8, Inverse;
    ModeLane(c, mode, s.b, s.a, d.b, d.a);
    ModeLane(c, mode, s.g, s.a, d.g, d.a);
    ModeLane(c, mode, s.r, s.a, d.r, d.a);
  }

  /** MULTIPLY shows the product of the two where both are. */
  lemma MultiplyByRegion(c: nat, s: Pixel, d: Pixel)
    requires c >= 1 && Fits(c, s) && Fits(c, d) && Premultiplied(s) && Premultiplied(d)
    ensures s.a < Base(c) && d.a < Base(c)
    ensures var r := OpPixel(c, Multiply, s, d);
      && Blends(c, r.b, s.b, s.a, d.b, d.a, d.b * s.b) && Blends(c, r.g, s.g, s.a, d.g, d.a, d.g * s.g)
      && Blends(c, r.r, s.r, s.a, d.r, d.a, d.r * s.r) && Blends(c, r.a, s.a, s.a, d.a, d.a, d.a * s.a)
  {
    hide Base, MulUn8, Blends, Inverse, OpPixel, Mask, Fits;
    InverseFits(c, s, d);
    MultiplyAlpha(c, s, d);
    MultiplyLane(c, s.b, s.a, d.b, d.a);
    MultiplyLane(c, s.g, s.a, d.g, d.a);
    MultiplyLane(c, s.r, s.a, d.r, d.a);
    MultiplyLane(c, s.a, s.a, d.a, d.a);
  }

  lemma MultiplyLane(c: nat, x: nat, sa: nat, y: nat, da: nat)
    requires c >= 1 && x <= sa < Base(c) && y <= da < Base(c)
    ensures Blends(c, MulUn8(c, y, x) + (MulUn8(c, x, Inverse(c, da)) + MulUn8(c, y, Inverse(c, sa))),
                   x, sa, y, da, y * x)
  {
    hide Base, DivOne, Blends, Inverse;
    MulMonotone(y, da, x);
    MulMonotone(x, sa, da);
    assert sa * da == da * sa && da * x == x * da && y * x <= sa * da;
    BlendLane(c, x, sa, y, da, y * x);
  }

  /** ADD is the sum, held to full component by component. */
  lemma AddHolds(c: nat, s: Pixel, d: Pixel)
    requires Fits(c, s) && Fits(c, d)
    ensures var r := OpPixel(c, Add, s, d);
      && r.b == Min(s.b + d.b, Mask(c)) && r.g == Min(s.g + d.g, Mask(c)) && r.r == Min(s.r + d.r, Mask(c))
      && r.a == Min(s.a + d.a, Mask(c))
  {
    hide Base;
  }

  /** A component of the faded source, within one of its share of the room. */
  ghost predicate Share(r: int, x: nat, room: nat, sa: nat)
  {
    Abs(sa * r - x * room) <= sa
  }

  /** SATURATE adds where there is room for the whole source; where there is not, it fades all components of the
      source alike, and the alphas then fill up exactly. */
  lemma SaturateFills(c: nat, s: Pixel, d: Pixel)
    requires c >= 1 && Fits(c, s) && Fits(c, d) && Premultiplied(s) && Premultiplied(d)
    ensures s.a + d.a <= Mask(c) ==> OpPixel(c, Saturate, s, d) == PlainSum(d, s)
    ensures OpPixel(c, Saturate, s, d).a == Min(s.a + d.a, Mask(c))
    ensures s.a + d.a > Mask(c) ==>
      var r, room := OpPixel(c, Saturate, s, d), Mask(c) - d.a;
      Share(r.b - d.b, s.b, room, s.a) && Share(r.g - d.g, s.g, room, s.a) && Share(r.r - d.r, s.r, room, s.a)
  {
    hide Base, MulUn8, DivUn8, Share;
    MaskIs(c);
    var ida := Inverse(c, d.a);
    if s.a > ida {
      var k := DivUn8(c, ida, s.a);
      FadesTo(c, s.a, ida, s.a);
      FadesTo(c, s.b, ida, s.a);
      FadesTo(c, s.g, ida, s.a);
      FadesTo(c, s.r, ida, s.a);
      MulOrder(c, s.b, s.a, k);
      MulOrder(c, s.g, s.a, k);
      MulOrder(c, s.r, s.a, k);
    }
  }

  /** `DIV` rounds to nearest. */
  lemma DivUn8Nearest(c: nat, a: nat, b: nat)
    requires b > 0
    ensures Abs(2 * (DivUn8(c, a, b) * b - a * Mask(c))) <= b
  {
    DivMod(a * Mask(c) + b / 2, b);
  }

  lemma FadesTo(c: nat, x: nat, room: nat, sa: nat)
    requires c >= 1 && x <= sa < Base(c) && room < sa
    ensures var q := MulUn8(c, x, DivUn8(c, room, sa));
      Share(q, x, room, sa) && (x == sa ==> q == room)
  {
    hide Base, DivOne, MulUn8, DivUn8;
    MaskIs(c);
    DivUn8Fits(c, room, sa);
    var k := DivUn8(c, room, sa);
    OneProduct(c, x, k);
    DivUn8Nearest(c, room, sa);
    ShareBound(Mask(c), x, k, MulUn8(c, x, k), room, sa);
  }

  lemma ShareBound(m: int, x: int, k: int, q: int, room: int, sa: int)
    requires 0 <= x <= sa <= m && 0 < sa && Nearest(m, x * k, q) && Abs(2 * (k * sa - room * m)) <= sa
    ensures Abs(sa * q - x * room) <= sa && (x == sa ==> q == room)
  {
    hide Abs;
    var e, f := x * k - m * q, k * sa - room * m;
    AbsIs(2 * f, sa);
    AbsIs(sa * q - x * room, sa);
    if x == sa {
      assert x * k == k * sa && (q - room) * m == m * q - room * m;
      LessThanOne(q - room, m);
    }
    ShareSum(m, x, k, q, room, sa, e, f);
  }

  lemma ShareSum(m: int, x: int, k: int, q: int, room: int, sa: int, e: int, f: int)
    requires 0 <= x <= sa <= m && 0 < sa && e == x * k - m * q && f == k * sa - room * m
    requires -m <= 2 * e <= m && -sa <= 2 * f <= sa
    ensures Abs(sa * q - x * room) <= sa
  {
    Spread(m, sa, q, x, k, room);
    assert m * (sa * q - x * room) == x * f - sa * e;
    Halves(m, x, sa, e, f, sa * q - x * room);
  }

  lemma Halves(m: int, x: int, sa: int, e: int, f: int, t: int)
    requires 0 <= x <= sa <= m && 0 < sa && m * t == x * f - sa * e && -m <= 2 * e <= m && -sa <= 2 * f <= sa
    ensures Abs(t) <= sa
  {
    ProductBounds(x, f, sa);
    ProductBounds(sa, e, m);
    MulMonotone(x, m, sa);
    assert m * sa == sa * m;
    AtMost(m, t, sa);
  }

  lemma AbsIs(t: int, b: int)
    ensures Abs(t) <= b <==> -b <= t <= b
  {
  }

  lemma LessThanOne(t: int, m: int)
    requires -m < t * m < m
    ensures t == 0
  {
    if t > 0 {
      MulMonotone(1, t, m);
    } else if t < 0 {
      MulMonotone(t, -1, m);
    }
  }

  lemma AtMost(m: int, t: int, b: int)
    requires m > 0 && -(b * m) <= m * t <= b * m
    ensures Abs(t) <= b
  {
    if t > b {
      MulStep(b, t, m);
    } else if t < -b {
      MulStep(t, -b, m);
    }
  }

  lemma Spread(m: int, sa: int, q: int, x: int, k: int, room: int)
    ensures m * (sa * q - x * room) == x * (k * sa - room * m) - sa * (x * k - m * q)
  {
    assert x * (k * sa) == sa * (x * k) by {
      MulAssoc(x, k, sa);
      assert sa * (x * k) == x * k * sa;
    }
    assert m * (sa * q) == sa * (m * q) by {
      MulAssoc(m, sa, q);
      MulAssoc(sa, m, q);
      assert m * sa == sa * m;
    }
    assert m * (x * room) == x * (room * m) by {
      MulAssoc(x, room, m);
      assert m * (x * room) == x * room * m;
    }
  }

  lemma ProductBounds(x: int, f: int, b: int)
    requires 0 <= x && -b <= 2 * f <= b
    ensures -(x * b) <= 2 * (x * f) <= x * b
  {
    MulMonotone(-b, 2 * f, x);
    MulMonotone(2 * f, b, x);
    assert (2 * f) * x == 2 * (x * f) && b * x == x * b && (-b) * x == -(x * b);
  }
}
