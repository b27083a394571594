/** Combining rows of pixels in place. */
module Combine {
  import opened BitMath
  import opened Lanes
  import opened Packed
  import opened Blend

  // ---------------------------------------------------------------------------------------------
  // Words and pixels
  // ---------------------------------------------------------------------------------------------

  /** `BLUE`, `GREEN`, `RED`, `ALPHA` */
  function BlueOf(c: nat, w: nat): nat
  {
    And(w, Mask(c))
  }

  function GreenOf(c: nat, w: nat): nat
  {
    And(Shr(c, w), Mask(c))
  }

  function RedOf(c: nat, w: nat): nat
  {
    And(Shr(c, Shr(c, w)), Mask(c))
  }

  function AlphaOf(c: nat, w: nat): nat
  {
    Shr(c, Shr(c, Shr(c, w)))
  }

  /** `~w` */
  function Not(c: nat, w: nat): nat
    requires InWord(c, w)
  {
    Base(c) * Base(c) * Base(c) * Base(c) - 1 - w
  }

  function Unpack(c: nat, w: nat): Pixel
  {
    Pixel(w % Base(c), Shr(c, w) % Base(c), Shr(c, Shr(c, w)) % Base(c), AlphaOf(c, w))
  }

  lemma ExtractAll(c: nat, p: Pixel)
    requires Fits(c, p)
    ensures BlueOf(c, Pack(c, p)) == p.b && GreenOf(c, Pack(c, p)) == p.g && RedOf(c, Pack(c, p)) == p.r
    ensures AlphaOf(c, Pack(c, p)) == p.a
  {
    hide And, Shr, Base, Mask, W4;
    PickLow(c, p.b, p.g, p.r, p.a);
    ShiftDown(c, p.b, p.g, p.r, p.a);
    BasePositive(c);
    PickLow(c, p.g, p.r, p.a, 0);
    ShiftDown(c, p.g, p.r, p.a, 0);
    PickLow(c, p.r, p.a, 0, 0);
    ShiftDown(c, p.r, p.a, 0, 0);
    JustLow(c, p.a);
  }

  lemma JustLow(c: nat, x: nat)
    ensures W4(Base(c), x, 0, 0, 0) == x
  {
    assert 0 * Base(c) == 0;
  }

  /** Every word is the packing of its components. */
  lemma Unpacked(c: nat, w: nat)
    requires InWord(c, w)
    ensures Fits(c, Unpack(c, w)) && Pack(c, Unpack(c, w)) == w
  {
    hide Base;
    BasePositive(c);
    var b := Base(c);
    SplitOnce(w, b, b * b * b);
    SplitOnce(Shr(c, w), b, b * b);
    SplitOnce(Shr(c, Shr(c, w)), b, b);
  }

  lemma SplitOnce(w: nat, b: nat, top: nat)
    requires b > 0 && w < top * b
    ensures w % b < b && w == w % b + Quotient(w, b) * b && Quotient(w, b) < top
  {
    DivMod(w, b);
    if w / b >= top {
      MulMonotone(top, w / b, b);
    }
  }

  lemma NotIsInverse(c: nat, p: Pixel)
    requires Fits(c, p)
    ensures InWord(c, Pack(c, p))
    ensures Not(c, Pack(c, p)) == Pack(c, Pixel(Inverse(c, p.b), Inverse(c, p.g), Inverse(c, p.r), Inverse(c, p.a)))
  {
    hide Base;
    BasePositive(c);
    WordFits(c, p.b, p.g, p.r, p.a);
    var b := Base(c);
    Expand(b, p.b, p.g, p.r, p.a);
    Expand(b, b - 1 - p.b, b - 1 - p.g, b - 1 - p.r, b - 1 - p.a);
    TakeFrom(b - 1, p.g, b);
    TakeFrom(b - 1, p.r, b * b);
    TakeFrom(b - 1, p.a, b * b * b);
    assert b * (b * b) == b * b * b && b * (b * b * b) == b * b * b * b;
  }

  lemma TakeFrom(m: int, x: int, p: int)
    ensures (m - x) * p == m * p - x * p
    ensures m * p == (m + 1) * p - p
  {
  }

  lemma InverseAlpha(c: nat, p: Pixel)
    requires Fits(c, p)
    ensures InWord(c, Pack(c, p)) && AlphaOf(c, Not(c, Pack(c, p))) == Inverse(c, p.a) < Base(c)
  {
    hide Base, W4, AlphaOf, Not, InWord;
    BasePositive(c);
    NotIsInverse(c, p);
    ExtractAll(c, Pixel(Inverse(c, p.b), Inverse(c, p.g), Inverse(c, p.r), Inverse(c, p.a)));
  }

  // ---------------------------------------------------------------------------------------------
  // One pixel
  // ---------------------------------------------------------------------------------------------

  lemma PlainAdd(c: nat, p: Pixel, q: Pixel)
    ensures Pack(c, p) + Shl(c, Shl(c, Shl(c, q.a))) + Shl(c, Shl(c, q.r)) + Shl(c, q.g) + q.b
        == Pack(c, PlainSum(p, q))
  {
    hide Base, W4;
    var b := Base(c);
    Expand(b, p.b, p.g, p.r, p.a);
    Expand(b, p.b + q.b, p.g + q.g, p.r + q.r, p.a + q.a);
    Grow(p.a, q.a, b * b * b);
    Grow(p.r, q.r, b * b);
    Grow(p.g, q.g, b);
    Powers(q.a, q.r, b);
  }

  lemma Powers(x: nat, y: nat, b: nat)
    ensures x * b * b * b == x * (b * b * b) && y * b * b == y * (b * b)
  {
    MulAssoc(x * b, b, b);
    MulAssoc(x, b, b * b);
    MulAssoc(b, b, b);
  }

  lemma Grow(x: nat, y: nat, p: nat)
    ensures (x + y) * p == x * p + y * p
  {
  }

  /** A separable blend mode on one pixel. */
  method BlendPixel(c: nat, mode: Mode, s: nat, d: nat, ghost ps: Pixel, ghost pd: Pixel) returns (r: nat)
    requires c >= 1 && Fits(c, ps) && Fits(c, pd) && Premultiplied(ps) && Premultiplied(pd) && s == Pack(c, ps)
    requires d == Pack(c, pd)
    ensures r == Pack(c, OpPixel(c, Pdf(mode), ps, pd))
  {
    hide AlphaOf, RedOf, GreenOf, BlueOf, Not, Shl, BlendUn8, MulUn8, Inverse, Plus, Scale, W4, InWord, Pack, Base;
    ExtractAll(c, ps);
    ExtractAll(c, pd);
    InverseAlpha(c, ps);
    InverseAlpha(c, pd);
    AlphaFits(c, ps);
    AlphaFits(c, pd);
    var sa, isa := AlphaOf(c, s), AlphaOf(c, Not(c, s));
    var da, ida := AlphaOf(c, d), AlphaOf(c, Not(c, d));
    r := Un8x4MulAddMul(c, d, isa, s, ida, pd, ps);
    PlainAdd(c, Plus(c, Scale(c, pd, Inverse(c, ps.a)), Scale(c, ps, Inverse(c, pd.a))), Blended(c, mode, ps, pd));
    r := r + Shl(c, Shl(c, Shl(c, MulUn8(c, sa, da))))
           + Shl(c, Shl(c, BlendUn8(c, mode, RedOf(c, d), da, RedOf(c, s), sa)))
           + Shl(c, BlendUn8(c, mode, GreenOf(c, d), da, GreenOf(c, s), sa))
           + BlendUn8(c, mode, BlueOf(c, d), da, BlueOf(c, s), sa);
  }

  lemma AlphaFits(c: nat, p: Pixel)
    requires Fits(c, p)
    ensures p.a < Base(c)
  {
  }

  /** Fade the source where there is no room for all of it. */
  method FadePixel(c: nat, s: nat, d: nat, ghost ps: Pixel, ghost pd: Pixel) returns (r: nat)
    requires c >= 1 && Fits(c, ps) && Fits(c, pd) && s == Pack(c, ps) && d == Pack(c, pd)
    ensures pd.a < Base(c) && r == Pack(c, Faded(c, ps, pd))
  {
    hide AlphaOf, Not, DivUn8, Inverse, Scale, W4, InWord, Pack, Base;
    ExtractAll(c, ps);
    InverseAlpha(c, pd);
    AlphaFits(c, pd);
    var sa, da := AlphaOf(c, s), AlphaOf(c, Not(c, d));
    r := s;
    if sa > da {
      DivUn8Fits(c, da, sa);
      sa := DivUn8(c, da, sa);
      r := Un8x4Mul(c, s, sa, ps);
    }
  }

  /** One operator on one pixel, in the packed arithmetic; the blend modes rely on premultiplied pixels. */
  method CombinePixel(c: nat, op: Op, s: nat, d: nat, ghost ps: Pixel, ghost pd: Pixel) returns (r: nat)
    requires c >= 1 && Fits(c, ps) && Fits(c, pd) && s == Pack(c, ps) && d == Pack(c, pd)
    requires op.Pdf? ==> Premultiplied(ps) && Premultiplied(pd)
    ensures r == Pack(c, OpPixel(c, op, ps, pd))
  {
    hide AlphaOf, Not, Inverse, Plus, Scale, Times, Faded, Blended, PlainSum, W4, InWord, Pack, Base, Premultiplied;
    hide Fits;
    ExtractAll(c, ps);
    ExtractAll(c, pd);
    InverseAlpha(c, ps);
    InverseAlpha(c, pd);
    AlphaFits(c, ps);
    AlphaFits(c, pd);
    var a, ia := AlphaOf(c, s), AlphaOf(c, Not(c, s));
    var da, ida := AlphaOf(c, d), AlphaOf(c, Not(c, d));
    match op
    case Over =>
      r := Un8x4MulAdd(c, d, ia, s, pd, ps);
    case OverReverse =>
      r := Un8x4MulAdd(c, s, ida, d, ps, pd);
    case In =>
      r := Un8x4Mul(c, s, da, ps);
    case InReverse =>
      r := Un8x4Mul(c, d, a, pd);
    case Out =>
      r := Un8x4Mul(c, s, ida, ps);
    case OutReverse =>
      r := Un8x4Mul(c, d, ia, pd);
    case Atop =>
      r := Un8x4MulAddMul(c, s, da, d, ia, ps, pd);
    case AtopReverse =>
      r := Un8x4MulAddMul(c, s, ida, d, a, ps, pd);
    case Xor =>
      r := Un8x4MulAddMul(c, s, ida, d, ia, ps, pd);
    case Add =>
      r := Un8x4Add(c, d, s, pd, ps);
    case Saturate =>
      var f := FadePixel(c, s, d, ps, pd);
      FadedFits(c, ps, pd);
      r := Un8x4Add(c, d, f, pd, Faded(c, ps, pd));
    case Multiply =>
      var ss := Un8x4MulAddMul(c, s, ida, d, ia, ps, pd);
      r := Un8x4Mul4(c, d, s, pd, ps);
      r := Un8x4Add(c, r, ss, Times(c, pd, ps),
                    Plus(c, Scale(c, ps, Inverse(c, pd.a)), Scale(c, pd, Inverse(c, ps.a))));
    case Pdf(mode) =>
      r := BlendPixel(c, mode, s, d, ps, pd);
  }

  // ---------------------------------------------------------------------------------------------
  // Rows
  // ---------------------------------------------------------------------------------------------

  /** A word holding a premultiplied pixel. */
  ghost predicate PixelWord(c: nat, w: nat)
  {
    InWord(c, w) && Premultiplied(Unpack(c, w))
  }

  /** A word an operator can take: any for most of them, a premultiplied pixel for the blend modes. */
  ghost predicate Operand(c: nat, op: Op, w: nat)
  {
    InWord(c, w) && (op.Pdf? ==> Premultiplied(Unpack(c, w)))
  }

  /** The source pixel as the mask lets it through. */
  function Masked(c: nat, s: Pixel, m: nat): Pixel
  {
    Scale(c, s, m)
  }

  lemma MaskedKeeps(c: nat, s: Pixel, m: nat)
    requires c >= 1 && Fits(c, s) && m < Base(c)
    ensures Fits(c, Masked(c, s, m)) && (Premultiplied(s) ==> Premultiplied(Masked(c, s, m)))
    ensures Pack(c, Masked(c, s, 0)) == 0
  {
    hide Base;
    ScaleFits(c, s, m);
    if Premultiplied(s) {
      ScalePremultiplied(c, s, m);
    }
    DivOneWhole(c, 0);
    assert 0 * Base(c) == 0;
  }

  /** The source pixel of word `w` at place `i`. */
  ghost function SourcePixel(c: nat, w: nat, mask: seq<nat>, i: nat): Pixel
    requires mask == [] || i < |mask|
  {
    if mask == [] then Unpack(c, w) else Masked(c, Unpack(c, w), Unpack(c, mask[i]).a)
  }

  /** `combine_mask`; an absent mask is an empty row. */
  method CombineMask(c: nat, w: nat, mask: seq<nat>, i: nat) returns (s: nat)
    requires c >= 1 && (mask == [] || (i < |mask| && InWord(c, mask[i]))) && InWord(c, w)
    ensures Fits(c, SourcePixel(c, w, mask, i)) && s == Pack(c, SourcePixel(c, w, mask, i))
    ensures PixelWord(c, w) ==> Premultiplied(SourcePixel(c, w, mask, i))
  {
    hide AlphaOf, Scale, W4, InWord, Pack, Base, Premultiplied;
    Unpacked(c, w);
    ghost var p := Unpack(c, w);
    var m := 0;
    if mask != [] {
      Unpacked(c, mask[i]);
      AlphaFits(c, Unpack(c, mask[i]));
      ExtractAll(c, Unpack(c, mask[i]));
      m := AlphaOf(c, mask[i]);
      MaskedKeeps(c, p, m);
      if m == 0 {
        return 0;
      }
    }
    s := w;
    if mask != [] {
      s := Un8x4Mul(c, s, m, p);
    }
  }

  /** Combine a row of source pixels, through a mask if there is one, into the destination, which may be the
      source row itself. */
  method CombineRow(c: nat, op: Op, dest: array<nat>, src: array<nat>, mask: seq<nat>, width: nat)
    requires c >= 1 && width <= dest.Length && width <= src.Length && (mask == [] || width <= |mask|)
    requires forall i :: 0 <= i < width ==>
      Operand(c, op, dest[i]) && Operand(c, op, src[i]) && (mask != [] ==> InWord(c, mask[i]))
    modifies dest
    ensures forall i :: 0 <= i < width ==> Combined(c, op, old(src[i]), mask, i, old(dest[i]), dest[i])
    ensures forall i :: 0 <= i < width && old(PixelWord(c, dest[i]) && PixelWord(c, src[i])) ==> PixelWord(c, dest[i])
    ensures forall i :: width <= i < dest.Length ==> dest[i] == old(dest[i])
  {
    hide PixelWord, Operand, Combined;
    var i := 0;
    while i < width
      invariant 0 <= i <= width
      invariant forall k :: i <= k < src.Length ==> src[k] == old(src[k])
      invariant forall k :: 0 <= k < i ==> Combined(c, op, old(src[k]), mask, k, old(dest[k]), dest[k])
      invariant forall k :: 0 <= k < i && old(PixelWord(c, dest[k]) && PixelWord(c, src[k])) ==> PixelWord(c, dest[k])
      invariant forall k :: i <= k < dest.Length ==> dest[k] == old(dest[k])
    {
      var r := CombineOne(c, op, dest[i], src[i], mask, i);
      dest[i] := r;
      i := i + 1;
    }
  }

  /** What became of pixel `i`, from source word `w`. */
  ghost predicate Combined(c: nat, op: Op, w: nat, mask: seq<nat>, i: nat, before: nat, after: nat)
    requires mask == [] || i < |mask|
  {
    var s, d := SourcePixel(c, w, mask, i), Unpack(c, before);
    && Fits(c, s) && Fits(c, d) && (op.Pdf? ==> Premultiplied(s) && Premultiplied(d))
    && Fits(c, OpPixel(c, op, s, d)) && after == Pack(c, OpPixel(c, op, s, d))
  }

  method CombineOne(c: nat, op: Op, d: nat, w: nat, mask: seq<nat>, i: nat) returns (r: nat)
    requires c >= 1 && (mask == [] || (i < |mask| && InWord(c, mask[i])))
    requires Operand(c, op, d) && Operand(c, op, w)
    ensures Combined(c, op, w, mask, i, d, r) && (PixelWord(c, d) && PixelWord(c, w) ==> PixelWord(c, r))
  {
    hide OpPixel, W4, InWord, Pack, Base, Premultiplied, Fits, Unpack, SourcePixel;
    Unpacked(c, d);
    var s := CombineMask(c, w, mask, i);
    ghost var ps, pd := SourcePixel(c, w, mask, i), Unpack(c, d);
    r := CombinePixel(c, op, s, d, ps, pd);
    if Premultiplied(ps) && Premultiplied(pd) {
      OpKeeps(c, op, ps, pd);
      RepackedPixel(c, OpPixel(c, op, ps, pd));
    } else {
      OpFits(c, op, ps, pd);
    }
  }

  lemma RepackedPixel(c: nat, p: Pixel)
    requires Fits(c, p) && Premultiplied(p)
    ensures PixelWord(c, Pack(c, p))
  {
    hide Base, Shr, AlphaOf;
    WordFits(c, p.b, p.g, p.r, p.a);
    UnpackOfPack(c, p);
  }

  lemma UnpackOfPack(c: nat, p: Pixel)
    requires Fits(c, p)
    ensures Unpack(c, Pack(c, p)) == p
  {
    hide Shr, AlphaOf, Base, W4;
    BasePositive(c);
    ExtractAll(c, p);
    ShiftDown(c, p.b, p.g, p.r, p.a);
    ShiftDown(c, p.g, p.r, p.a, 0);
    LowOfWord(c, p.b, p.g, p.r, p.a);
    LowOfWord(c, p.g, p.r, p.a, 0);
    LowOfWord(c, p.r, p.a, 0, 0);
  }

  lemma LowOfWord(c: nat, x0: nat, x1: nat, x2: nat, x3: nat)
    requires x0 < Base(c)
    ensures W4(Base(c), x0, x1, x2, x3) % Base(c) == x0
  {
    hide Base;
    LowDigit(x0, x1 + (x2 + x3 * Base(c)) * Base(c), Base(c));
  }

  lemma LowDigit(x: nat, u: nat, b: nat)
    requires x < b
    ensures (x + u * b) % b == x
  {
    DivModUnique(x + u * b, u, b, x);
  }
}
