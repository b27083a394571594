/** Straight lines on the integer grid: one point by division, whole lines by an error accumulator
    (sections 9.2.6 and 9.2.7 of the Vorbis I specification). */
module Lines {
  import opened BitMath

  const FLAG := 0x8000

  /** `x & 0x7fff` */
  function Masked(x: int): (r: nat)
    ensures r < FLAG
  {
    x % FLAG
  }

  /** `x & 0x8000` is set. */
  predicate Flagged(x: int)
  {
    (x / FLAG) % 2 == 1
  }

  /** `x | 0x8000` */
  function WithFlag(x: int): int
  {
    if Flagged(x) then x else x + FLAG
  }

  lemma FlagFacts(x: int)
    requires 0 <= x < FLAG
    ensures Masked(x) == x && !Flagged(x) && WithFlag(x) == x + FLAG
    ensures Masked(x + FLAG) == x && Flagged(x + FLAG)
  {
  }

  /** How far `k` of `adx` steps go along a rise of `ady`. */
  function Offset(ady: nat, adx: nat, k: nat): nat
    requires adx > 0
  {
    ady * k / adx
  }

  function RenderPoint(x0: int, x1: int, y0: int, y1: int, x: int): int
    requires x0 < x1 && x0 <= x
  {
    var a, b := Masked(y0), Masked(y1);
    var off := Offset(Abs(b - a), x1 - x0, x - x0);
    if b - a < 0 then a - off else a + off
  }

  lemma OffsetIs(ady: nat, adx: nat, k: nat, off: nat)
    requires adx > 0 && off * adx <= ady * k < off * adx + adx
    ensures Offset(ady, adx, k) == off
  {
    DivModUnique(ady * k, off, adx, ady * k - off * adx);
  }

  lemma OffsetBetween(ady: nat, adx: nat, k: nat)
    requires k <= adx && adx > 0
    ensures 0 <= Offset(ady, adx, k) <= ady
    ensures Offset(ady, adx, 0) == 0 && Offset(ady, adx, adx) == ady
  {
    OffsetIs(ady, adx, 0, 0);
    OffsetIs(ady, adx, adx, ady);
    var off := Offset(ady, adx, k);
    DivMod(ady * k, adx);
    MulMonotone(k, adx, ady);
    if off > ady {
      MulStep(ady, off, adx);
    }
  }

  /** A point of a line lies between its ends. */
  lemma PointBetween(x0: int, x1: int, y0: int, y1: int, x: int)
    requires x0 < x1 && x0 <= x <= x1
    ensures var a, b, y := Masked(y0), Masked(y1), RenderPoint(x0, x1, y0, y1, x);
      if a <= b then a <= y <= b else b <= y <= a
    ensures RenderPoint(x0, x1, y0, y1, x0) == Masked(y0) && RenderPoint(x0, x1, y0, y1, x1) == Masked(y1)
  {
    hide Masked, Offset;
    OffsetBetween(Abs(Masked(y1) - Masked(y0)), x1 - x0, x - x0);
  }

  // ---------------------------------------------------------------------------------------------
  // The error accumulator
  // ---------------------------------------------------------------------------------------------

  /** `k` steps into a line: the height reached is the exact one rounded toward the start, and the
      accumulator holds the remainder. */
  ghost predicate OnLine(dy: int, adx: nat, k: nat, rise: int, err: int)
  {
    && 0 <= err < adx
    && (if dy < 0 then rise <= 0 && -rise * adx + err == -dy * k else rise >= 0 && rise * adx + err == dy * k)
  }

  /** The constants of a line: `base` whole units a step, and one more whenever `slack` adds up to `adx`. */
  ghost predicate LineSteps(dy: int, adx: nat, base: int, sy: int, slack: int)
  {
    && adx > 0 && 0 <= slack < adx
    && (if dy < 0 then base <= 0 && sy == base - 1 && -base * adx + slack == -dy
        else base >= 0 && sy == base + 1 && base * adx + slack == dy)
  }

  lemma LineSetup(dy: int, adx: nat)
    requires adx > 0
    ensures var base := Quot(dy, adx);
      LineSteps(dy, adx, base, if dy < 0 then base - 1 else base + 1, Abs(dy) - Abs(base * adx))
  {
    hide Quot;
    var base := Quot(dy, adx);
    QuotSize(dy, adx);
    Signs(Abs(base), adx);
  }

  lemma QuotSize(a: int, d: nat)
    requires d > 0
    ensures var q := Quot(a, d); Abs(q) * d <= Abs(a) < Abs(q) * d + d && (if a < 0 then q <= 0 else q >= 0)
  {
    DivMod(Abs(a), d);
  }

  lemma Signs(q: int, d: nat)
    requires q >= 0
    ensures q * d >= 0 && -q * d == -(q * d)
  {
  }

  /** One step of the accumulator stays on the line. */
  lemma LineStep(dy: int, adx: nat, base: int, sy: int, slack: int, k: nat, rise: int, err: int)
    requires LineSteps(dy, adx, base, sy, slack) && OnLine(dy, adx, k, rise, err)
    ensures if err + slack >= adx then OnLine(dy, adx, k + 1, rise + sy, err + slack - adx)
            else OnLine(dy, adx, k + 1, rise + base, err + slack)
  {
    if dy < 0 {
      assert -dy * (k + 1) == -dy * k + -dy;
      assert -(rise + base) * adx == -rise * adx + -base * adx;
      assert -(rise + sy) * adx == -rise * adx + -base * adx + adx;
    } else {
      assert dy * (k + 1) == dy * k + dy;
      assert (rise + base) * adx == rise * adx + base * adx;
      assert (rise + sy) * adx == rise * adx + base * adx + adx;
    }
  }

  /** On the line means: where `RenderPoint` says. */
  lemma OnLineIsPoint(x0: int, x1: int, y0: int, y1: int, x: int, rise: int, err: int)
    requires x0 < x1 && x0 <= x && 0 <= y0 < FLAG && 0 <= y1 < FLAG
    requires OnLine(y1 - y0, x1 - x0, x - x0, rise, err)
    ensures y0 + rise == RenderPoint(x0, x1, y0, y1, x)
  {
    hide Masked, Flagged, Offset;
    FlagFacts(y0);
    FlagFacts(y1);
    OffsetIs(Abs(y1 - y0), x1 - x0, x - x0, Abs(rise));
  }

  /** Bins `x0` up to the end of the line or of the block. */
  function LineEnd(n: int, x1: int): int
  {
    if n > x1 then x1 else n
  }

  method RenderLine0(n: int, x0: nat, x1: int, y0: int, y1: int, d: array<int>)
    requires x0 < x1 && n <= d.Length && 0 <= y0 < FLAG && 0 <= y1 < FLAG
    modifies d
    ensures forall x :: x0 <= x < LineEnd(n, x1) ==> d[x] == RenderPoint(x0, x1, y0, y1, x)
    ensures forall x :: 0 <= x < d.Length && !(x0 <= x < LineEnd(n, x1)) ==> d[x] == old(d[x])
  {
    hide RenderPoint, Quot, OnLine, LineSteps;
    var dy := y1 - y0;
    var adx := x1 - x0;
    var base := Quot(dy, adx);
    var sy := if dy < 0 then base - 1 else base + 1;
    var slack := Abs(dy) - Abs(base * adx);
    LineSetup(dy, adx);
    var x: nat := x0;
    var y := y0;
    var err := 0;
    var n' := if n > x1 then x1 else n;
    StartOnLine(dy, adx);
    OnLineIsPoint(x0, x1, y0, y1, x, 0, 0);
    if x < n' {
      d[x] := y;
    }
    x := x + 1;
    while x < n'
      invariant x0 < x && (x <= n' || x == x0 + 1)
      invariant OnLine(dy, adx, x - 1 - x0, y - y0, err)
      invariant forall k :: x0 <= k < x && k < n' ==> d[k] == RenderPoint(x0, x1, y0, y1, k)
      invariant forall k :: 0 <= k < d.Length && !(x0 <= k < x && k < n') ==> d[k] == old(d[k])
    {
      LineStep(dy, adx, base, sy, slack, x - 1 - x0, y - y0, err);
      err := err + slack;
      if err >= adx {
        err := err - adx;
        y := y + sy;
      } else {
        y := y + base;
      }
      OnLineIsPoint(x0, x1, y0, y1, x, y - y0, err);
      d[x] := y;
      x := x + 1;
    }
  }

  lemma StartOnLine(dy: int, adx: nat)
    requires adx > 0
    ensures OnLine(dy, adx, 0, 0, 0)
  {
  }

  /** A sample under the floor value of its bin. */
  function Floored(v: real, table: seq<real>, y: int): real
    requires 0 <= y < |table|
  {
    v * table[y]
  }

  /** The same walk, scaling each bin by the table entry at the height of the line. */
  method RenderLine(n: int, x0: nat, x1: int, y0: int, y1: int, d: array<real>, table: seq<real>)
    requires x0 < x1 && n <= d.Length && 0 <= y0 < |table| <= FLAG && 0 <= y1 < |table|
    modifies d
    ensures forall x :: x0 <= x < LineEnd(n, x1) ==>
      0 <= RenderPoint(x0, x1, y0, y1, x) < |table| && d[x] == Floored(old(d[x]), table, RenderPoint(x0, x1, y0, y1, x))
    ensures forall x :: 0 <= x < d.Length && !(x0 <= x < LineEnd(n, x1)) ==> d[x] == old(d[x])
  {
    hide RenderPoint, Quot, OnLine, LineSteps, Floored;
    var dy := y1 - y0;
    var adx := x1 - x0;
    var base := Quot(dy, adx);
    var sy := if dy < 0 then base - 1 else base + 1;
    var slack := Abs(dy) - Abs(base * adx);
    LineSetup(dy, adx);
    var x: nat := x0;
    var y := y0;
    var err := 0;
    var n' := if n > x1 then x1 else n;
    StartOnLine(dy, adx);
    OnLineIsPoint(x0, x1, y0, y1, x, 0, 0);
    if x < n' {
      d[x] := Floored(d[x], table, y);
    }
    x := x + 1;
    while x < n'
      invariant x0 < x && (x <= n' || x == x0 + 1)
      invariant OnLine(dy, adx, x - 1 - x0, y - y0, err)
      invariant forall k :: x0 <= k < x && k < n' ==>
        0 <= RenderPoint(x0, x1, y0, y1, k) < |table|
        && d[k] == Floored(old(d[k]), table, RenderPoint(x0, x1, y0, y1, k))
      invariant forall k :: 0 <= k < d.Length && !(x0 <= k < x && k < n') ==> d[k] == old(d[k])
    {
      LineStep(dy, adx, base, sy, slack, x - 1 - x0, y - y0, err);
      err := err + slack;
      if err >= adx {
        err := err - adx;
        y := y + sy;
      } else {
        y := y + base;
      }
      OnLineIsPoint(x0, x1, y0, y1, x, y - y0, err);
      InTable(x0, x1, y0, y1, x, |table|);
      d[x] := Floored(d[x], table, y);
      x := x + 1;
    }
  }

  lemma InTable(x0: int, x1: int, y0: int, y1: int, x: int, size: int)
    requires x0 < x1 && x0 <= x <= x1 && 0 <= y0 < size <= FLAG && 0 <= y1 < size
    ensures 0 <= RenderPoint(x0, x1, y0, y1, x) < size
  {
    hide Masked, Flagged, RenderPoint;
    FlagFacts(y0);
    FlagFacts(y1);
    PointBetween(x0, x1, y0, y1, x);
  }
}
