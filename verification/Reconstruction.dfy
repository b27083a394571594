/** What overlap-add is for: blocks that went out under the analysis window join into the signal again. */
module Reconstruction {
  import opened Synthesis

  /** The squares of a slope and of its reverse add up to one everywhere. */
  ghost predicate Complementary(s: seq<real>)
  {
    forall k :: 0 <= k < |s| ==> s[k] * s[k] + s[|s| - 1 - k] * s[|s| - 1 - k] == 1.0
  }

  /** A stretch `x` under a falling slope `s`, plus `fold` times its mirror image under the slope: what a lapped
      transform and its inverse make of it, or with `fold` 0 what the window alone does. */
  function Fallen(x: seq<real>, s: seq<real>, fold: real): (r: seq<real>)
    requires |x| == |s|
    ensures |r| == |s|
  {
    seq(|s|, k requires 0 <= k < |s| => x[k] * s[|s| - 1 - k] + fold * (x[|s| - 1 - k] * s[k]))
  }

  /** The same under the rising slope, with the mirror image taken off. */
  function Risen(x: seq<real>, s: seq<real>, fold: real): (r: seq<real>)
    requires |x| == |s|
    ensures |r| == |s|
  {
    seq(|s|, k requires 0 <= k < |s| => x[k] * s[k] - fold * (x[|s| - 1 - k] * s[|s| - 1 - k]))
  }

  /** `a`, the second half of a block, holds the signal `x` from the block's centre on: whole as far as the slope, under
      the slope about the middle, and anything beyond. */
  ghost predicate Leaves(a: seq<real>, x: seq<real>, s: seq<real>, fold: real)
  {
    var edge := |a| / 2 - |s| / 2;
    && 0 <= edge && edge + |s| <= |a| && edge + |s| <= |x|
    && a[..edge] == x[..edge] && a[edge..edge + |s|] == Fallen(x[edge..edge + |s|], s, fold)
  }

  /** `b`, the first half of a block, holds the signal `x` that ends at the block's centre: anything before the slope,
      under the slope about the middle, and whole from there. */
  ghost predicate Enters(b: seq<real>, x: seq<real>, s: seq<real>, fold: real)
  {
    var edge := |b| / 2 - |s| / 2;
    var from := |x| - |b| + edge;
    && 0 <= edge && edge + |s| <= |b| && 0 <= from
    && b[edge..edge + |s|] == Risen(x[from..from + |s|], s, fold) && b[edge + |s|..] == x[from + |s|..]
  }

  /** The window applied twice gives the sample back, and its mirror image cancels. */
  lemma FoldCancels(x: real, y: real, f: real, r: real, fold: real, a: real, b: real)
    requires f * f + r * r == 1.0 && a == x * f + fold * (y * r) && b == x * r - fold * (y * f)
    ensures Gain(a, f) + Gain(b, r) == x
  {
    assert (x * f + fold * (y * r)) * f == x * (f * f) + fold * (y * r) * f;
    assert (x * r - fold * (y * f)) * r == x * (r * r) - fold * (y * f) * r;
    MirrorsEqual(fold, y, r, f);
    assert x * (f * f) + x * (r * r) == x * (f * f + r * r);
  }

  lemma MirrorsEqual(fold: real, y: real, r: real, f: real)
    ensures fold * (y * r) * f == fold * (y * f) * r
  {
    assert (y * r) * f == (y * f) * r;
    assert fold * (y * r) * f == fold * ((y * r) * f);
    assert fold * (y * f) * r == fold * ((y * f) * r);
  }

  lemma SlopeAt(s: seq<real>, k: nat)
    requires Complementary(s) && k < |s|
    ensures s[|s| - 1 - k] * s[|s| - 1 - k] + s[k] * s[k] == 1.0
  {
  }

  /** One sample under the slopes. */
  lemma CrossRestores(x: seq<real>, s: seq<real>, fold: real, k: nat)
    requires |x| == |s| && k < |s| && Complementary(s)
    ensures Gain(Fallen(x, s, fold)[k], s[|s| - 1 - k]) + Gain(Risen(x, s, fold)[k], s[k]) == x[k]
  {
    hide Complementary, Gain;
    SlopeAt(s, k);
    FoldCancels(x[k], x[|s| - 1 - k], s[|s| - 1 - k], s[k], fold, Fallen(x, s, fold)[k], Risen(x, s, fold)[k]);
  }

  lemma PieceAt(a: seq<real>, i: nat, part: seq<real>, k: nat)
    requires i + |part| <= |a| && a[i..i + |part|] == part && k < |part|
    ensures a[i + k] == part[k]
  {
    assert a[i..i + |part|][k] == a[i + k];
  }

  /** A joint of two halves that hold the signal `x`, sizes given. */
  ghost predicate Joint(a: seq<real>, b: seq<real>, x: seq<real>, s: seq<real>, fold: real)
  {
    && |a| % 2 == 0 && |b| % 2 == 0 && |s| % 2 == 0 && |x| == |a| / 2 + |b| / 2
    && Complementary(s) && Leaves(a, x, s, fold) && Enters(b, x, s, fold)
  }

  lemma BeforeSlope(a: seq<real>, b: seq<real>, x: seq<real>, s: seq<real>, fold: real, i: nat)
    requires Joint(a, b, x, s, fold) && i < |a| / 2 - |s| / 2
    ensures Lap(a, b, s, i) == x[i]
  {
    hide Gain, Complementary, Fallen, Risen;
    var j := i + |b| / 2 - |a| / 2;
    PieceAt(a, 0, x[..|a| / 2 - |s| / 2], i);
    GainFlat(a[i]);
    if 0 <= j < |b| {
      GainFlat(b[j]);
    }
  }

  lemma OnSlope(a: seq<real>, b: seq<real>, x: seq<real>, s: seq<real>, fold: real, k: nat)
    requires Joint(a, b, x, s, fold) && k < |s|
    ensures var i := |a| / 2 - |s| / 2 + k; i < |x| && Lap(a, b, s, i) == x[i]
  {
    hide Gain, Complementary, Fallen, Risen;
    var edge := |a| / 2 - |s| / 2;
    var part := x[edge..edge + |s|];
    CrossRestores(part, s, fold, k);
    PieceAt(a, edge, Fallen(part, s, fold), k);
    PieceAt(b, |b| / 2 - |s| / 2, Risen(part, s, fold), k);
  }

  lemma BeyondSlope(a: seq<real>, b: seq<real>, x: seq<real>, s: seq<real>, fold: real, i: nat)
    requires Joint(a, b, x, s, fold) && |a| / 2 - |s| / 2 + |s| <= i < |x|
    ensures Lap(a, b, s, i) == x[i]
  {
    hide Gain, Complementary, Fallen, Risen;
    var edge := |a| / 2 - |s| / 2;
    if i < |a| {
      GainFlat(a[i]);
    }
    GainFlat(b[i + |b| / 2 - |a| / 2]);
    PieceAt(b, |b| / 2 - |s| / 2 + |s|, x[edge + |s|..], i - edge - |s|);
  }

  /** Perfect reconstruction, whatever the two block sizes: a stretch of signal between two centres that both blocks
      hold, each under its side of the slope and with its own mirror image, comes out of overlap-add as it was. */
  lemma Restores(a: seq<real>, b: seq<real>, x: seq<real>, s: seq<real>, fold: real)
    requires |a| % 2 == 0 && |b| % 2 == 0 && |s| % 2 == 0 && |x| == |a| / 2 + |b| / 2
    requires Complementary(s) && Leaves(a, x, s, fold) && Enters(b, x, s, fold)
    ensures Overlap(a, b, s) == x
  {
    hide Lap, Enters, Complementary;
    var edge := |a| / 2 - |s| / 2;
    forall i | 0 <= i < |x|
      ensures Lap(a, b, s, i) == x[i]
    {
      if i < edge {
        BeforeSlope(a, b, x, s, fold, i);
      } else if i < edge + |s| {
        OnSlope(a, b, x, s, fold, i - edge);
      } else {
        BeyondSlope(a, b, x, s, fold, i);
      }
    }
  }

  ghost predicate SlopesComplementary(st: Setup)
  {
    Complementary(st.shortSlope) && Complementary(st.longSlope)
  }

  /** So what a block makes available in the decoder, from any state with a block before it, is the signal between the
      two centres. */
  lemma BlockinRestores(st: Setup, stage: Stage, tail: seq<real>, w: bool, p: Packet, x: seq<real>, fold: real)
    requires st.Valid() && SlopesComplementary(st) && stage != Restarted
    requires |tail| == st.N(w) && |p.pcm| == 2 * st.N(p.W) && |x| == st.M(w) + st.M(p.W)
    requires Leaves(tail, x, st.Slope(w, p.W), fold) && Enters(p.pcm[..st.N(p.W)], x, st.Slope(w, p.W), fold)
    ensures Full(st, stage, tail, w, p) == x
  {
    hide Leaves, Enters, Complementary, Overlap, Setup.N;
    st.Bounds(w);
    st.Bounds(p.W);
    Restores(tail, p.pcm[..st.N(p.W)], x, st.Slope(w, p.W), fold);
  }

  /** A block's second half only depends on the signal as far as the slope goes, and its first half from the slope
      on. */
  lemma LeavesMore(a: seq<real>, x: seq<real>, y: seq<real>, s: seq<real>, fold: real)
    requires Leaves(a, x, s, fold)
    requires var upto := |a| / 2 - |s| / 2 + |s|; upto <= |y| && x[..upto] == y[..upto]
    ensures Leaves(a, y, s, fold)
  {
    hide Fallen;
    var edge := |a| / 2 - |s| / 2;
    var upto := edge + |s|;
    assert x[..upto][..edge] == x[..edge] && y[..upto][..edge] == y[..edge];
    assert x[..upto][edge..] == x[edge..upto] && y[..upto][edge..] == y[edge..upto];
  }

  lemma EntersMore(b: seq<real>, x: seq<real>, y: seq<real>, s: seq<real>, fold: real)
    requires Enters(b, x, s, fold)
    requires var left := |b| - (|b| / 2 - |s| / 2); left <= |y| && x[|x| - left..] == y[|y| - left..]
    ensures Enters(b, y, s, fold)
  {
    hide Risen;
    var left := |b| - (|b| / 2 - |s| / 2);
    var i, j := |x| - left, |y| - left;
    assert x[i..][..|s|] == x[i..i + |s|] && y[j..][..|s|] == y[j..j + |s|];
    assert x[i..][|s|..] == x[i + |s|..] && y[j..][|s|..] == y[j + |s|..];
  }

  // ---------------------------------------------------------------------------------------------
  // The analysis window
  // ---------------------------------------------------------------------------------------------

  method Silence(d: array<real>, from: nat, to: nat)
    requires from <= to <= d.Length
    modifies d
    ensures forall i :: from <= i < to ==> d[i] == 0.0
    ensures forall i :: 0 <= i < d.Length && !(from <= i < to) ==> d[i] == old(d[i])
  {
    var i := from;
    while i < to
      invariant from <= i <= to && forall k :: from <= k < i ==> d[k] == 0.0
      invariant forall k :: 0 <= k < d.Length && !(from <= k < i) ==> d[k] == old(d[k])
    {
      d[i] := 0.0;
      i := i + 1;
    }
  }

  method RiseUnder(d: array<real>, from: nat, s: seq<real>)
    requires from + |s| <= d.Length
    modifies d
    ensures forall i :: from <= i < from + |s| ==> d[i] == Gain(old(d[i]), s[i - from])
    ensures forall i :: 0 <= i < d.Length && !(from <= i < from + |s|) ==> d[i] == old(d[i])
  {
    var p := 0;
    while p < |s|
      invariant 0 <= p <= |s| && forall i :: from <= i < from + p ==> d[i] == Gain(old(d[i]), s[i - from])
      invariant forall i :: 0 <= i < d.Length && !(from <= i < from + p) ==> d[i] == old(d[i])
    {
      d[from + p] := Gain(d[from + p], s[p]);
      p := p + 1;
    }
  }

  method FallUnder(d: array<real>, from: nat, s: seq<real>)
    requires from + |s| <= d.Length
    modifies d
    ensures forall i :: from <= i < from + |s| ==> d[i] == Gain(old(d[i]), s[|s| - 1 - (i - from)])
    ensures forall i :: 0 <= i < d.Length && !(from <= i < from + |s|) ==> d[i] == old(d[i])
  {
    var i, p := from, |s| - 1;
    while i < from + |s|
      invariant from <= i <= from + |s| && p == |s| - 1 - (i - from)
      invariant forall k :: from <= k < i ==> d[k] == Gain(old(d[k]), s[|s| - 1 - (k - from)])
      invariant forall k :: 0 <= k < d.Length && !(from <= k < i) ==> d[k] == old(d[k])
    {
      d[i] := Gain(d[i], s[p]);
      i, p := i + 1, p - 1;
    }
  }

  /** Silence, rising slope from `i`, flat, falling slope from `j`, silence. */
  ghost predicate Windowed(was: seq<real>, now: seq<real>, i: nat, left: seq<real>, j: nat, right: seq<real>)
  {
    && |was| == |now| && i + |left| <= j && j + |right| <= |was|
    && (forall k :: 0 <= k < i || j + |right| <= k < |now| ==> now[k] == 0.0)
    && (forall k :: i <= k < i + |left| ==> now[k] == Gain(was[k], left[k - i]))
    && (forall k :: i + |left| <= k < j ==> now[k] == was[k])
    && (forall k :: j <= k < j + |right| ==> now[k] == Gain(was[k], right[|right| - 1 - (k - j)]))
  }

  lemma FirstHalf(was: seq<real>, now: seq<real>, n: nat, i: nat, left: seq<real>, j: nat, right: seq<real>)
    requires Windowed(was, now, i, left, j, right) && i + |left| <= n <= j && i == n / 2 - |left| / 2
    ensures Enters(now[..n], was[..n], left, 0.0)
  {
    hide Risen;
    var x, y := was[..n][i..i + |left|], now[..n][i..i + |left|];
    forall k | 0 <= k < |left|
      ensures y[k] == x[k] * left[k]
    {
      assert y[k] == now[i + k] && x[k] == was[i + k];
    }
    IsRisen(x, y, left);
    assert now[..n][i + |left|..] == was[..n][i + |left|..];
  }

  lemma SecondHalf(was: seq<real>, now: seq<real>, n: nat, i: nat, left: seq<real>, j: nat, right: seq<real>)
    requires Windowed(was, now, i, left, j, right) && i + |left| <= n <= j && j == n + n / 2 - |right| / 2
    requires |was| == 2 * n
    ensures Leaves(now[n..], was[n..], right, 0.0)
  {
    hide Fallen;
    var e := j - n;
    var x, y := was[n..][e..e + |right|], now[n..][e..e + |right|];
    forall k | 0 <= k < |right|
      ensures y[k] == x[k] * right[|right| - 1 - k]
    {
      assert y[k] == now[j + k] && x[k] == was[j + k];
    }
    IsFallen(x, y, right);
    assert now[n..][..e] == was[n..][..e];
  }

  lemma IsRisen(was: seq<real>, now: seq<real>, s: seq<real>)
    requires |was| == |now| == |s| && forall k :: 0 <= k < |s| ==> now[k] == was[k] * s[k]
    ensures now == Risen(was, s, 0.0)
  {
    forall k | 0 <= k < |s|
      ensures now[k] == Risen(was, s, 0.0)[k]
    {
      assert 0.0 * (was[|s| - 1 - k] * s[|s| - 1 - k]) == 0.0;
    }
  }

  lemma IsFallen(was: seq<real>, now: seq<real>, s: seq<real>)
    requires |was| == |now| == |s| && forall k :: 0 <= k < |s| ==> now[k] == was[k] * s[|s| - 1 - k]
    ensures now == Fallen(was, s, 0.0)
  {
    forall k | 0 <= k < |s|
      ensures now[k] == Fallen(was, s, 0.0)[k]
    {
      assert 0.0 * (was[|s| - 1 - k] * s[k]) == 0.0;
    }
  }

  /** A block of the encoder under its window, which slopes as its neighbours' sizes ask: its first half enters and its
      second half leaves as the decoder expects, with silence outside the slopes. */
  method ApplyWindow(st: Setup, d: array<real>, lw: bool, w: bool, nw: bool)
    requires st.Valid() && d.Length == 2 * st.N(w)
    modifies d
    ensures var left, right := st.Slope(lw, w), st.Slope(w, nw);
      && |left| <= st.N(w) && |right| <= st.N(w)
      && Windowed(old(d[..]), d[..], st.M(w) - |left| / 2, left, st.N(w) + st.M(w) - |right| / 2, right)
    ensures Enters(d[..][..st.N(w)], old(d[..])[..st.N(w)], st.Slope(lw, w), 0.0)
    ensures Leaves(d[..][st.N(w)..], old(d[..])[st.N(w)..], st.Slope(w, nw), 0.0)
  {
    hide Setup.N, Setup.M, Setup.Valid, Windowed, Enters, Leaves, Gain;
    st.Bounds(w);
    var left, right := if lw && w then st.longSlope else st.shortSlope, if w && nw then st.longSlope else st.shortSlope;
    var n, m := st.N(w), st.M(w);
    HalfOf(n, m);
    HalfOf(|left|, |left| / 2);
    HalfOf(|right|, |right| / 2);
    var i, j := m - |left| / 2, n + m - |right| / 2;
    ghost var was := d[..];
    Shape(d, i, left, j, right);
    FirstHalf(was, d[..], n, i, left, j, right);
    SecondHalf(was, d[..], n, i, left, j, right);
  }

  /** The four loops. */
  method Shape(d: array<real>, i: nat, left: seq<real>, j: nat, right: seq<real>)
    requires i + |left| <= j && j + |right| <= d.Length
    modifies d
    ensures Windowed(old(d[..]), d[..], i, left, j, right)
  {
    hide Gain;
    Silence(d, 0, i);
    RiseUnder(d, i, left);
    FallUnder(d, j, right);
    Silence(d, j + |right|, d.Length);
  }
}
