/** Which posts of a floor are drawn, and where they come to stand: laws about the prediction pass that name neither
    of its two loops. */
module FloorPosts {
  import opened BitMath
  import opened Lines
  import opened Floor1

  // ---------------------------------------------------------------------------------------------
  // Which posts are drawn
  // ---------------------------------------------------------------------------------------------

  /** A post before `i` with a deviation of its own was predicted from post `j`. */
  ghost predicate Needed(look: Look, vals: seq<int>, i: nat, j: nat)
    requires look.Valid() && i <= |vals| == |look.postlist|
  {
    exists m :: j < m < i && 2 <= m && vals[m] != 0 && (look.Lo(m) == j || look.Hi(m) == j)
  }

  /** After posts up to `i - 1`, post `j` is left out of the curve: no end, without a deviation of its own, and needed
      by no post that has one. */
  ghost predicate LeftOut(look: Look, vals: seq<int>, i: nat, j: nat)
    requires look.Valid() && i <= |vals| == |look.postlist| && j < i
  {
    j >= 2 && vals[j] == 0 && !Needed(look, vals, i, j)
  }

  lemma FlagAnyway(x: int)
    ensures Flagged(WithFlag(x)) && !Flagged(Masked(x)) && Masked(Masked(x)) == Masked(x)
    ensures Masked(WithFlag(x)) == Masked(x)
  {
  }

  /** One post: flags before it change only if it has a deviation, and then for its neighbours. */
  lemma FlagStep(look: Look, fit: seq<int>, i: nat)
    requires look.Valid() && |fit| == |look.postlist| && 2 <= i < |fit|
    ensures var r := ReceiveStep(look, fit, i);
      && (Flagged(r[i]) <==> fit[i] == 0)
      && (forall j :: 0 <= j < i ==>
            (Flagged(r[j]) <==> Flagged(fit[j]) && !(fit[i] != 0 && (look.Lo(i) == j || look.Hi(i) == j))))
      && forall j :: i < j < |fit| ==> r[j] == fit[j]
  {
    hide Masked, Flagged, WithFlag, Predict, Unwrap, Look.Valid;
    var lo, hi, p := look.Lo(i), look.Hi(i), Predict(look, fit, i);
    FlagAnyway(p);
    FlagAnyway(Unwrap(look.Q(), p, fit[i]) + p);
    FlagAnyway(fit[lo]);
    FlagAnyway(fit[hi]);
    FlagAnyway(Masked(fit[lo]));
  }

  lemma NeededMore(look: Look, vals: seq<int>, i: nat, j: nat)
    requires look.Valid() && 2 <= i < |vals| == |look.postlist| && j < i
    ensures Needed(look, vals, i + 1, j) <==>
      Needed(look, vals, i, j) || (vals[i] != 0 && (look.Lo(i) == j || look.Hi(i) == j))
    ensures !Needed(look, vals, i + 1, i)
  {
    hide Look.Valid;
  }

  /** The decoder leaves out exactly the posts that nothing was sent for and nothing sent was predicted from. */
  lemma {:induction false} FlagsReceived(look: Look, fit: seq<int>, i: nat)
    requires look.Valid() && |fit| == |look.postlist| && 2 <= i <= |fit| && !Flagged(fit[0]) && !Flagged(fit[1])
    ensures forall j :: 0 <= j < i ==> (Flagged(ReceiveRun(look, fit, i)[j]) <==> LeftOut(look, fit, i, j))
    ensures forall j :: i <= j < |fit| ==> ReceiveRun(look, fit, i)[j] == fit[j]
  {
    hide ReceiveStep, Flagged, Needed, Look.Valid;
    if i > 2 {
      var was := ReceiveRun(look, fit, i - 1);
      FlagsReceived(look, fit, i - 1);
      FlagStep(look, was, i - 1);
      forall j | 0 <= j < i
        ensures Flagged(ReceiveRun(look, fit, i)[j]) <==> LeftOut(look, fit, i, j)
      {
        NeededMore(look, fit, i - 1, if j < i - 1 then j else 0);
      }
    }
  }

  /** So does the encoder, by the values it sends. */
  lemma FlagsSent(look: Look, post: seq<int>)
    requires look.Valid() && PostsOk(look, post) && !Flagged(post[0]) && !Flagged(post[1])
    ensures forall j :: 0 <= j < |post| ==>
      (Flagged(SendRun(look, post, |post|)[j]) <==> LeftOut(look, Outs(look, post), |post|, j))
  {
    hide LeftOut, Flagged, Look.Valid;
    AtLeastTwo(look);
    SamePosts(look, post);
    FlagsReceived(look, Outs(look, post), |post|);
  }

  // ---------------------------------------------------------------------------------------------
  // Where they stand
  // ---------------------------------------------------------------------------------------------

  /** Height `y` at `x` is where the line from (x0, a) to (x1, b) passes, rounded toward `a`. */
  ghost predicate OnLine(x0: int, x1: int, a: int, b: int, x: int, y: int)
  {
    var off := Abs(y - a);
    && off * (x1 - x0) <= Abs(b - a) * (x - x0) < (off + 1) * (x1 - x0)
    && (a <= b ==> a <= y <= b) && (b <= a ==> b <= y <= a)
  }

  lemma PointOnLine(x0: int, x1: int, y0: int, y1: int, x: int)
    requires x0 < x1 && x0 <= x <= x1
    ensures OnLine(x0, x1, Masked(y0), Masked(y1), x, RenderPoint(x0, x1, y0, y1, x))
  {
    hide Masked, Offset;
    PointBetween(x0, x1, y0, y1, x);
    var a: int, b: int := Masked(y0), Masked(y1);
    var off := Offset(Abs(b - a), x1 - x0, x - x0);
    OffsetFloors(Abs(b - a), x1 - x0, x - x0);
    assert Abs(RenderPoint(x0, x1, y0, y1, x) - a) == off;
  }

  lemma OffsetFloors(ady: nat, adx: nat, k: nat)
    requires adx > 0
    ensures Offset(ady, adx, k) * adx <= ady * k < (Offset(ady, adx, k) + 1) * adx && Offset(ady, adx, k) >= 0
  {
    DivMod(ady * k, adx);
    var off := ady * k / adx;
    assert (off + 1) * adx == off * adx + adx;
  }

  /** Post `j` stands where the line between its neighbours passes, off by the deviation sent for it. */
  ghost predicate Stands(look: Look, vals: seq<int>, final: seq<int>, j: nat)
    requires look.Valid() && |vals| == |final| == |look.postlist| && 2 <= j < |vals|
  {
    var lo, hi := look.Lo(j), look.Hi(j);
    exists p ::
      && OnLine(look.postlist[lo], look.postlist[hi], Masked(final[lo]), Masked(final[hi]), look.postlist[j], p)
      && Masked(final[j]) == Masked(p + if vals[j] == 0 then 0 else Unwrap(look.Q(), p, vals[j]))
  }

  lemma ValueStep(look: Look, fit: seq<int>, i: nat)
    requires look.Valid() && |fit| == |look.postlist| && 2 <= i < |fit|
    ensures var r, p := ReceiveStep(look, fit, i), Predict(look, fit, i);
      && Masked(r[i]) == Masked(p + if fit[i] == 0 then 0 else Unwrap(look.Q(), p, fit[i]))
      && forall j :: 0 <= j < i ==> Masked(r[j]) == Masked(fit[j])
  {
    hide Masked, Flagged, WithFlag, Predict, Unwrap, Look.Valid;
    var lo, hi, p := look.Lo(i), look.Hi(i), Predict(look, fit, i);
    FlagAnyway(p);
    FlagAnyway(Unwrap(look.Q(), p, fit[i]) + p);
    FlagAnyway(fit[lo]);
    FlagAnyway(fit[hi]);
    FlagAnyway(Masked(fit[lo]));
  }

  /** Heights of posts passed before stay. */
  lemma StandsStill(look: Look, vals: seq<int>, was: seq<int>, now: seq<int>, i: nat, j: nat)
    requires look.Valid() && |vals| == |was| == |now| == |look.postlist| && 2 <= j < i <= |vals|
    requires Stands(look, vals, was, j) && forall k :: 0 <= k < i ==> Masked(now[k]) == Masked(was[k])
    ensures Stands(look, vals, now, j)
  {
    hide Masked, OnLine, Unwrap, Look.Valid;
  }

  lemma NewStands(look: Look, vals: seq<int>, was: seq<int>, i: nat)
    requires look.Valid() && |vals| == |was| == |look.postlist| && 2 <= i < |vals| && was[i] == vals[i]
    ensures Stands(look, vals, ReceiveStep(look, was, i), i)
  {
    hide Masked, OnLine, Unwrap, Look.Valid, RenderPoint, ReceiveStep;
    var lo, hi := look.Lo(i), look.Hi(i);
    ValueStep(look, was, i);
    PointOnLine(look.postlist[lo], look.postlist[hi], was[lo], was[hi], look.postlist[i]);
  }

  /** Every post of the decoder stands where the line between its neighbours passes, heights as they are in the end,
      off by what was sent for it; the ends stand where they were sent. */
  lemma {:induction false} ValuesReceived(look: Look, fit: seq<int>, i: nat)
    requires look.Valid() && |fit| == |look.postlist| && 2 <= i <= |fit|
    ensures forall j :: 2 <= j < i ==> Stands(look, fit, ReceiveRun(look, fit, i), j)
    ensures forall j :: i <= j < |fit| ==> ReceiveRun(look, fit, i)[j] == fit[j]
    ensures Masked(ReceiveRun(look, fit, i)[0]) == Masked(fit[0])
    ensures Masked(ReceiveRun(look, fit, i)[1]) == Masked(fit[1])
  {
    hide ReceiveStep, Masked, Stands, Look.Valid;
    if i > 2 {
      var was := ReceiveRun(look, fit, i - 1);
      var now := ReceiveStep(look, was, i - 1);
      ValuesReceived(look, fit, i - 1);
      ValueStep(look, was, i - 1);
      NewStands(look, fit, was, i - 1);
      FlagStep(look, was, i - 1);
      forall j | 2 <= j < i - 1
        ensures Stands(look, fit, now, j)
      {
        StandsStill(look, fit, was, now, i - 1, j);
      }
    }
  }

  // ---------------------------------------------------------------------------------------------
  // Codes and steps
  // ---------------------------------------------------------------------------------------------

  /** Codes list the deviations by size, of two of one size the negative first. With every code used once
      (`Floor1.UnwrapWrap`), there is only one such list. */
  lemma CodesBySize(q: int, p: int, w: int, w': int)
    requires 0 <= p < q && 0 < w < w' < q
    ensures Abs(Unwrap(q, p, w)) <= Abs(Unwrap(q, p, w'))
    ensures Abs(Unwrap(q, p, w)) == Abs(Unwrap(q, p, w')) ==> Unwrap(q, p, w) < 0 < Unwrap(q, p, w')
  {
  }

  /** Each multiplier rounds down to steps of 4, 8, 12 or 16, as many as 1024 takes; the flag stays. */
  lemma QuantizeSteps(mult: nat, v: int)
    requires 1 <= mult <= 4
    ensures v >= 0 ==> 4 * mult * Quantize(mult, v) <= v < 4 * mult * (Quantize(mult, v) + 1)
    ensures (QuantQ(mult) - 1) * (4 * mult) < 1024 <= QuantQ(mult) * (4 * mult)
    ensures Masked(QuantizePost(mult, v)) == Quantize(mult, Masked(v))
    ensures Flagged(QuantizePost(mult, v)) <==> Flagged(v)
  {
    QuantizeDown(mult, v);
    QuantizeDown(mult, Masked(v));
    FlagFacts(Quantize(mult, Masked(v)));
  }

  lemma QuantizeDown(mult: nat, v: int)
    requires 1 <= mult <= 4
    ensures v >= 0 ==> 0 <= Quantize(mult, v) <= v
    ensures v >= 0 ==> 4 * mult * Quantize(mult, v) <= v < 4 * mult * (Quantize(mult, v) + 1)
  {
  }
}
