/** Drawing floor 1: lines between the posts that were sent, in order of position. */
module Floor1Curve {
  import opened Lines
  import opened Floor1
  import opened PointerSort

  /** All posts, by position. */
  ghost predicate Ordered(postlist: seq<int>, order: seq<nat>)
  {
    && |order| == |postlist| >= 2 && (forall a :: 0 <= a < |order| ==> order[a] < |postlist|)
    && (forall a, b :: 0 <= a < b < |order| ==> postlist[order[a]] < postlist[order[b]])
    && order[0] == 0 && postlist[0] == 0
    && forall i: nat :: i < |postlist| ==> i in order
  }

  /** `forward_index`: post numbers in order of position. */
  method SortPosts(postlist: seq<int>) returns (forward: seq<nat>)
    requires ValidPosts(postlist)
    ensures Ordered(postlist, forward)
  {
    hide InOrder, Permutes;
    PositionsAreNat(postlist);
    var positions := new nat[|postlist|](i requires 0 <= i < |postlist| => postlist[i]);
    var codep;
    ghost var place;
    codep, place := SortPointers(positions);
    forward := codep[..];
    SortedPosts(postlist, positions[..], forward, place);
  }

  lemma PositionsAreNat(postlist: seq<int>)
    requires ValidPosts(postlist)
    ensures forall i :: 0 <= i < |postlist| ==> postlist[i] >= 0
  {
    forall i | 0 <= i < |postlist|
      ensures postlist[i] >= 0
    {
      if i >= 2 {
        assert 0 < postlist[i];
      }
    }
  }

  lemma SortedPosts(postlist: seq<int>, positions: seq<nat>, order: seq<nat>, place: seq<nat>)
    requires ValidPosts(postlist) && |positions| == |postlist| == |order|
    requires forall i :: 0 <= i < |positions| ==> positions[i] == postlist[i]
    requires Permutes(order, place) && InOrder(positions, order, |order|)
    ensures Ordered(postlist, order)
  {
    forall a, b | 0 <= a < b < |order|
      ensures postlist[order[a]] < postlist[order[b]]
    {
      assert place[order[a]] == a && place[order[b]] == b;
      assert positions[order[a]] <= positions[order[b]];
    }
    forall i: nat | i < |postlist|
      ensures i in order
    {
      assert order[place[i]] == i;
    }
    PositionsAreNat(postlist);
    assert order[place[0]] == 0 && postlist[order[0]] >= 0;
  }

  // ---------------------------------------------------------------------------------------------
  // The curve
  // ---------------------------------------------------------------------------------------------

  function Clamp(y: int): (r: int)
    ensures 0 <= r <= 255
  {
    if y < 0 then 0 else if y > 255 then 255 else y
  }

  /** The post takes part in the drawing. */
  predicate Drawn(v: int)
  {
    Masked(v) == v
  }

  /** Height of a post on the scale of the table, held to the table. */
  function Height(mult: nat, v: int): int
  {
    Clamp(v * mult)
  }

  /** The curve at bin `x`, drawn on from a point at (`lx`, `ly`) through the posts from place `j` on. */
  ghost function CurveFrom(postlist: seq<int>, mult: nat, order: seq<nat>, post: seq<int>, j: nat, lx: int, ly: int,
                           x: int): int
    requires Ordered(postlist, order) && |post| == |postlist| && 0 < j <= |order| && lx <= postlist[order[j - 1]]
    requires lx <= x
    decreases |order| - j
  {
    if j == |order| then ly
    else
      var current := order[j];
      if !Drawn(post[current]) then CurveFrom(postlist, mult, order, post, j + 1, lx, ly, x)
      else
        var hx, hy := postlist[current], Height(mult, post[current]);
        if x < hx then RenderPoint(lx, hx, ly, hy, x) else CurveFrom(postlist, mult, order, post, j + 1, hx, hy, x)
  }

  ghost function Curve(postlist: seq<int>, mult: nat, order: seq<nat>, post: seq<int>, x: nat): int
    requires Ordered(postlist, order) && |post| == |postlist|
  {
    CurveFrom(postlist, mult, order, post, 1, 0, Height(mult, post[0]), x)
  }

  /** Nothing sent lies strictly between places `a` and `b`. */
  ghost predicate Consecutive(order: seq<nat>, post: seq<int>, a: nat, b: nat)
    requires a < b < |order| && forall k :: 0 <= k < |order| ==> order[k] < |post|
  {
    forall k :: a < k < b ==> !Drawn(post[order[k]])
  }

  /** From the point before it, the curve passes on to the next post sent. */
  lemma {:induction false} SkipUndrawn(postlist: seq<int>, mult: nat, order: seq<nat>, post: seq<int>, a: nat, j: nat,
                                       b: nat, lx: int, ly: int, x: int)
    requires Ordered(postlist, order) && |post| == |postlist| && a < j <= b < |order|
    requires Consecutive(order, post, a, b) && Drawn(post[order[b]])
    requires lx == postlist[order[a]] && lx <= x
    ensures lx <= postlist[order[j - 1]] && lx < postlist[order[b]]
    ensures CurveFrom(postlist, mult, order, post, j, lx, ly, x) ==
      (var hx, hy := postlist[order[b]], Height(mult, post[order[b]]);
       if x < hx then RenderPoint(lx, hx, ly, hy, x) else CurveFrom(postlist, mult, order, post, b + 1, hx, hy, x))
    decreases b - j
  {
    if j < b {
      SkipUndrawn(postlist, mult, order, post, a, j + 1, b, lx, ly, x);
    }
  }

  /** The point the curve has reached after the posts up to place `a`, one that was sent. */
  lemma {:induction false} CurveReaches(postlist: seq<int>, mult: nat, order: seq<nat>, post: seq<int>, a: nat, x: nat)
    requires Ordered(postlist, order) && |post| == |postlist| && a < |order| && (a == 0 || Drawn(post[order[a]]))
    requires postlist[order[a]] <= x
    ensures Curve(postlist, mult, order, post, x)
         == CurveFrom(postlist, mult, order, post, a + 1, postlist[order[a]], Height(mult, post[order[a]]), x)
  {
    if a > 0 {
      var p := a - 1;
      while p > 0 && !Drawn(post[order[p]])
        invariant 0 <= p < a && forall k :: p < k < a ==> !Drawn(post[order[k]])
        decreases p
      {
        p := p - 1;
      }
      CurveReaches(postlist, mult, order, post, p, x);
      SkipUndrawn(postlist, mult, order, post, p, p + 1, a, postlist[order[p]], Height(mult, post[order[p]]), x);
    }
  }

  /** At every bin the curve is on the straight line between the nearest posts sent on either side. */
  lemma CurveIsLines(postlist: seq<int>, mult: nat, order: seq<nat>, post: seq<int>, a: nat, b: nat, x: nat)
    requires Ordered(postlist, order) && |post| == |postlist| && a < b < |order|
    requires (a == 0 || Drawn(post[order[a]])) && Drawn(post[order[b]]) && Consecutive(order, post, a, b)
    requires postlist[order[a]] <= x < postlist[order[b]]
    ensures Curve(postlist, mult, order, post, x)
         == RenderPoint(postlist[order[a]], postlist[order[b]], Height(mult, post[order[a]]),
                        Height(mult, post[order[b]]), x)
  {
    CurveReaches(postlist, mult, order, post, a, x);
    SkipUndrawn(postlist, mult, order, post, a, a + 1, b, postlist[order[a]], Height(mult, post[order[a]]), x);
  }

  /** The table has an entry for every height a valid post can have, so that no height is ever clamped, and
      a valid post is drawn unless it is flagged. */
  lemma HeightInTable(mult: nat, v: int)
    requires 1 <= mult <= 4 && PostOk(QuantQ(mult), v)
    ensures Drawn(v) <==> !Flagged(v)
    ensures Drawn(v) ==> 0 <= v * mult <= 255 && Height(mult, v) == v * mult
  {
  }

  // ---------------------------------------------------------------------------------------------
  // Drawing
  // ---------------------------------------------------------------------------------------------

  /** The pen is at (`lx`, `ly`), the posts before place `j` are dealt with, and what follows is the
      rest of the curve. */
  ghost predicate PenAt(look: Look, order: seq<nat>, post: seq<int>, j: nat, lx: int, ly: int)
    requires Ordered(look.postlist, order) && |post| == |look.postlist|
  {
    && 0 < j <= |order| && 0 <= lx <= look.postlist[order[j - 1]] && 0 <= ly <= 255
    && forall x: nat :: lx <= x ==>
         CurveFrom(look.postlist, look.mult, order, post, j, lx, ly, x)
             == Curve(look.postlist, look.mult, order, post, x)
  }

  lemma PenStart(look: Look, order: seq<nat>, post: seq<int>)
    requires Ordered(look.postlist, order) && |post| == |look.postlist|
    ensures PenAt(look, order, post, 1, 0, Height(look.mult, post[0]))
  {
  }

  /** Past a post that is drawn, the pen draws a line; past one that is not, nothing. */
  lemma PenMoves(look: Look, order: seq<nat>, post: seq<int>, j: nat, lx: int, ly: int)
    requires Ordered(look.postlist, order) && |post| == |look.postlist|
    requires j < |order| && PenAt(look, order, post, j, lx, ly)
    ensures var v := post[order[j]]; var hx, hy := look.postlist[order[j]], Height(look.mult, v);
      && lx < hx
      && (!Drawn(v) ==> PenAt(look, order, post, j + 1, lx, ly))
      && (Drawn(v) ==>
           && PenAt(look, order, post, j + 1, hx, hy)
           && forall x: nat :: lx <= x < hx ==>
                Curve(look.postlist, look.mult, order, post, x) == RenderPoint(lx, hx, ly, hy, x))
  {
    hide Drawn, RenderPoint, Curve, Height;
    var v := post[order[j]];
    var hx, hy := look.postlist[order[j]], Height(look.mult, v);
    HeightHeld(look.mult, v);
    assert look.postlist[order[j - 1]] < hx;
    forall x: nat | lx <= x
      ensures !Drawn(v) ==>
        CurveFrom(look.postlist, look.mult, order, post, j + 1, lx, ly, x)
        == Curve(look.postlist, look.mult, order, post, x)
      ensures Drawn(v) && x < hx ==>
        Curve(look.postlist, look.mult, order, post, x) == RenderPoint(lx, hx, ly, hy, x)
      ensures Drawn(v) && hx <= x ==>
        CurveFrom(look.postlist, look.mult, order, post, j + 1, hx, hy, x)
        == Curve(look.postlist, look.mult, order, post, x)
    {
      assert CurveFrom(look.postlist, look.mult, order, post, j, lx, ly, x)
          == Curve(look.postlist, look.mult, order, post, x);
    }
  }

  lemma HeightHeld(mult: nat, v: int)
    ensures 0 <= Height(mult, v) <= 255
  {
  }

  lemma PenRests(look: Look, order: seq<nat>, post: seq<int>, lx: int, ly: int)
    requires Ordered(look.postlist, order) && |post| == |look.postlist| && PenAt(look, order, post, |order|, lx, ly)
    ensures forall x: nat :: lx <= x ==> Curve(look.postlist, look.mult, order, post, x) == ly
  {
    hide Curve;
    forall x: nat | lx <= x
      ensures Curve(look.postlist, look.mult, order, post, x) == ly
    {
      assert CurveFrom(look.postlist, look.mult, order, post, |order|, lx, ly, x)
          == Curve(look.postlist, look.mult, order, post, x);
    }
  }

  /** The curve as the encoder draws it. */
  method DrawMask(look: Look, order: seq<nat>, post: array<int>, n: nat, ilogmask: array<int>)
    requires look.Valid() && Ordered(look.postlist, order) && post != ilogmask
    requires PostsOk(look, post[..]) && !Flagged(post[0]) && n <= ilogmask.Length
    modifies ilogmask
    ensures forall x :: 0 <= x < n ==> ilogmask[x] == Curve(look.postlist, look.mult, order, post[..], x)
    ensures forall x :: n <= x < ilogmask.Length ==> ilogmask[x] == old(ilogmask[x])
  {
    hide Drawn, Flagged, RenderPoint, PenAt, Curve, PostOk, Look.Valid, Height;
    ghost var ps := post[..];
    MultOk(look);
    PenStart(look, order, ps);
    HeightInTable(look.mult, ps[0]);
    var hx, lx := 0, 0;
    var ly := post[0] * look.mult;
    var j := 1;
    PenSane(look, order, ps, j, lx, ly);
    while j < post.Length
      invariant 1 <= j <= post.Length == |order| && lx == hx && post[..] == ps
      invariant PenAt(look, order, ps, j, lx, ly) && 0 <= lx && 0 <= ly <= 255
      invariant forall x :: 0 <= x < lx && x < n ==> ilogmask[x] == Curve(look.postlist, look.mult, order, ps, x)
      invariant forall x :: n <= x < ilogmask.Length ==> ilogmask[x] == old(ilogmask[x])
    {
      PenMoves(look, order, ps, j, lx, ly);
      var current := order[j];
      HeightInTable(look.mult, ps[current]);
      var hy: int := Masked(post[current]);
      DrawnIs(post[current]);
      if hy == post[current] {
        hy := hy * look.mult;
        hx := look.postlist[current];
        RenderLine0(n, lx, hx, ly, hy, ilogmask);
        lx := hx;
        ly := hy;
      }
      j := j + 1;
    }
    PenRests(look, order, ps, lx, ly);
    var k := hx;
    while k < n
      invariant hx <= k
      invariant forall x :: 0 <= x < k && x < n ==> ilogmask[x] == Curve(look.postlist, look.mult, order, ps, x)
      invariant forall x :: n <= x < ilogmask.Length ==> ilogmask[x] == old(ilogmask[x])
    {
      ilogmask[k] := ly;
      k := k + 1;
    }
  }

  lemma DrawnIs(v: int)
    ensures Drawn(v) <==> Masked(v) == v
  {
  }

  lemma PenSane(look: Look, order: seq<nat>, post: seq<int>, j: nat, lx: int, ly: int)
    requires Ordered(look.postlist, order) && |post| == |look.postlist| && PenAt(look, order, post, j, lx, ly)
    ensures 0 <= lx && 0 <= ly <= 255
  {
  }

  /** Bin `x` is scaled by the table entry at the height of the curve. */
  ghost predicate Scaled(look: Look, order: seq<nat>, post: seq<int>, table: seq<real>, x: nat, before: real,
                         after: real)
    requires Ordered(look.postlist, order) && |post| == |look.postlist|
  {
    var y := Curve(look.postlist, look.mult, order, post, x);
    0 <= y < |table| && after == Floored(before, table, y)
  }

  /** The curve applied to the residue: every bin is scaled once, by the table entry at its height. Whatever
      posts were decoded, the heights are held to the table. */
  method ApplyCurve(look: Look, order: seq<nat>, fit: array<int>, n: nat, out: array<real>, table: seq<real>)
    requires Ordered(look.postlist, order) && |table| == 256
    requires fit.Length == |look.postlist| && n <= out.Length
    modifies out
    ensures forall x :: 0 <= x < n ==> Scaled(look, order, fit[..], table, x, old(out[x]), out[x])
    ensures forall x :: n <= x < out.Length ==> out[x] == old(out[x])
  {
    hide Drawn, RenderPoint, PenAt, Curve, Floored;
    ghost var ps := fit[..];
    PenStart(look, order, ps);
    var hx, lx := 0, 0;
    var ly := fit[0] * look.mult;
    var j := 1;
    ly := Clamp(ly);
    while j < fit.Length
      invariant 1 <= j <= fit.Length == |order| && lx == hx && fit[..] == ps
      invariant PenAt(look, order, ps, j, lx, ly) && 0 <= lx && 0 <= ly <= 255
      invariant forall x :: 0 <= x < lx && x < n ==> Scaled(look, order, ps, table, x, old(out[x]), out[x])
      invariant forall x :: 0 <= x < out.Length && !(x < lx && x < n) ==> out[x] == old(out[x])
    {
      PenMoves(look, order, ps, j, lx, ly);
      var current := order[j];
      var hy: int := Masked(fit[current]);
      DrawnIs(fit[current]);
      if hy == fit[current] {
        hx := look.postlist[current];
        hy := hy * look.mult;
        hy := Clamp(hy);
        RenderLine(n, lx, hx, ly, hy, out, table);
        lx := hx;
        ly := hy;
      }
      j := j + 1;
    }
    PenRests(look, order, ps, lx, ly);
    var k := hx;
    while k < n
      invariant hx <= k
      invariant forall x :: 0 <= x < k && x < n ==> Scaled(look, order, ps, table, x, old(out[x]), out[x])
      invariant forall x :: 0 <= x < out.Length && !(x < k && x < n) ==> out[x] == old(out[x])
    {
      out[k] := Floored(out[k], table, ly);
      k := k + 1;
    }
  }
}
