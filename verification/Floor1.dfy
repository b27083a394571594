/** Floor 1: a curve through posts, each sent as its deviation from a prediction by its neighbours
    (sections 7.2.3 and 7.2.4 of the Vorbis I specification). */
module Floor1 {
  import opened Lines

  /** Steps of the curve for each multiplier. */
  function QuantQ(mult: nat): (q: nat)
  {
    if mult == 1 then 256 else if mult == 2 then 128 else if mult == 3 then 86 else 64
  }

  /** The posts, and for each after the first two the nearest posts before it in the list. */
  datatype Look = Look(postlist: seq<int>, loneighbor: seq<nat>, hineighbor: seq<nat>, mult: nat)
  {
    ghost predicate Valid()
    {
      && 1 <= mult <= 4 && |postlist| >= 2 && |loneighbor| == |hineighbor| == |postlist| - 2
      && forall i :: 2 <= i < |postlist| ==> NearestTo(i)
    }

    function Q(): nat
    {
      QuantQ(mult)
    }

    ghost predicate NearestTo(i: nat)
      requires 2 <= i < |postlist| && |loneighbor| == |hineighbor| == |postlist| - 2
    {
      Nearest(postlist, i, loneighbor[i - 2], hineighbor[i - 2])
    }

    function Lo(i: nat): (lo: nat)
      requires Valid() && 2 <= i < |postlist|
      ensures lo < i && postlist[lo] < postlist[i]
    {
      assert NearestTo(i);
      loneighbor[i - 2]
    }

    function Hi(i: nat): (hi: nat)
      requires Valid() && 2 <= i < |postlist|
      ensures hi < i && postlist[i] < postlist[hi]
    {
      assert NearestTo(i);
      hineighbor[i - 2]
    }
  }

  /** `lo` and `hi` are the closest on either side of post `i` among the posts listed before it. */
  ghost predicate Nearest(postlist: seq<int>, i: nat, lo: nat, hi: nat)
    requires i < |postlist|
  {
    && lo < i && hi < i && postlist[lo] < postlist[i] < postlist[hi]
    && forall j :: 0 <= j < i ==> postlist[j] <= postlist[lo] || postlist[hi] <= postlist[j]
  }

  /** What a header may set up: ends first, everything else strictly between, no position twice. */
  ghost predicate ValidPosts(postlist: seq<int>)
  {
    && 2 <= |postlist| && postlist[0] == 0 < postlist[1]
    && (forall i :: 2 <= i < |postlist| ==> 0 < postlist[i] < postlist[1])
    && (forall i, j :: 0 <= i < j < |postlist| ==> postlist[i] != postlist[j])
  }

  method FindNeighbors(postlist: seq<int>, mult: nat) returns (look: Look)
    requires ValidPosts(postlist) && 1 <= mult <= 4
    ensures look.Valid() && look.postlist == postlist && look.mult == mult
  {
    var n := |postlist|;
    var los: seq<nat> := [];
    var his: seq<nat> := [];
    var i := 0;
    while i < n - 2
      invariant 0 <= i <= n - 2 && |los| == |his| == i
      invariant forall k :: 0 <= k < i ==> Nearest(postlist, k + 2, los[k], his[k])
    {
      var lo: nat, hi: nat := 0, 1;
      var lx, hx := 0, postlist[1];
      var currentx := postlist[i + 2];
      for j: nat := 0 to i + 2
        invariant lo < i + 2 && hi < i + 2 && postlist[lo] == lx < currentx < hx == postlist[hi]
        invariant forall k :: 0 <= k < j ==> postlist[k] <= lx || hx <= postlist[k]
      {
        var x := postlist[j];
        if x > lx && x < currentx {
          lo := j;
          lx := x;
        }
        if x < hx && x > currentx {
          hi := j;
          hx := x;
        }
      }
      los, his := los + [lo], his + [hi];
      i := i + 1;
    }
    look := Look(postlist, los, his, mult);
    forall k | 2 <= k < n
      ensures look.NearestTo(k)
    {
      assert Nearest(postlist, k - 2 + 2, los[k - 2], his[k - 2]);
    }
  }

  // ---------------------------------------------------------------------------------------------
  // Deviations folded into a limited range
  // ---------------------------------------------------------------------------------------------

  /** What is sent for a post `val` away from prediction `p`, of `q` values in all. */
  function Wrap(q: int, p: int, val: int): int
  {
    var headroom := if q - p < p then q - p else p;
    if val < 0 then
      if val < -headroom then headroom - val - 1 else -1 - 2 * val
    else
      if val >= headroom then val + headroom else 2 * val
  }

  /** The deviation meant by a non-zero `val`. */
  function Unwrap(q: int, p: int, val: int): int
  {
    var hiroom, loroom := q - p, p;
    var room := 2 * (if hiroom < loroom then hiroom else loroom);
    if val >= room then
      if hiroom > loroom then val - loroom else -1 - (val - hiroom)
    else if val % 2 == 1 then -((val + 1) / 2)
    else val / 2
  }

  /** Folding is reversible, stays within the range, and keeps zero for "as predicted". */
  lemma WrapUnwrap(q: int, p: int, val: int)
    requires 0 <= p < q && 0 <= p + val < q && val != 0
    ensures 0 < Wrap(q, p, val) < q && Unwrap(q, p, Wrap(q, p, val)) == val
  {
  }

  /** Every code is used: folding fills the range exactly. */
  lemma UnwrapWrap(q: int, p: int, w: int)
    requires 0 <= p < q && 0 < w < q
    ensures 0 <= p + Unwrap(q, p, w) < q && Unwrap(q, p, w) != 0 && Wrap(q, p, Unwrap(q, p, w)) == w
  {
  }

  // ---------------------------------------------------------------------------------------------
  // One post, on either side
  // ---------------------------------------------------------------------------------------------

  function Predict(look: Look, post: seq<int>, i: nat): int
    requires look.Valid() && |post| == |look.postlist| && 2 <= i < |post|
  {
    var lo, hi := look.Lo(i), look.Hi(i);
    RenderPoint(look.postlist[lo], look.postlist[hi], post[lo], post[hi], look.postlist[i])
  }

  /** Both neighbours are needed, so neither is left out of the curve. */
  function Keep(post: seq<int>, lo: nat, hi: nat): (r: seq<int>)
    requires lo < |post| && hi < |post|
    ensures |r| == |post|
  {
    var half := post[lo := Masked(post[lo])];
    half[hi := Masked(half[hi])]
  }

  predicate AsPredicted(look: Look, post: seq<int>, i: nat)
    requires look.Valid() && |post| == |look.postlist| && 2 <= i < |post|
  {
    Flagged(post[i]) || Predict(look, post, i) == post[i]
  }

  function Sent(look: Look, post: seq<int>, i: nat): int
    requires look.Valid() && |post| == |look.postlist| && 2 <= i < |post|
  {
    if AsPredicted(look, post, i) then 0 else Wrap(look.Q(), Predict(look, post, i), post[i] - Predict(look, post, i))
  }

  function SendStep(look: Look, post: seq<int>, i: nat): (r: seq<int>)
    requires look.Valid() && |post| == |look.postlist| && 2 <= i < |post|
    ensures |r| == |post|
  {
    if AsPredicted(look, post, i) then post[i := WithFlag(Predict(look, post, i))]
    else Keep(post, look.Lo(i), look.Hi(i))
  }

  function ReceiveStep(look: Look, fit: seq<int>, i: nat): (r: seq<int>)
    requires look.Valid() && |fit| == |look.postlist| && 2 <= i < |fit|
    ensures |r| == |fit|
  {
    var p := Predict(look, fit, i);
    if fit[i] == 0 then fit[i := WithFlag(p)]
    else Keep(fit[i := Masked(Unwrap(look.Q(), p, fit[i]) + p)], look.Lo(i), look.Hi(i))
  }

  /** The posts after the encoder's loop has passed posts 2 to `i - 1`. */
  function SendRun(look: Look, post: seq<int>, i: nat): (r: seq<int>)
    requires look.Valid() && |post| == |look.postlist| && i <= |post|
    ensures |r| == |post|
  {
    if i <= 2 then post else SendStep(look, SendRun(look, post, i - 1), i - 1)
  }

  function ReceiveRun(look: Look, fit: seq<int>, i: nat): (r: seq<int>)
    requires look.Valid() && |fit| == |look.postlist| && i <= |fit|
    ensures |r| == |fit|
  {
    if i <= 2 then fit else ReceiveStep(look, ReceiveRun(look, fit, i - 1), i - 1)
  }

  /** The values sent: the two ends as they are, then a folded deviation for each post. */
  function Outs(look: Look, post: seq<int>): (r: seq<int>)
    requires look.Valid() && |post| == |look.postlist|
    ensures |r| == |post|
  {
    seq(|post|, i requires 0 <= i < |post| => if i < 2 then post[i] else Sent(look, SendRun(look, post, i), i))
  }

  // ---------------------------------------------------------------------------------------------
  // Lockstep
  // ---------------------------------------------------------------------------------------------

  /** A value below `q`, with or without the flag. */
  ghost predicate PostOk(q: int, v: int)
  {
    0 <= v < q || FLAG <= v < FLAG + q
  }

  ghost predicate PostsOk(look: Look, post: seq<int>)
  {
    |post| == |look.postlist| && forall i :: 0 <= i < |post| ==> PostOk(look.Q(), post[i])
  }

  lemma PostFacts(q: int, v: int)
    requires PostOk(q, v) && q <= FLAG
    ensures 0 <= Masked(v) < q && (Flagged(v) <==> v >= FLAG) && (!Flagged(v) ==> Masked(v) == v)
    ensures PostOk(q, Masked(v)) && !Flagged(Masked(v))
  {
  }

  lemma PredictOk(look: Look, post: seq<int>, i: nat)
    requires look.Valid() && |post| == |look.postlist| && 2 <= i < |post|
    requires PostOk(look.Q(), post[look.Lo(i)]) && PostOk(look.Q(), post[look.Hi(i)])
    ensures 0 <= Predict(look, post, i) < look.Q() <= 256
    ensures WithFlag(Predict(look, post, i)) == Predict(look, post, i) + FLAG
  {
    hide Masked, RenderPoint, Flagged;
    var lo, hi := look.Lo(i), look.Hi(i);
    PostFacts(look.Q(), post[lo]);
    PostFacts(look.Q(), post[hi]);
    PointBetween(look.postlist[lo], look.postlist[hi], post[lo], post[hi], look.postlist[i]);
    FlagFacts(Predict(look, post, i));
  }

  /** Only the two neighbours matter to a prediction. */
  lemma PredictSame(look: Look, post: seq<int>, fit: seq<int>, i: nat)
    requires look.Valid() && |post| == |fit| == |look.postlist| && 2 <= i < |post|
    requires forall j :: 0 <= j < i ==> post[j] == fit[j]
    ensures Predict(look, post, i) == Predict(look, fit, i)
  {
    assert look.Lo(i) < i && look.Hi(i) < i;
  }

  lemma SendStepOk(look: Look, post: seq<int>, i: nat)
    requires look.Valid() && PostsOk(look, post) && 2 <= i < |post|
    ensures PostsOk(look, SendStep(look, post, i))
    ensures forall j :: i < j < |post| ==> SendStep(look, post, i)[j] == post[j]
    ensures forall j :: 0 <= j < |post| && j != i ==> Masked(SendStep(look, post, i)[j]) == Masked(post[j])
    ensures !Flagged(post[i]) ==> Masked(SendStep(look, post, i)[i]) == post[i]
    ensures 0 <= Sent(look, post, i) < look.Q()
  {
    hide Predict, Nearest, Masked, Flagged, WithFlag, Wrap;
    PredictOk(look, post, i);
    var p := Predict(look, post, i);
    FlagFacts(p);
    PostFacts(look.Q(), post[i]);
    PostFacts(look.Q(), post[look.Lo(i)]);
    PostFacts(look.Q(), post[look.Hi(i)]);
    FlagFacts(Masked(post[look.Lo(i)]));
    FlagFacts(Masked(post[look.Hi(i)]));
    if !AsPredicted(look, post, i) {
      WrapUnwrap(look.Q(), p, post[i] - p);
    }
  }

  /** One post: from equal posts before it and the value sent, the decoder reaches the encoder's state. */
  lemma StepInStep(look: Look, post: seq<int>, fit: seq<int>, i: nat)
    requires look.Valid() && PostsOk(look, post) && |fit| == |post| && 2 <= i < |post|
    requires forall j :: 0 <= j < i ==> post[j] == fit[j]
    requires fit[i] == Sent(look, post, i)
    ensures forall j :: 0 <= j <= i ==> SendStep(look, post, i)[j] == ReceiveStep(look, fit, i)[j]
    ensures forall j :: i < j < |fit| ==> ReceiveStep(look, fit, i)[j] == fit[j]
  {
    hide Predict, Masked, Flagged, WithFlag, Wrap, Unwrap;
    PredictSame(look, post, fit, i);
    PredictOk(look, post, i);
    PostFacts(look.Q(), post[i]);
    if !AsPredicted(look, post, i) {
      var p := Predict(look, post, i);
      WrapUnwrap(look.Q(), p, post[i] - p);
      FlagFacts(post[i]);
    }
  }

  lemma {:induction false} SendRunOk(look: Look, post: seq<int>, i: nat)
    requires look.Valid() && PostsOk(look, post) && 2 <= i <= |post|
    ensures PostsOk(look, SendRun(look, post, i))
    ensures forall j :: i <= j < |post| ==> SendRun(look, post, i)[j] == post[j]
  {
    hide SendStep;
    if i > 2 {
      SendRunOk(look, post, i - 1);
      SendStepOk(look, SendRun(look, post, i - 1), i - 1);
    }
  }

  /** After any number of posts, the decoder's posts so far are the encoder's, flags included, and the
      rest is still as received. */
  lemma {:induction false} InStep(look: Look, post: seq<int>, i: nat)
    requires look.Valid() && PostsOk(look, post) && 2 <= i <= |post|
    ensures forall j :: 0 <= j < i ==> ReceiveRun(look, Outs(look, post), i)[j] == SendRun(look, post, i)[j]
    ensures forall j :: i <= j < |post| ==> ReceiveRun(look, Outs(look, post), i)[j] == Outs(look, post)[j]
  {
    hide SendStep, ReceiveStep, Sent;
    if i > 2 {
      InStep(look, post, i - 1);
      SendRunOk(look, post, i - 1);
      StepInStep(look, SendRun(look, post, i - 1), ReceiveRun(look, Outs(look, post), i - 1), i - 1);
    }
  }

  /** The decoder rebuilds the encoder's final posts. */
  lemma SamePosts(look: Look, post: seq<int>)
    requires look.Valid() && PostsOk(look, post)
    ensures ReceiveRun(look, Outs(look, post), |post|) == SendRun(look, post, |post|)
  {
    InStep(look, post, |post|);
  }

  /** Passing posts never changes the value of one already passed. */
  lemma {:induction false} ValueKept(look: Look, post: seq<int>, i: nat, j: nat)
    requires look.Valid() && PostsOk(look, post) && 2 <= i <= |post| && j < i
    ensures j < 2 || !Flagged(post[j]) ==> Masked(SendRun(look, post, i)[j]) == Masked(post[j])
  {
    hide SendStep, Masked, Flagged;
    if i > 2 {
      var was := SendRun(look, post, i - 1);
      SendRunOk(look, post, i - 1);
      SendStepOk(look, was, i - 1);
      if j < i - 1 {
        ValueKept(look, post, i - 1, j);
      } else if !Flagged(post[j]) {
        PostFacts(look.Q(), post[j]);
        assert was[j] == post[j];
        assert Masked(SendStep(look, was, j)[j]) == was[j];
      }
    }
  }

  /** The final posts can be drawn: values in range, and the first end never left out. */
  lemma {:induction false} FinalPostsOk(look: Look, post: seq<int>, i: nat)
    requires look.Valid() && PostsOk(look, post) && !Flagged(post[0]) && 2 <= i <= |post|
    ensures PostsOk(look, SendRun(look, post, i)) && !Flagged(SendRun(look, post, i)[0])
  {
    hide Masked, Flagged, WithFlag, Predict, Wrap;
    SendRunOk(look, post, i);
    if i > 2 {
      FinalPostsOk(look, post, i - 1);
      var was := SendRun(look, post, i - 1);
      PostFacts(look.Q(), was[0]);
      FlagFacts(Masked(was[0]));
    }
  }

  /** Every post the encoder meant to send comes out of the decoder with its own value. */
  lemma ValuesArrive(look: Look, post: seq<int>, j: nat)
    requires look.Valid() && PostsOk(look, post) && j < |post| && !Flagged(post[j])
    ensures Masked(ReceiveRun(look, Outs(look, post), |post|)[j]) == post[j]
  {
    SamePosts(look, post);
    ValueKept(look, post, |post|, j);
    PostFacts(look.Q(), post[j]);
  }

  // ---------------------------------------------------------------------------------------------
  // The loops
  // ---------------------------------------------------------------------------------------------

  /** Down from 1024 steps. */
  function Quantize(mult: nat, v: int): (r: int)
    ensures 1 <= mult <= 4 && 0 <= v < 1024 ==> 0 <= r < QuantQ(mult)
  {
    if mult == 1 then v / 4 else if mult == 2 then v / 8 else if mult == 3 then v / 12 else v / 16
  }

  function QuantizePost(mult: nat, v: int): int
  {
    Quantize(mult, Masked(v)) + if Flagged(v) then FLAG else 0
  }

  lemma QuantizedOk(mult: nat, v: int)
    requires 1 <= mult <= 4 && Masked(v) < 1024
    ensures PostOk(QuantQ(mult), QuantizePost(mult, v))
  {
  }

  method QuantizePosts(mult: nat, post: array<int>)
    requires 1 <= mult <= 4
    modifies post
    ensures forall i :: 0 <= i < post.Length ==> post[i] == QuantizePost(mult, old(post[i]))
  {
    for i := 0 to post.Length
      invariant forall k :: 0 <= k < i ==> post[k] == QuantizePost(mult, old(post[k]))
      invariant forall k :: i <= k < post.Length ==> post[k] == old(post[k])
    {
      post[i] := Quantize(mult, Masked(post[i])) + if Flagged(post[i]) then FLAG else 0;
    }
  }

  /** Send one post as what its neighbours do not predict. */
  method SendPost(look: Look, post: array<int>, i: nat) returns (sent: int)
    requires look.Valid() && post.Length == |look.postlist| && 2 <= i < post.Length
    modifies post
    ensures sent == Sent(look, old(post[..]), i) && post[..] == SendStep(look, old(post[..]), i)
  {
    hide Predict, Masked, Flagged, WithFlag, Look.Valid;
    ghost var was := post[..];
    var ln, hn := look.Lo(i), look.Hi(i);
    var predicted := RenderPoint(look.postlist[ln], look.postlist[hn], post[ln], post[hn], look.postlist[i]);
    PredictIs(look, was, i, predicted);
    if Flagged(post[i]) || predicted == post[i] {
      post[i] := WithFlag(predicted);
      sent := 0;
    } else {
      var headroom := if look.Q() - predicted < predicted then look.Q() - predicted else predicted;
      var val := post[i] - predicted;
      if val < 0 {
        if val < -headroom {
          val := headroom - val - 1;
        } else {
          val := -1 - 2 * val;
        }
      } else {
        if val >= headroom {
          val := val + headroom;
        } else {
          val := 2 * val;
        }
      }
      sent := val;
      post[ln] := Masked(post[ln]);
      post[hn] := Masked(post[hn]);
    }
  }

  /** The encoder's prediction pass over quantised posts. */
  method SendPosts(look: Look, post: array<int>) returns (out: array<int>)
    requires look.Valid() && post.Length == |look.postlist|
    modifies post
    ensures fresh(out) && out[..] == Outs(look, old(post[..])) && post[..] == SendRun(look, old(post[..]), post.Length)
  {
    hide Sent, SendStep, Look.Valid;
    ghost var start := post[..];
    AtLeastTwo(look);
    out := new int[post.Length](i => 0);
    out[0], out[1] := post[0], post[1];
    var i := 2;
    while i < post.Length
      invariant 2 <= i <= post.Length && post[..] == SendRun(look, start, i)
      invariant forall k :: 0 <= k < i ==> out[k] == Outs(look, start)[k]
    {
      var sent := SendPost(look, post, i);
      out[i] := sent;
      i := i + 1;
    }
  }

  lemma AtLeastTwo(look: Look)
    requires look.Valid()
    ensures |look.postlist| >= 2
  {
  }

  lemma MultOk(look: Look)
    requires look.Valid()
    ensures 1 <= look.mult <= 4 && 64 <= look.Q() <= 256 && |look.postlist| >= 2
  {
  }

  lemma PredictIs(look: Look, post: seq<int>, i: nat, predicted: int)
    requires look.Valid() && |post| == |look.postlist| && 2 <= i < |post|
    requires predicted
        == RenderPoint(look.postlist[look.Lo(i)], look.postlist[look.Hi(i)], post[look.Lo(i)], post[look.Hi(i)],
                       look.postlist[i])
    ensures predicted == Predict(look, post, i)
  {
    hide RenderPoint, Look.Valid;
  }

  /** The decoder's pass over received values. */
  method ReceivePosts(look: Look, fit: array<int>)
    requires look.Valid() && fit.Length == |look.postlist|
    modifies fit
    ensures fit[..] == ReceiveRun(look, old(fit[..]), fit.Length)
  {
    hide Predict, Masked, Flagged, WithFlag, Look.Valid;
    ghost var start := fit[..];
    AtLeastTwo(look);
    var i := 2;
    while i < fit.Length
      invariant 2 <= i <= fit.Length && fit[..] == ReceiveRun(look, start, i)
    {
      ghost var was := fit[..];
      var ln, hn := look.Lo(i), look.Hi(i);
      var predicted := RenderPoint(look.postlist[ln], look.postlist[hn], fit[ln], fit[hn], look.postlist[i]);
      PredictIs(look, was, i, predicted);
      var hiroom := look.Q() - predicted;
      var loroom := predicted;
      var room := 2 * (if hiroom < loroom then hiroom else loroom);
      var val := fit[i];
      if val != 0 {
        if val >= room {
          if hiroom > loroom {
            val := val - loroom;
          } else {
            val := -1 - (val - hiroom);
          }
        } else {
          if val % 2 == 1 {
            val := -((val + 1) / 2);
          } else {
            val := val / 2;
          }
        }
        assert val == Unwrap(look.Q(), predicted, was[i]);
        fit[i] := Masked(val + predicted);
        fit[ln] := Masked(fit[ln]);
        fit[hn] := Masked(fit[hn]);
      } else {
        fit[i] := WithFlag(predicted);
      }
      assert fit[..] == ReceiveStep(look, was, i);
      i := i + 1;
    }
  }
}
