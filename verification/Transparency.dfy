/** The whole path at full rate: a codec between the two ends that keeps every block under its window gives back the
    signal that went in, sample by sample. */
module Transparency {
  import opened Blocks
  import opened Synthesis
  import opened Reconstruction
  import opened Analysis
  import opened EndToEnd

  // ---------------------------------------------------------------------------------------------
  // Any rate: packets that hold a signal
  // ---------------------------------------------------------------------------------------------

  /** Packets `k - 1` and `k` hold the signal `x` between their centres, which it starts counting from the first. */
  ghost predicate Hold(st: Setup, packets: seq<Packet>, x: seq<real>, fold: real, k: nat)
    requires 0 < k < |packets| && Sized(st, packets)
  {
    var from, to := |EndToEnd.Lapped(st, packets, k - 1)|, |EndToEnd.Lapped(st, packets, k)|;
    && from <= to <= |x|
    && Leaves(Tail(st, packets[k - 1]), x[from..to], st.Slope(packets[k - 1].W, packets[k].W), fold)
    && Enters(Head(st, packets[k]), x[from..to], st.Slope(packets[k - 1].W, packets[k].W), fold)
  }

  lemma JointRestores(st: Setup, a: Packet, b: Packet, x: seq<real>, fold: real)
    requires st.Valid() && SlopesComplementary(st) && |a.pcm| == 2 * st.N(a.W) && |b.pcm| == 2 * st.N(b.W)
    requires |x| == |Overlap(Tail(st, a), Head(st, b), st.Slope(a.W, b.W))|
    requires Leaves(Tail(st, a), x, st.Slope(a.W, b.W), fold) && Enters(Head(st, b), x, st.Slope(a.W, b.W), fold)
    ensures Overlap(Tail(st, a), Head(st, b), st.Slope(a.W, b.W)) == x
  {
    hide Leaves, Enters, Complementary, Lap, Setup.N;
    st.Bounds(a.W);
    st.Bounds(b.W);
    HalfOf(st.N(a.W), st.M(a.W));
    HalfOf(st.N(b.W), st.M(b.W));
    Restores(Tail(st, a), Head(st, b), x, st.Slope(a.W, b.W), fold);
  }

  /** Overlap-add of packets that hold a signal is the signal. */
  lemma {:induction false} LappedRestores(st: Setup, packets: seq<Packet>, x: seq<real>, fold: real, k: nat)
    requires st.Valid() && SlopesComplementary(st) && Sized(st, packets) && k < |packets|
    requires forall j :: 0 < j <= k ==> Hold(st, packets, x, fold, j)
    ensures var all := EndToEnd.Lapped(st, packets, k); |all| <= |x| && all == x[..|all|]
  {
    hide Sized, Overlap, Leaves, Enters, SlopesComplementary, Setup.N, Setup.Slope, Setup.Valid;
    if k > 0 {
      LappedRestores(st, packets, x, fold, k - 1);
      assert Hold(st, packets, x, fold, k);
      var from, to := |EndToEnd.Lapped(st, packets, k - 1)|, |EndToEnd.Lapped(st, packets, k)|;
      SizedAt(st, packets, k - 1);
      SizedAt(st, packets, k);
      JointRestores(st, packets[k - 1], packets[k], x[from..to], fold);
      assert x[..from] + x[from..to] == x[..to];
    }
  }

  lemma SizedAt(st: Setup, packets: seq<Packet>, k: nat)
    requires Sized(st, packets) && k < |packets|
    ensures |packets[k].pcm| == 2 * st.N(packets[k].W)
  {
  }

  // ---------------------------------------------------------------------------------------------
  // Full rate: packets made of the encoder's blocks
  // ---------------------------------------------------------------------------------------------

  /** Each half of packet `p` holds the same half of block `b` under the window that its size and its neighbours' ask
      for. */
  ghost predicate Held(st: Setup, b: Block, p: Packet, fold: real)
  {
    var n := st.N(b.W);
    && p.W == b.W && |p.pcm| == |b.pcm| == 2 * n
    && Enters(p.pcm[..n], b.pcm[..n], st.Slope(b.lW, b.W), fold)
    && Leaves(p.pcm[n..], b.pcm[n..], st.Slope(b.W, b.nW), fold)
  }

  lemma LeavesHere(a: seq<real>, stream: seq<real>, at: nat, n: nat, d: nat, s: seq<real>, fold: real)
    requires at + n <= |stream| && at + d <= |stream| && Leaves(a, stream[at..at + n], s, fold)
    requires |a| / 2 - |s| / 2 + |s| <= d
    ensures Leaves(a, stream[at..at + d], s, fold)
  {
    hide Fallen;
    var upto := |a| / 2 - |s| / 2 + |s|;
    assert stream[at..at + n][..upto] == stream[at..at + upto] == stream[at..at + d][..upto];
    LeavesMore(a, stream[at..at + n], stream[at..at + d], s, fold);
  }

  lemma EntersHere(b: seq<real>, stream: seq<real>, at: nat, n: nat, d: nat, s: seq<real>, fold: real)
    requires n <= at <= |stream| && d <= at && n == |b| && Enters(b, stream[at - n..at], s, fold)
    requires |b| - (|b| / 2 - |s| / 2) <= d
    ensures Enters(b, stream[at - d..at], s, fold)
  {
    hide Risen;
    var left := |b| - (|b| / 2 - |s| / 2);
    assert stream[at - n..at][n - left..] == stream[at - left..at] == stream[at - d..at][d - left..];
    EntersMore(b, stream[at - n..at], stream[at - d..at], s, fold);
  }

  /** The two halves of a block are the stream on either side of its centre. */
  lemma BlockHalves(sz: Sizes, stream: seq<real>, b: Block, center: nat)
    requires sz.Valid() && HoldsStream(sz, stream, b, center)
    ensures var n, at := sz.Half(b.W), center + sz.Half(true);
      && n <= at && at + n <= |stream| && |b.pcm| == 2 * n
      && b.pcm[..n] == stream[at - n..at] && b.pcm[n..] == stream[at..at + n]
  {
    sz.Bounds(b.W);
    var n, at := sz.Half(b.W), center + sz.Half(true);
    var cut := stream[at - n..at + n];
    assert cut[..n] == stream[at - n..at] && cut[n..] == stream[at..at + n];
  }

  /** What neighbours need of the signal lies between their centres. */
  lemma ReachInside(st: Setup, lw: bool, w: bool)
    requires st.Valid() && st.hs == 0
    ensures var s, n, n' := st.Slope(lw, w), st.N(lw), st.N(w);
      && n == st.sz.Half(lw) && n' == st.sz.Half(w)
      && n / 2 - |s| / 2 + |s| <= st.sz.Step(lw, w) && n' - (n' / 2 - |s| / 2) <= st.sz.Step(lw, w)
  {
    st.Bounds(lw);
    st.Bounds(w);
    st.sz.Bounds(lw);
    st.sz.Bounds(w);
  }

  /** Two neighbouring blocks and the signal between their centres. */
  lemma JointHolds(st: Setup, stream: seq<real>, a: Block, b: Block, p: Packet, q: Packet, center: nat, fold: real)
    requires st.Valid() && st.hs == 0 && b.W == a.nW && b.lW == a.W
    requires HoldsStream(st.sz, stream, a, center) && HoldsStream(st.sz, stream, b, center + st.sz.Step(a.W, b.W))
    requires Held(st, a, p, fold) && Held(st, b, q, fold)
    ensures var at, s := center + st.sz.Half(true), st.Slope(a.W, b.W); var d := st.sz.Step(a.W, b.W);
      && |p.pcm| == 2 * st.N(p.W) && |q.pcm| == 2 * st.N(q.W) && at + d <= |stream|
      && Leaves(Tail(st, p), stream[at..at + d], s, fold) && Enters(Head(st, q), stream[at..at + d], s, fold)
  {
    hide Leaves, Enters, Setup.N, Setup.Slope, Setup.Valid, Sizes.Half, Sizes.Step, HoldsStream;
    var at, d := center + st.sz.Half(true), st.sz.Step(a.W, b.W);
    ReachInside(st, a.W, b.W);
    SetupSizes(st);
    BlockHalves(st.sz, stream, a, center);
    BlockHalves(st.sz, stream, b, center + d);
    LeavesHere(Tail(st, p), stream, at, st.N(a.W), d, st.Slope(a.W, b.W), fold);
    EntersHere(Head(st, q), stream, at + d, st.N(b.W), d, st.Slope(a.W, b.W), fold);
  }

  lemma HoldFromBlocks(st: Setup, stream: seq<real>, blocks: seq<Block>, packets: seq<Packet>, n: nat, fold: real,
                       k: nat)
    requires st.Valid() && st.hs == 0 && WholeStream(st.sz, blocks, n) && AllInPlace(st.sz, stream, blocks)
    requires AllShown(st, blocks, packets) && Sized(st, packets) && 0 < k < |packets| && st.sz.Half(true) <= |stream|
    requires |blocks| == |packets|
    requires Held(st, blocks[k - 1], packets[k - 1], fold) && Held(st, blocks[k], packets[k], fold)
    ensures Hold(st, packets, stream[st.sz.Half(true)..], fold, k)
  {
    hide AllShown, Sized, EndToEnd.Lapped, Leaves, Enters, Setup.N, Setup.Slope, Setup.Valid, Sizes.Half, Sizes.Step,
         HoldsStream, Marked;
    var a, b := blocks[k - 1], blocks[k];
    assert Analysis.InPlace(st.sz, stream, blocks, k - 1) && Analysis.InPlace(st.sz, stream, blocks, k);
    assert Follows(st.sz, blocks, k);
    JointHolds(st, stream, a, b, packets[k - 1], packets[k], Center(st.sz, blocks, k - 1), fold);
    LappedLength(st, blocks, packets, k - 1);
    LappedLength(st, blocks, packets, k);
    BeyondStart(stream, st.sz.Half(true), Center(st.sz, blocks, k - 1), Center(st.sz, blocks, k));
  }

  lemma BeyondStart(stream: seq<real>, h: nat, from: nat, to: nat)
    requires from <= to && h + to <= |stream|
    ensures to <= |stream[h..]| && stream[h..][from..to] == stream[h + from..h + to]
  {
  }

  lemma SetupSizes(st: Setup)
    requires st.Valid()
    ensures st.sz.Valid()
  {
  }

  /** Perfect reconstruction from one end to the other: whatever block sizes the search asks for, a codec that keeps
      each block under its window, mirror images included, makes the decoder play exactly what was written. The stream
      holds the input from its first centre on. */
  method PlaysBack(v: VorbisAnalysis, d: VorbisSynthesis, earlier: seq<Block>, search: nat -> Search,
                   show: (Block, bool) -> Packet, ghost fold: real) returns (out: seq<real>)
    requires v.Valid() && v.eofflag > 0 && v.emitted == earlier
    requires d.Valid() && d.stage == Restarted && d.sequence == -1 && d.Now() == Clock(-1, -1) && d.st.sz == v.sz
    requires d.st.hs == 0 && SlopesComplementary(d.st)
    requires forall b: Block, last: bool :: |b.pcm| == v.sz.Of(b.W) ==> Shown(d.st, b, show(b, last), last)
    requires forall b: Block, last: bool :: |b.pcm| == v.sz.Of(b.W) ==> Held(d.st, b, show(b, last), fold)
    modifies v, d, d.pcm
    ensures v.total == old(v.total) && v.stream == old(v.stream) && v.sz.Half(true) + v.total <= |v.stream|
    ensures out == v.stream[v.sz.Half(true)..v.sz.Half(true) + v.total]
  {
    hide WholeStream, Sized, AllShown, EndToEnd.Lapped, Output, VorbisAnalysis.Valid, VorbisSynthesis.Valid, Sizes.Of,
         Setup.N, Held, Shown, Sizes.Half, Setup.Valid;
    ghost var packets;
    out, packets := SampleExact(v, d, earlier, search, show);
    BlocksSized(v);
    StreamPlays(d.st, v, packets, fold, show);
    OutputIs(v.total);
    ghost var x := v.stream[v.sz.Half(true)..];
    assert x[..|EndToEnd.Lapped(d.st, packets, |packets| - 1)|][..v.total] == x[..v.total];
  }

  lemma OutputIs(n: nat)
    ensures Output(n, 0) == n
  {
  }

  lemma StreamPlays(st: Setup, v: VorbisAnalysis, packets: seq<Packet>, fold: real, show: (Block, bool) -> Packet)
    requires v.Valid() && st.sz == v.sz && st.Valid() && st.hs == 0 && SlopesComplementary(st)
    requires WholeStream(v.sz, v.emitted, v.total) && AllShown(st, v.emitted, packets) && Sized(st, packets)
    requires |packets| > 0
    requires forall k :: 0 <= k < |v.emitted| ==> |v.emitted[k].pcm| == v.sz.Of(v.emitted[k].W)
    requires forall k :: 0 <= k < |packets| ==> packets[k] == show(v.emitted[k], k == |packets| - 1)
    requires forall b: Block, last: bool :: |b.pcm| == v.sz.Of(b.W) ==> Held(st, b, show(b, last), fold)
    ensures v.sz.Half(true) <= |v.stream|
    ensures var x, all := v.stream[v.sz.Half(true)..], EndToEnd.Lapped(st, packets, |packets| - 1);
      |all| <= |x| && all == x[..|all|]
  {
    hide WholeStream, Sized, AllShown, EndToEnd.Lapped, Window, Placed, Chained, Whole, Sizes.Of, Setup.N, Held, Hold,
         SlopesComplementary, Sizes.Half, AllInPlace, Setup.Valid;
    StreamReaches(v);
    LengthsAgree(st, v.emitted, packets);
    forall k | 0 < k <= |packets| - 1
      ensures Hold(st, packets, v.stream[v.sz.Half(true)..], fold, k)
    {
      HoldFromBlocks(st, v.stream, v.emitted, packets, v.total, fold, k);
    }
    LappedRestores(st, packets, v.stream[v.sz.Half(true)..], fold, |packets| - 1);
  }

  lemma LengthsAgree(st: Setup, blocks: seq<Block>, packets: seq<Packet>)
    requires AllShown(st, blocks, packets)
    ensures |blocks| == |packets|
  {
  }

  lemma StreamReaches(v: VorbisAnalysis)
    requires v.Valid()
    ensures v.sz.Half(true) <= |v.stream|
  {
    hide Placed, AllInPlace, Chained, Whole, Sizes.Valid, Sizes.Half;
  }
}
