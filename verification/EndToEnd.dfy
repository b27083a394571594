/** The stream the encoder's blocking emits, played back by the decoder's overlap-add. */
module EndToEnd {
  import opened Blocks
  import opened Synthesis
  import opened Analysis

  /** What the decoder gets to see of block `k`: other samples, at its own rate, and perhaps no granule
      position. */
  ghost predicate Shown(st: Setup, b: Block, p: Packet, last: bool)
  {
    && p.W == b.W && p.sequence == b.sequence && p.eos == b.eos && |p.pcm| == 2 * st.N(b.W)
    && (p.granulepos == b.granulepos || (!last && p.granulepos == -1))
  }

  ghost predicate AllShown(st: Setup, blocks: seq<Block>, packets: seq<Packet>)
  {
    && |packets| == |blocks|
    && forall k :: 0 <= k < |blocks| ==> Shown(st, blocks[k], packets[k], k == |blocks| - 1)
  }

  /** Output samples that `n` full-rate samples make: all of them, or at half rate every other one. */
  function Output(n: nat, hs: nat): nat
  {
    if hs == 0 then n else (n + 1) / 2
  }

  function Head(st: Setup, p: Packet): seq<real>
    requires |p.pcm| == 2 * st.N(p.W)
  {
    p.pcm[..st.N(p.W)]
  }

  function Tail(st: Setup, p: Packet): seq<real>
    requires |p.pcm| == 2 * st.N(p.W)
  {
    p.pcm[st.N(p.W)..]
  }

  ghost predicate Sized(st: Setup, packets: seq<Packet>)
  {
    forall k :: 0 <= k < |packets| ==> |packets[k].pcm| == 2 * st.N(packets[k].W)
  }

  /** Plain overlap-add of packets 0 to `k`: every second half joined to the first half after it. */
  ghost function Lapped(st: Setup, packets: seq<Packet>, k: nat): seq<real>
    requires k < |packets| && Sized(st, packets)
  {
    if k == 0 then []
    else
      var lw, w := packets[k - 1].W, packets[k].W;
      Lapped(st, packets, k - 1) + Overlap(Tail(st, packets[k - 1]), Head(st, packets[k]), st.Slope(lw, w))
  }

  /** Half of half a block is a quarter block at the output rate; block quarters are even. */
  lemma Rate(st: Setup, w: bool)
    requires st.Valid()
    ensures st.N(w) / 2 == Down(st.sz.Quarter(w), st.hs) && st.sz.Quarter(w) % 2 == 0
  {
    Halves(st.sz.Of(w) / 64);
  }

  lemma ShownSized(st: Setup, blocks: seq<Block>, packets: seq<Packet>)
    requires AllShown(st, blocks, packets)
    ensures Sized(st, packets)
  {
    hide Setup.N;
    forall k | 0 <= k < |packets|
      ensures |packets[k].pcm| == 2 * st.N(packets[k].W)
    {
      assert Shown(st, blocks[k], packets[k], k == |blocks| - 1);
    }
  }

  /** Two neighbouring blocks overlap to as many samples as lie between their centres. */
  lemma LappedStep(st: Setup, blocks: seq<Block>, packets: seq<Packet>, k: nat)
    requires st.Valid() && AllShown(st, blocks, packets) && Sized(st, packets) && 0 < k < |blocks|
    ensures var a, b, step := Tail(st, packets[k - 1]), Head(st, packets[k]), st.sz.Step(blocks[k - 1].W, blocks[k].W);
      |Overlap(a, b, st.Slope(packets[k - 1].W, packets[k].W))| == Down(step, st.hs) && step % 2 == 0
  {
    hide Setup.N, Setup.M, Setup.Valid, Sizes.Of, Sizes.Quarter, Overlap, Setup.Slope;
    Rate(st, packets[k - 1].W);
    Rate(st, packets[k].W);
    assert Shown(st, blocks[k - 1], packets[k - 1], false);
    assert Shown(st, blocks[k], packets[k], k == |blocks| - 1);
  }

  lemma {:induction false} LappedLength(st: Setup, blocks: seq<Block>, packets: seq<Packet>, k: nat)
    requires st.Valid() && AllShown(st, blocks, packets) && Sized(st, packets) && k < |blocks|
    ensures |Lapped(st, packets, k)| == Down(Center(st.sz, blocks, k), st.hs) && Center(st.sz, blocks, k) % 2 == 0
  {
    hide AllShown, Sized, Setup.N, Setup.M, Setup.Valid, Sizes.Step, Overlap, Setup.Slope, Down;
    if k == 0 {
      NoneDown(st.hs);
    } else {
      LappedLength(st, blocks, packets, k - 1);
      LappedStep(st, blocks, packets, k);
      DownAdds(Center(st.sz, blocks, k - 1), st.sz.Step(blocks[k - 1].W, blocks[k].W), st.hs);
    }
  }

  lemma NoneDown(hs: nat)
    ensures Down(0, hs) == 0
  {
  }

  lemma DownAdds(a: nat, b: nat, hs: nat)
    requires a % 2 == 0 && b % 2 == 0
    ensures Down(a + b, hs) == Down(a, hs) + Down(b, hs) && (a + b) % 2 == 0
  {
  }

  /** The decoder's count after block `k`: the centre, under both its names once a mark was seen. */
  ghost predicate InStep(c: Clock, center: int)
  {
    c.sampleCount == center && (c.granulepos == -1 || c.granulepos == center)
  }

  /** A block that is not the last is kept whole, whether its mark is seen or hidden. */
  lemma TickKeeps(c: Clock, k: nat, center: nat, step: nat, gran: int, eos: bool, avail: nat, hs: nat)
    requires if k == 0 then c == Clock(-1, -1) && center == 0 else InStep(c, center - step)
    requires k > 0 ==> step <= center
    requires (gran == center || gran == -1) && !eos
    ensures var r := Tick(c, step, gran, eos, avail, hs); InStep(r.0, center) && r.1 == Trim(0, 0)
  {
  }

  /** The last block loses exactly what lies past the end. */
  lemma TickTrims(c: Clock, k: nat, center: nat, step: nat, n: nat, avail: nat, hs: nat)
    requires if k == 0 then c == Clock(-1, -1) && center == 0 && avail == 0
             else InStep(c, center - step) && avail == Down(step, hs) && step % 2 == 0
    requires k > 0 ==> step <= center && center - step < n
    requires n <= center
    ensures Tick(c, step, n, true, avail, hs).1 == Trim(0, Down(center - n, hs))
  {
  }

  /** What the decoder makes of block `k`, given its clock after block `k - 1`. */
  ghost predicate Ticks(st: Setup, blocks: seq<Block>, n: nat, k: nat, after: Clock, full: seq<real>, got: seq<real>)
    requires k < |blocks|
  {
    if k < |blocks| - 1 then InStep(after, Center(st.sz, blocks, k)) && got == full
    else
      var past := Center(st.sz, blocks, k) - n;
      0 <= past && Down(past, st.hs) <= |full| && got == full[..|full| - Down(past, st.hs)]
  }

  /** The clock before block `k`. */
  ghost predicate Clocked(sz: Sizes, blocks: seq<Block>, k: nat, c: Clock)
    requires k <= |blocks|
  {
    if k == 0 then c == Clock(-1, -1) else InStep(c, Center(sz, blocks, k - 1))
  }

  lemma BlockTicks(st: Setup, blocks: seq<Block>, packets: seq<Packet>, n: nat, k: nat, c: Clock, step: nat,
                   full: seq<real>)
    requires WholeStream(st.sz, blocks, n) && AllShown(st, blocks, packets) && k < |blocks|
    requires Clocked(st.sz, blocks, k, c)
    requires k == 0 ==> full == []
    requires k > 0 ==> step == st.sz.Step(blocks[k - 1].W, blocks[k].W) && |full| == Down(step, st.hs) && step % 2 == 0
    ensures var p := packets[k]; var r := Tick(c, step, p.granulepos, p.eos, |full|, st.hs);
      Ticks(st, blocks, n, k, r.0, full, full[r.1.front..|full| - r.1.back])
  {
    hide Sizes.Step, Tick;
    var p, last := packets[k], |blocks| - 1;
    assert Shown(st, blocks[k], p, k == last);
    var center := Center(st.sz, blocks, k);
    if k < last {
      assert Marked(st.sz, blocks, n, k);
      TickKeeps(c, k, center, step, p.granulepos, p.eos, |full|, st.hs);
    } else {
      if k > 0 {
        assert Marked(st.sz, blocks, n, k - 1);
      }
      TickTrims(c, k, center, step, n, |full|, st.hs);
    }
  }

  lemma NoGap(st: Setup, blocks: seq<Block>, packets: seq<Packet>, n: nat, k: nat, c: Clock, sequence: int)
    requires WholeStream(st.sz, blocks, n) && AllShown(st, blocks, packets) && k < |blocks|
    requires Clocked(st.sz, blocks, k, c)
    requires k > 0 ==> sequence == packets[k - 1].sequence
    requires k == 0 ==> sequence == -1
    ensures Synced(c, sequence, packets[k].sequence) == c
  {
    hide Center;
    if k > 0 {
      NumberedFrom(st.sz, blocks, n, k - 1);
      assert Shown(st, blocks[k - 1], packets[k - 1], false);
      assert Shown(st, blocks[k], packets[k], k == |blocks| - 1);
      assert Follows(st.sz, blocks, k);
    }
  }

  lemma {:induction false} NumberedFrom(sz: Sizes, blocks: seq<Block>, n: nat, k: nat)
    requires WholeStream(sz, blocks, n) && k < |blocks|
    ensures blocks[k].sequence == FIRST_SEQUENCE + k
  {
    hide Center;
    assert Follows(sz, blocks, k);
    if k > 0 {
      NumberedFrom(sz, blocks, n, k - 1);
    }
  }

  /** What has been played after block `k`. */
  ghost predicate Played(st: Setup, blocks: seq<Block>, packets: seq<Packet>, n: nat, k: nat, out: seq<real>)
    requires k < |packets| && Sized(st, packets)
  {
    var all := Lapped(st, packets, k);
    if k < |blocks| - 1 then out == all else Output(n, st.hs) <= |all| && out == all[..Output(n, st.hs)]
  }

  lemma PlayedMore(st: Setup, blocks: seq<Block>, packets: seq<Packet>, n: nat, k: nat, after: Clock, full: seq<real>,
                   out: seq<real>, got: seq<real>)
    requires st.Valid() && WholeStream(st.sz, blocks, n) && AllShown(st, blocks, packets) && Sized(st, packets)
    requires k < |blocks| && Ticks(st, blocks, n, k, after, full, got)
    requires if k == 0 then out == [] && full == []
             else
               && out == Lapped(st, packets, k - 1)
               && full == Overlap(Tail(st, packets[k - 1]), Head(st, packets[k]),
                                  st.Slope(packets[k - 1].W, packets[k].W))
    ensures Played(st, blocks, packets, n, k, out + got)
  {
    hide Overlap, Setup.N, Setup.M, Setup.Valid, Center, Sized;
    LappedLength(st, blocks, packets, k);
    assert Lapped(st, packets, k) == out + full;
    if k == |blocks| - 1 {
      KeptOutput(Center(st.sz, blocks, k), n, st.hs);
      assert out + got == (out + full)[..Output(n, st.hs)];
    }
  }

  /** Cutting what lies past the end leaves the output of `n` samples. */
  lemma KeptOutput(center: nat, n: nat, hs: nat)
    requires n <= center && center % 2 == 0
    ensures Down(center, hs) - Down(center - n, hs) == Output(n, hs)
  {
  }

  /** The state between two blocks. */
  ghost predicate Playing(d: VorbisSynthesis, blocks: seq<Block>, packets: seq<Packet>, k: nat)
    requires k <= |packets| == |blocks| && Sized(d.st, packets)
    reads d, d.pcm
  {
    && d.Valid() && d.Unread() == [] && Clocked(d.st.sz, blocks, k, d.Now())
    && if k == 0 then d.stage == Restarted && d.sequence == -1
       else
         && d.stage != Restarted && d.W == packets[k - 1].W && d.sequence == packets[k - 1].sequence
         && d.tail == Tail(d.st, packets[k - 1])
  }

  lemma StartPlaying(d: VorbisSynthesis, blocks: seq<Block>, packets: seq<Packet>, n: nat)
    requires d.Valid() && d.stage == Restarted && d.sequence == -1 && d.Now() == Clock(-1, -1)
    requires WholeStream(d.st.sz, blocks, n) && AllShown(d.st, blocks, packets) && Sized(d.st, packets)
    ensures |packets| == |blocks| > 0 && d.st.Valid() && Playing(d, blocks, packets, 0)
  {
    hide Sized, Center;
  }

  /** Play a whole stream, emptying the decoder after every block. */
  method Playback(d: VorbisSynthesis, ghost blocks: seq<Block>, packets: seq<Packet>, ghost n: nat)
      returns (out: seq<real>)
    requires d.Valid() && d.stage == Restarted && d.sequence == -1 && d.Now() == Clock(-1, -1)
    requires WholeStream(d.st.sz, blocks, n) && AllShown(d.st, blocks, packets) && Sized(d.st, packets)
    modifies d, d.pcm
    ensures Output(n, d.st.hs) <= |Lapped(d.st, packets, |packets| - 1)|
    ensures out == Lapped(d.st, packets, |packets| - 1)[..Output(n, d.st.hs)]
  {
    hide WholeStream, AllShown, Sized, Played, Lapped, Playing, VorbisSynthesis.Valid, Setup.Valid;
    StartPlaying(d, blocks, packets, n);
    out := [];
    var k := 0;
    while k < |packets|
      invariant 0 <= k <= |packets|
      invariant k < |packets| ==> Playing(d, blocks, packets, k)
      invariant if k == 0 then out == [] else Played(d.st, blocks, packets, n, k - 1, out)
    {
      var more := Play(d, blocks, packets, k, n, out);
      out := out + more;
      k := k + 1;
    }
    LastPlayed(d.st, blocks, packets, n, out);
  }

  /** Hand over one packet and take everything it makes available. */
  method Take(d: VorbisSynthesis, p: Packet) returns (got: seq<real>)
    requires d.Valid() && d.Unread() == [] && |p.pcm| == 2 * d.st.N(p.W)
    modifies d, d.pcm
    ensures d.Valid() && d.Unread() == [] && d.stage != Restarted
    ensures d.W == p.W && d.sequence == p.sequence && d.tail == p.pcm[d.st.N(p.W)..]
    ensures Released(d.st, old(d.stage), old(d.tail), old(d.W), old(d.Now()), old(d.sequence), p, d.Now(), got)
  {
    hide Setup.N, Setup.Valid, VorbisSynthesis.Valid, VorbisSynthesis.Now, VorbisSynthesis.Unread, Released;
    var ok := d.Blockin(p);
    got := d.Pcmout();
    assert got[|got|..] == [];
    ok := d.Read(|got|);
  }

  /** Play one block. */
  method Play(d: VorbisSynthesis, ghost blocks: seq<Block>, packets: seq<Packet>, k: nat, ghost n: nat,
              ghost out: seq<real>)
    returns (got: seq<real>)
    requires d.st.Valid() && WholeStream(d.st.sz, blocks, n) && AllShown(d.st, blocks, packets) && Sized(d.st, packets)
    requires k < |packets| == |blocks| && Playing(d, blocks, packets, k)
    requires if k == 0 then out == [] else Played(d.st, blocks, packets, n, k - 1, out)
    modifies d, d.pcm
    ensures k < |packets| - 1 ==> Playing(d, blocks, packets, k + 1)
    ensures Played(d.st, blocks, packets, n, k, out + got)
  {
    hide WholeStream, AllShown, Sized, Clocked, Played, Center, Lapped, Overlap, Tick, Synced, Tail, Setup.N,
         Setup.Valid, Setup.Slope, Sizes.Step, VorbisSynthesis.Valid;
    PairUp(d.st, blocks, packets, k);
    PlayGood(d.st, blocks, packets, n, k, d.Now(), d.W, d.sequence, d.tail, out);
    got := Take(d, packets[k]);
  }

  lemma PlayGood(st: Setup, blocks: seq<Block>, packets: seq<Packet>, n: nat, k: nat, c: Clock, w: bool, sequence: int,
                 tail: seq<real>, out: seq<real>)
    requires st.Valid() && WholeStream(st.sz, blocks, n) && AllShown(st, blocks, packets) && Sized(st, packets)
    requires k < |packets| == |blocks| && Clocked(st.sz, blocks, k, c) && |packets[k].pcm| == 2 * st.N(packets[k].W)
    requires if k == 0 then sequence == -1 && out == []
             else
               && w == packets[k - 1].W && sequence == packets[k - 1].sequence
               && tail == Tail(st, packets[k - 1]) && Played(st, blocks, packets, n, k - 1, out)
    ensures
      var p := packets[k];
      var full := if k == 0 then [] else Overlap(tail, p.pcm[..st.N(p.W)], st.Slope(w, p.W));
      var r := Tick(Synced(c, sequence, p.sequence), st.sz.Step(w, p.W), p.granulepos, p.eos, |full|, st.hs);
      && Played(st, blocks, packets, n, k, out + full[r.1.front..|full| - r.1.back])
      && (k < |packets| - 1 ==> Clocked(st.sz, blocks, k + 1, r.0))
  {
    hide WholeStream, AllShown, Sized, Clocked, Ticks, Center, Lapped, Overlap, Tick, Synced, Tail, Setup.N,
         Setup.Valid, Setup.Slope, Sizes.Step;
    PairUp(st, blocks, packets, k);
    var p := packets[k];
    var step := st.sz.Step(w, p.W);
    var full := if k == 0 then [] else Overlap(tail, p.pcm[..st.N(p.W)], st.Slope(w, p.W));
    NoGap(st, blocks, packets, n, k, c, sequence);
    BlockTicks(st, blocks, packets, n, k, c, step, full);
    var r := Tick(c, step, p.granulepos, p.eos, |full|, st.hs);
    var got := full[r.1.front..|full| - r.1.back];
    PlayedMore(st, blocks, packets, n, k, r.0, full, out, got);
    ClockedNext(st, blocks, n, k, r.0, full, got);
  }

  lemma PairUp(st: Setup, blocks: seq<Block>, packets: seq<Packet>, k: nat)
    requires st.Valid() && AllShown(st, blocks, packets) && Sized(st, packets) && k < |packets|
    ensures |packets[k].pcm| == 2 * st.N(packets[k].W) && Head(st, packets[k]) == packets[k].pcm[..st.N(packets[k].W)]
    ensures Tail(st, packets[k]) == packets[k].pcm[st.N(packets[k].W)..]
    ensures k > 0 ==>
      |packets[k - 1].pcm| == 2 * st.N(packets[k - 1].W)
      && |Overlap(Tail(st, packets[k - 1]), Head(st, packets[k]), st.Slope(packets[k - 1].W, packets[k].W))|
         == Down(st.sz.Step(packets[k - 1].W, packets[k].W), st.hs)
      && st.sz.Step(packets[k - 1].W, packets[k].W) == st.sz.Step(blocks[k - 1].W, blocks[k].W)
      && st.sz.Step(packets[k - 1].W, packets[k].W) % 2 == 0
  {
    hide Setup.N, Setup.Valid, Setup.Slope, Overlap, Sizes.Step;
    assert Shown(st, blocks[k], packets[k], k == |blocks| - 1);
    if k > 0 {
      assert Shown(st, blocks[k - 1], packets[k - 1], false);
      LappedStep(st, blocks, packets, k);
    }
  }

  lemma ClockedNext(st: Setup, blocks: seq<Block>, n: nat, k: nat, after: Clock, full: seq<real>, got: seq<real>)
    requires k < |blocks| - 1 ==> Ticks(st, blocks, n, k, after, full, got)
    requires k < |blocks|
    ensures k < |blocks| - 1 ==> Clocked(st.sz, blocks, k + 1, after)
  {
    hide Center;
  }

  lemma LastPlayed(st: Setup, blocks: seq<Block>, packets: seq<Packet>, n: nat, out: seq<real>)
    requires WholeStream(st.sz, blocks, n) && AllShown(st, blocks, packets) && Sized(st, packets)
    requires |packets| > 0 && Played(st, blocks, packets, n, |packets| - 1, out)
    ensures Output(n, st.hs) <= |Lapped(st, packets, |packets| - 1)|
    ensures out == Lapped(st, packets, |packets| - 1)[..Output(n, st.hs)]
  {
    hide WholeStream, Sized, Lapped;
  }

  /** From the end of input to the last sample: whatever the envelope search answers, whatever the
      codec makes of the samples, and whichever marks but the last are hidden, a stream to which
      `v.total` samples were written plays back as `v.total` samples; at half rate as half of them, rounded up. */
  method SampleExact(v: VorbisAnalysis, d: VorbisSynthesis, earlier: seq<Block>, search: nat -> Search,
                     show: (Block, bool) -> Packet) returns (out: seq<real>, ghost packets: seq<Packet>)
    requires v.Valid() && v.eofflag > 0 && v.emitted == earlier
    requires d.Valid() && d.stage == Restarted && d.sequence == -1 && d.Now() == Clock(-1, -1) && d.st.sz == v.sz
    requires forall b: Block, last: bool :: |b.pcm| == v.sz.Of(b.W) ==> Shown(d.st, b, show(b, last), last)
    modifies v, d, d.pcm
    ensures |out| == Output(v.total, d.st.hs) && v.total == old(v.total)
    ensures v.Valid() && v.stream == old(v.stream) && WholeStream(v.sz, v.emitted, v.total) && d.st.Valid()
    ensures AllShown(d.st, v.emitted, packets) && Sized(d.st, packets) && |packets| > 0
    ensures forall k :: 0 <= k < |packets| ==> packets[k] == show(v.emitted[k], k == |packets| - 1)
    ensures Output(v.total, d.st.hs) <= |Lapped(d.st, packets, |packets| - 1)|
    ensures out == Lapped(d.st, packets, |packets| - 1)[..Output(v.total, d.st.hs)]
  {
    hide WholeStream, Sized, Lapped, Output, VorbisAnalysis.Valid, VorbisSynthesis.Valid, Sizes.Of, Setup.N;
    var blocks := FinishStream(v, search);
    blocks := earlier + blocks;
    BlocksSized(v);
    var made := seq(|blocks|, k requires 0 <= k < |blocks| => show(blocks[k], k == |blocks| - 1));
    SetupGood(d);
    ShownSized(d.st, blocks, made);
    StreamSome(d.st, blocks, v.total);
    packets := made;
    out := Playback(d, blocks, made, v.total);
  }

  lemma StreamSome(st: Setup, blocks: seq<Block>, n: nat)
    requires WholeStream(st.sz, blocks, n)
    ensures |blocks| > 0
  {
    hide Center;
  }

  lemma SetupGood(d: VorbisSynthesis)
    requires d.Valid()
    ensures d.st.Valid()
  {
  }

  lemma BlocksSized(v: VorbisAnalysis)
    requires v.Valid()
    ensures forall k :: 0 <= k < |v.emitted| ==> |v.emitted[k].pcm| == v.sz.Of(v.emitted[k].W)
  {
    hide Window, Analysis.Placed, Chained, Whole, Sizes.Valid, Sizes.Of, Sizes.Half, Center;
    forall k | 0 <= k < |v.emitted|
      ensures |v.emitted[k].pcm| == v.sz.Of(v.emitted[k].W)
    {
      assert InPlace(v.sz, v.stream, v.emitted, k);
    }
  }
}
