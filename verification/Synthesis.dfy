/** The decoder's overlap-add: a two-half ring that joins the second half of one block to the first
    half of the next. */
module Synthesis {
  import opened BitMath
  import opened Blocks

  /** A decoded block on its way into the ring; `granulepos` is -1 where the page does not mark it. */
  datatype Packet = Packet(W: bool, granulepos: int, sequence: int, eos: bool, pcm: seq<real>)

  lemma Halves(q: nat)
    requires q >= 1
    ensures (64 * q) / 2 == 32 * q && (64 * q) / 4 == 16 * q && (32 * q) / 2 == 16 * q && (16 * q) / 2 == 8 * q
  {
  }

  /** What the decoder is set up with: block sizes, output at half rate or not, and the rising slopes
      of the short and the long window. */
  datatype Setup = Setup(sz: Sizes, hs: nat, shortSlope: seq<real>, longSlope: seq<real>)
  {
    ghost predicate Valid()
    {
      sz.Valid() && hs <= 1 && |shortSlope| == N(false) && |longSlope| == N(true)
    }

    /** Half a block, at the output rate. */
    function N(w: bool): nat
    {
      if hs == 0 then sz.Of(w) / 2 else sz.Of(w) / 4
    }

    /** A quarter block, at the output rate. */
    function M(w: bool): nat
    {
      N(w) / 2
    }

    lemma Even(w: bool)
      requires sz.Valid() && hs <= 1
      ensures N(w) == 2 * M(w) && M(w) >= 8 && 2 * N(w) <= sz.Of(w)
    {
      Halves(sz.Of(w) / 64);
    }

    lemma Bounds(w: bool)
      requires Valid()
      ensures N(w) == 2 * M(w) && N(false) == 2 * M(false) && N(true) == 2 * M(true)
      ensures 8 <= M(false) <= M(w) <= M(true) && 2 * N(true) <= sz.long
      ensures |shortSlope| == N(false) && |longSlope| == N(true)
    {
      Even(w);
      Even(false);
      Even(true);
    }

    function Slope(lw: bool, w: bool): seq<real>
    {
      if lw && w then longSlope else shortSlope
    }
  }

  // ---------------------------------------------------------------------------------------------
  // Plain overlap-add (section 4.3.8 of the Vorbis I specification)
  // ---------------------------------------------------------------------------------------------

  /** A sample under a window value. */
  function Gain(x: real, g: real): real
  {
    x * g
  }

  lemma GainFlat(x: real)
    ensures Gain(x, 1.0) == x && Gain(x, 0.0) == 0.0
  {
  }

  /** The falling half of a window of `n` samples whose slope is `s`: flat, slope, silence. */
  function Falling(s: seq<real>, n: nat, i: int): real
  {
    var edge := n / 2 - |s| / 2;
    if i < edge then 1.0 else if i < edge + |s| then s[|s| - 1 - (i - edge)] else 0.0
  }

  /** The rising half: silence, slope, flat. */
  function Rising(s: seq<real>, n: nat, i: int): real
  {
    var edge := n / 2 - |s| / 2;
    if i < edge then 0.0 else if i < edge + |s| then s[i - edge] else 1.0
  }

  /** Sample `i` after the centre of the earlier block: its windowed second half `a` plus the windowed
      first half `b` of the later one, whose centre is `|a|/2 + |b|/2` samples on. */
  function Lap(a: seq<real>, b: seq<real>, s: seq<real>, i: nat): real
  {
    var j := i + |b| / 2 - |a| / 2;
    (if i < |a| then Gain(a[i], Falling(s, |a|, i)) else 0.0)
        + (if 0 <= j < |b| then Gain(b[j], Rising(s, |b|, j)) else 0.0)
  }

  function Overlap(a: seq<real>, b: seq<real>, s: seq<real>): (r: seq<real>)
    ensures |r| == |a| / 2 + |b| / 2
  {
    seq(|a| / 2 + |b| / 2, i requires 0 <= i => Lap(a, b, s, i))
  }

  // ---------------------------------------------------------------------------------------------
  // The ring
  // ---------------------------------------------------------------------------------------------

  /** One sample of the overlap section: old data fades out under the slope while new data fades in. */
  function Cross(old_: real, new_: real, s: seq<real>, i: nat): real
    requires i < |s|
  {
    Gain(old_, s[|s| - i - 1]) + Gain(new_, s[i])
  }

  lemma LapSame(a: seq<real>, b: seq<real>, s: seq<real>, i: nat)
    requires |a| == |b| == |s| && i < |s|
    ensures Lap(a, b, s, i) == Cross(a[i], b[i], s, i)
  {
  }

  lemma LapLongShort(a: seq<real>, b: seq<real>, s: seq<real>, i: nat)
    requires |b| == |s| <= |a| && i < |a| / 2 + |b| / 2 && |a| % 2 == 0 && |b| % 2 == 0
    ensures var edge := |a| / 2 - |b| / 2;
      Lap(a, b, s, i) == if i < edge then a[i] else Cross(a[i], b[i - edge], s, i - edge)
  {
    GainFlat(a[i]);
  }

  lemma LapShortLong(a: seq<real>, b: seq<real>, s: seq<real>, i: nat)
    requires |a| == |s| <= |b| && i < |a| / 2 + |b| / 2 && |a| % 2 == 0 && |b| % 2 == 0
    ensures var j := i + (|b| / 2 - |a| / 2);
      Lap(a, b, s, i) == if i < |s| then Cross(a[i], b[j], s, i) else b[j]
  {
    GainFlat(b[i + (|b| / 2 - |a| / 2)]);
  }

  lemma HalfOf(n: nat, m: nat)
    requires n == 2 * m
    ensures n / 2 == m && n % 2 == 0
  {
    DivModUnique(n, m, 2, 0);
  }

  /** The same with the halves of both pieces given. */
  lemma LongShortAt(a: seq<real>, b: seq<real>, s: seq<real>, m: nat, m': nat, i: nat)
    requires |a| == 2 * m >= |b| == |s| == 2 * m' && i < m + m'
    ensures Lap(a, b, s, i) == if i < m - m' then a[i] else Cross(a[i], b[i - (m - m')], s, i - (m - m'))
  {
    hide Lap, Cross;
    HalfOf(|a|, m);
    HalfOf(|b|, m');
    LapLongShort(a, b, s, i);
  }

  lemma ShortLongAt(a: seq<real>, b: seq<real>, s: seq<real>, m: nat, m': nat, i: nat)
    requires |a| == |s| == 2 * m <= |b| == 2 * m' && i < m + m'
    ensures Lap(a, b, s, i) == if i < 2 * m then Cross(a[i], b[i + (m' - m)], s, i) else b[i + (m' - m)]
  {
    hide Lap, Cross;
    HalfOf(|a|, m);
    HalfOf(|b|, m');
    LapShortLong(a, b, s, i);
  }

  lemma OverlapIs(a: seq<real>, b: seq<real>, s: seq<real>, m: nat, m': nat, part: seq<real>)
    requires |a| == 2 * m && |b| == 2 * m' && |part| == m + m'
    requires forall i :: 0 <= i < |part| ==> part[i] == Lap(a, b, s, i)
    ensures part == Overlap(a, b, s)
  {
    hide Lap;
    HalfOf(|a|, m);
    HalfOf(|b|, m');
  }

  /** The overlap loop over the samples of a slope. */
  method LapInto(pcm: array<real>, at: nat, p: seq<real>, from: nat, s: seq<real>)
    requires at + |s| <= pcm.Length && from + |s| <= |p|
    modifies pcm
    ensures forall k :: at <= k < at + |s| ==> pcm[k] == Cross(old(pcm[k]), p[from + k - at], s, k - at)
    ensures forall k :: 0 <= k < pcm.Length && !(at <= k < at + |s|) ==> pcm[k] == old(pcm[k])
  {
    var i := 0;
    while i < |s|
      invariant 0 <= i <= |s|
      invariant forall k :: at <= k < at + i ==> pcm[k] == Cross(old(pcm[k]), p[from + k - at], s, k - at)
      invariant forall k :: 0 <= k < pcm.Length && !(at <= k < at + i) ==> pcm[k] == old(pcm[k])
    {
      pcm[at + i] := Cross(pcm[at + i], p[from + i], s, i);
      i := i + 1;
    }
  }

  lemma Kept(x: seq<real>, y: seq<real>, i: nat, j: nat)
    requires i <= j <= |x| && j <= |y|
    requires forall k :: i <= k < j ==> x[k] == y[k]
    ensures x[i..j] == y[i..j]
  {
  }

  ghost predicate HoldsAt(ring: seq<real>, at: int, part: seq<real>)
  {
    0 <= at && at + |part| <= |ring| && ring[at..at + |part|] == part
  }

  lemma HeldAt(ring: seq<real>, at: nat, part: seq<real>, k: nat)
    requires HoldsAt(ring, at, part) && k < |part|
    ensures ring[at + k] == part[k]
  {
    assert ring[at..at + |part|][k] == ring[at + k];
  }

  lemma HoldsStill(x: seq<real>, y: seq<real>, at: nat, part: seq<real>)
    requires HoldsAt(x, at, part) && |x| == |y|
    requires forall k :: at <= k < at + |part| ==> x[k] == y[k]
    ensures HoldsAt(y, at, part)
  {
    Kept(x, y, at, at + |part|);
  }

  /** Outside the `n` places from `at` on, nothing changed. */
  ghost predicate Elsewhere(x: seq<real>, y: seq<real>, at: nat, n: nat)
  {
    |x| == |y| && forall k :: 0 <= k < |x| && !(at <= k < at + n) ==> y[k] == x[k]
  }

  method CopyInto(pcm: array<real>, at: nat, p: seq<real>, from: nat, count: nat)
    requires at + count <= pcm.Length && from + count <= |p|
    modifies pcm
    ensures HoldsAt(pcm[..], at, p[from..from + count])
    ensures Elsewhere(old(pcm[..]), pcm[..], at, count)
  {
    var i := 0;
    while i < count
      invariant 0 <= i <= count
      invariant forall k :: at <= k < at + i ==> pcm[k] == p[from + k - at]
      invariant forall k :: 0 <= k < pcm.Length && !(at <= k < at + i) ==> pcm[k] == old(pcm[k])
    {
      pcm[at + i] := p[from + i];
      i := i + 1;
    }
    assert pcm[..][at..at + count] == p[from..from + count];
  }

  /** Two blocks of one size. */
  method OverlapSame(pcm: array<real>, prev: nat, p: seq<real>, s: seq<real>, ghost a: seq<real>, ghost b: seq<real>)
    requires prev + |s| <= pcm.Length && |p| == 2 * |s| && |s| % 2 == 0
    requires a == pcm[prev..prev + |s|] && b == p[..|s|]
    modifies pcm
    ensures HoldsAt(pcm[..], prev, Overlap(a, b, s))
    ensures forall k :: 0 <= k < pcm.Length && !(prev <= k < prev + |s|) ==> pcm[k] == old(pcm[k])
  {
    hide Lap, Cross, Overlap;
    LapInto(pcm, prev, p, 0, s);
    forall i | 0 <= i < |s|
      ensures pcm[prev + i] == Lap(a, b, s, i)
    {
      LapSame(a, b, s, i);
    }
    DivMod(|s|, 2);
    OverlapIs(a, b, s, |s| / 2, |s| / 2, pcm[..][prev..prev + |s|]);
  }

  /** A long block, of which `a` is the second half, before a short one; `m` and `m'` are half of each half. */
  method OverlapLongShort(pcm: array<real>, prev: nat, p: seq<real>, s: seq<real>, m: nat, m': nat,
                          ghost a: seq<real>, ghost b: seq<real>)
    requires m' <= m && |s| == 2 * m' && prev + 2 * m <= pcm.Length && |p| == 2 * |s|
    modifies pcm
    requires a == pcm[prev..prev + 2 * m] && b == p[..2 * m']
    ensures HoldsAt(pcm[..], prev, Overlap(a, b, s))
    ensures forall k :: 0 <= k < pcm.Length && !(prev <= k < prev + 2 * m) ==> pcm[k] == old(pcm[k])
  {
    hide Lap, Cross, Overlap;
    LapInto(pcm, prev + (m - m'), p, 0, s);
    forall i | 0 <= i < m + m'
      ensures pcm[prev + i] == Lap(a, b, s, i)
    {
      LongShortAt(a, b, s, m, m', i);
    }
    OverlapIs(a, b, s, m, m', pcm[..][prev..prev + (m + m')]);
  }

  /** A short block before a long one. */
  method OverlapShortLong(pcm: array<real>, prev: nat, p: seq<real>, s: seq<real>, m: nat, m': nat,
                          ghost a: seq<real>, ghost b: seq<real>)
    requires m <= m' && |s| == 2 * m && prev + 2 * m' <= pcm.Length && |p| == 4 * m'
    modifies pcm
    requires a == pcm[prev..prev + 2 * m] && b == p[..2 * m']
    ensures HoldsAt(pcm[..], prev, Overlap(a, b, s))
    ensures forall k :: 0 <= k < pcm.Length && !(prev <= k < prev + 2 * m') ==> pcm[k] == old(pcm[k])
  {
    hide Lap, Cross, Overlap, HoldsAt, Elsewhere;
    LapInto(pcm, prev, p, m' - m, s);
    ghost var lapped := pcm[..];
    CopyInto(pcm, prev + 2 * m, p, m' + m, m' - m);
    ShortLongParts(prev, p, s, m, m', a, b, lapped, pcm[..]);
    HoldsPart(pcm[..], prev, m + m');
    ElsewhereIs(lapped, pcm[..], prev + 2 * m, m' - m);
  }

  lemma ElsewhereIs(x: seq<real>, y: seq<real>, at: nat, n: nat)
    requires Elsewhere(x, y, at, n)
    ensures |x| == |y| && forall k :: 0 <= k < |x| && !(at <= k < at + n) ==> y[k] == x[k]
  {
  }

  /** What was lapped and what was copied behind it. */
  lemma ShortLongParts(prev: nat, p: seq<real>, s: seq<real>, m: nat, m': nat, a: seq<real>, b: seq<real>,
                       lapped: seq<real>, now: seq<real>)
    requires m <= m' && |s| == |a| == 2 * m && |p| == 4 * m' && b == p[..2 * m'] && prev + 2 * m' <= |lapped|
    requires forall k :: prev <= k < prev + 2 * m ==>
      lapped[k] == Cross(a[k - prev], p[m' - m + k - prev], s, k - prev)
    requires Elsewhere(lapped, now, prev + 2 * m, m' - m)
    requires HoldsAt(now, prev + 2 * m, p[m' + m..m' + m + (m' - m)])
    ensures |now| == |lapped| && now[prev..prev + (m + m')] == Overlap(a, b, s)
  {
    hide Lap, Cross, Overlap, HoldsAt;
    forall i | 0 <= i < m + m'
      ensures now[prev + i] == Lap(a, b, s, i)
    {
      ShortLongAt(a, b, s, m, m', i);
      if i >= 2 * m {
        HeldAt(now, prev + 2 * m, p[m' + m..m' + m + (m' - m)], i - 2 * m);
      } else {
        assert now[prev + i] == lapped[prev + i];
      }
    }
    OverlapIs(a, b, s, m, m', now[prev..prev + (m + m')]);
  }

  lemma HoldsPart(ring: seq<real>, at: nat, n: nat)
    requires at + n <= |ring|
    ensures HoldsAt(ring, at, ring[at..at + n])
  {
  }

  /** The four cases of the overlap section, against plain overlap-add. */
  method OverlapInto(st: Setup, lw: bool, w: bool, pcm: array<real>, prev: nat, p: seq<real>, ghost a: seq<real>,
                     ghost b: seq<real>)
    requires st.Valid() && prev + st.N(true) <= pcm.Length && |p| == 2 * st.N(w)
    requires st.N(lw) <= st.N(true) && st.M(lw) + st.M(w) <= st.N(true)
    requires a == pcm[..][prev..prev + st.N(lw)] && b == p[..st.N(w)]
    modifies pcm
    ensures HoldsAt(pcm[..], prev, Overlap(a, b, st.Slope(lw, w)))
    ensures Elsewhere(old(pcm[..]), pcm[..], prev, st.N(true))
  {
    hide Lap, Overlap, Setup.N, Setup.M, Setup.Valid, HoldsAt;
    st.Bounds(w);
    st.Bounds(lw);
    if lw == w {
      OverlapSame(pcm, prev, p, if w then st.longSlope else st.shortSlope, a, b);
    } else if lw {
      OverlapLongShort(pcm, prev, p, st.shortSlope, st.M(true), st.M(false), a, b);
    } else {
      OverlapShortLong(pcm, prev, p, st.shortSlope, st.M(false), st.M(true), a, b);
    }
  }

  // ---------------------------------------------------------------------------------------------
  // Counting
  // ---------------------------------------------------------------------------------------------

  /** What the decoder knows about its place in the stream; -1 is "nothing". */
  datatype Clock = Clock(granulepos: int, sampleCount: int)

  /** Samples cut from the front and from the back of what a block makes available. */
  datatype Trim = Trim(front: nat, back: nat)

  /** Output samples as full-rate samples, and back. */
  function Up(n: nat, hs: nat): nat
  {
    if hs == 0 then n else 2 * n
  }

  function Down(n: nat, hs: nat): nat
  {
    if hs == 0 then n else n / 2
  }

  /** `extra` full-rate samples, but no more than the `avail` samples there are. */
  function AtMost(extra: nat, avail: nat, hs: nat): (n: nat)
    ensures n <= avail
  {
    if extra > Up(avail, hs) then avail else Down(extra, hs)
  }

  /** Account for one block: `step` samples from the centre before to this one, `avail` of them new. */
  function Tick(c: Clock, step: nat, gran: int, eos: bool, avail: nat, hs: nat): (r: (Clock, Trim))
    ensures r.1.front + r.1.back <= avail
  {
    var count := if c.sampleCount == -1 then 0 else c.sampleCount + step;
    if c.granulepos == -1 then
      if gran == -1 then (Clock(-1, count), Trim(0, 0))
      else if count <= gran then (Clock(gran, count), Trim(0, 0))
      else if eos then (Clock(gran, count), Trim(0, AtMost(count - gran, avail, hs)))
      else (Clock(gran, count), Trim(AtMost(count - gran, avail, hs), 0))
    else
      var now := c.granulepos + step;
      if gran == -1 then (Clock(now, count), Trim(0, 0))
      else if now > gran && eos then (Clock(gran, count), Trim(0, AtMost(now - gran, avail, hs)))
      else (Clock(gran, count), Trim(0, 0))
  }

  /** A gap in the packet numbers loses count. */
  function Synced(c: Clock, last: int, next: int): Clock
  {
    if last == -1 || last + 1 != next then Clock(-1, -1) else c
  }

  /** `cut` output samples are as much of an excess of `extra` as there is among `avail`. */
  predicate Cuts(cut: nat, extra: int, avail: nat, hs: nat)
  {
    cut <= avail && (extra <= 0 ==> cut == 0) && (extra > 0 ==> Up(cut, hs) <= extra)
    && (extra > 0 ==> cut == avail || extra < Up(cut + 1, hs))
  }

  /** A mark always sets the position, and without one the position counts on once it is known. Samples are cut only
      where a mark lies before the position that the blocks had counted up to: from the end in the last block, from the
      front where no position was known before, and otherwise not at all. */
  lemma MarkRules(c: Clock, step: nat, gran: int, eos: bool, avail: nat, hs: nat)
    requires c.granulepos >= -1 && c.sampleCount >= -1 && gran >= -1 && hs <= 1
    ensures var r, known := Tick(c, step, gran, eos, avail, hs), c.granulepos != -1;
      var count := if c.sampleCount == -1 then 0 else c.sampleCount + step;
      var extra := if gran == -1 then 0 else (if known then c.granulepos + step else count) - gran;
      && r.0.sampleCount == count
      && r.0.granulepos == (if gran != -1 then gran else if known then c.granulepos + step else -1)
      && Cuts(r.1.back, if eos then extra else 0, avail, hs)
      && Cuts(r.1.front, if eos || known then 0 else extra, avail, hs)
  {
  }

  /** A stream that starts before place 0: at its first mark what lies before that place is dropped, as far as it is
      in this block. */
  lemma FirstMark(center: nat, step: nat, gran: nat, avail: nat, hs: nat)
    requires step <= center && gran < center && avail == Down(step, hs) && hs <= 1
    requires hs == 1 ==> step % 2 == 0 && center % 2 == 0
    ensures var r := Tick(Clock(-1, center - step), step, gran, false, avail, hs);
      && r.0 == Clock(gran, center) && r.1.back == 0
      && var left := if gran <= center - step then 0 else gran - (center - step);
         avail - r.1.front == if hs == 0 then left else (left + 1) / 2
  {
  }

  /** After a gap in the packet numbers, or at the start, the block itself is neither counted nor cut, and the position
      is what it is marked with; without a gap nothing is forgotten. */
  lemma GapForgets(c: Clock, last: int, next: int, step: nat, gran: int, eos: bool, avail: nat, hs: nat)
    requires gran >= -1 && hs <= 1
    ensures last == -1 || next != last + 1 ==>
      Tick(Synced(c, last, next), step, gran, eos, avail, hs) == (Clock(gran, 0), Trim(0, 0))
    ensures last != -1 && next == last + 1 ==> Synced(c, last, next) == c
  {
  }

  // ---------------------------------------------------------------------------------------------
  // The decoder
  // ---------------------------------------------------------------------------------------------

  /** How the ring got where it is. */
  datatype Stage = Restarted | First | Joined | Lapped

  /** What is known of the ring. The newest second half starts at `N(true) - centerW`; the unread
      samples lie between the two cursors, in the other half. */
  ghost predicate Good(st: Setup, ring: seq<real>, stage: Stage, lw: bool, w: bool, centerW: nat, returned: int,
                       current: int,
                       tail: seq<real>)
  {
    match stage
    case Restarted =>
      Frame(st, ring, centerW) && centerW == st.N(true) && returned == -1
    case First =>
      Frame(st, ring, centerW) && Newest(st, ring, w, centerW, tail) && centerW == 0
      && returned == current == st.N(true)
    case Joined =>
      Frame(st, ring, centerW) && Newest(st, ring, w, centerW, tail)
      && centerW <= returned <= current <= centerW + (st.M(lw) + st.M(w))
    case Lapped =>
      Frame(st, ring, centerW) && Newest(st, ring, w, centerW, tail) && centerW == 0
      && 0 <= returned <= current <= |ring|
  }

  ghost predicate Frame(st: Setup, ring: seq<real>, centerW: nat)
  {
    st.Valid() && |ring| == st.sz.long && (centerW == 0 || centerW == st.N(true))
  }

  ghost predicate Newest(st: Setup, ring: seq<real>, w: bool, centerW: nat, tail: seq<real>)
  {
    HoldsAt(ring, st.N(true) - centerW, tail) && |tail| == st.N(w)
  }

  /** Finished samples the caller has not taken yet. */
  ghost function Pending(ring: seq<real>, returned: int, current: int): seq<real>
  {
    if 0 <= returned <= current <= |ring| then ring[returned..current] else []
  }

  /** The ring after taking in a block: joined to what lay at `prev`, its second half left at `at`. */
  ghost predicate Mixed(st: Setup, lw: bool, w: bool, p: seq<real>, at: nat, prev: nat, before: seq<real>,
                        after: seq<real>)
    requires |p| == 2 * st.N(w) && prev + st.N(lw) <= |before|
  {
    && |after| == |before| && HoldsAt(after, at, p[st.N(w)..])
    && HoldsAt(after, prev, Overlap(before[prev..prev + st.N(lw)], p[..st.N(w)], st.Slope(lw, w)))
  }

  lemma CursorsOrdered(st: Setup, ring: seq<real>, stage: Stage, lw: bool, w: bool, centerW: nat, returned: int,
                       current: int,
                       tail: seq<real>)
    requires Good(st, ring, stage, lw, w, centerW, returned, current, tail) && stage != Restarted
    ensures 0 <= returned <= current <= |ring| && |Pending(ring, returned, current)| == current - returned
  {
    hide Setup.N, Setup.M, Setup.Valid, HoldsAt;
    st.Bounds(lw);
    st.Bounds(w);
  }

  /** The guard of `Blockin` refuses exactly while samples are pending. */
  lemma NonePending(st: Setup, ring: seq<real>, stage: Stage, lw: bool, w: bool, centerW: nat, returned: int,
                    current: int,
                    tail: seq<real>)
    requires Good(st, ring, stage, lw, w, centerW, returned, current, tail)
    ensures Pending(ring, returned, current) == [] <==> !(current > returned && returned != -1)
    ensures stage == Restarted <==> returned == -1
  {
    hide Setup.N, Setup.M, Setup.Valid, HoldsAt;
    if stage != Restarted {
      CursorsOrdered(st, ring, stage, lw, w, centerW, returned, current, tail);
    }
  }

  lemma RoomToMix(st: Setup, ring: seq<real>, stage: Stage, lw: bool, w: bool, centerW: nat, returned: int,
                  current: int,
                  tail: seq<real>, next: bool)
    requires Good(st, ring, stage, lw, w, centerW, returned, current, tail)
    ensures st.Valid() && 2 * st.N(true) <= |ring| && st.N(w) <= st.N(true) && st.N(next) <= st.N(true)
    ensures st.N(true) > 0 && (centerW == 0 || centerW == st.N(true)) && (stage == Restarted <==> returned == -1)
  {
    hide Setup.N, Setup.M, Setup.Valid, HoldsAt;
    st.Bounds(w);
    st.Bounds(next);
  }

  /** Which stage, and which cursors, taking in a block leads to. */
  function NextStage(stage: Stage): Stage
  {
    if stage == Restarted then First else Joined
  }

  lemma JoinGood(st: Setup, ring: seq<real>, stage: Stage, lw: bool, w: bool, centerW: nat, returned: int, current: int,
                 tail: seq<real>, vb: Packet, after: seq<real>, returned': int, current': int)
    requires Good(st, ring, stage, lw, w, centerW, returned, current, tail) && |vb.pcm| == 2 * st.N(vb.W)
    requires 2 * st.N(true) <= |ring| && st.N(w) <= st.N(true) && centerW <= st.N(true)
    requires Mixed(st, w, vb.W, vb.pcm, centerW, st.N(true) - centerW, ring, after)
    requires if returned == -1 then returned' == current' == centerW
             else returned' == st.N(true) - centerW && current' == returned' + (st.M(w) + st.M(vb.W))
    ensures Good(st, after, NextStage(stage), w, vb.W, st.N(true) - centerW, returned', current', vb.pcm[st.N(vb.W)..])
    ensures Pending(after, returned', current')
         == if stage == Restarted then [] else Overlap(tail, vb.pcm[..st.N(vb.W)], st.Slope(w, vb.W))
  {
    hide Setup.N, Setup.M, Setup.Valid, Overlap, Setup.Slope, HoldsAt, Pending, Good, Frame, Newest;
    GoodParts(st, ring, stage, lw, w, centerW, returned, current, tail);
    st.Bounds(w);
    st.Bounds(vb.W);
    var prev, b := st.N(true) - centerW, vb.pcm[..st.N(vb.W)];
    MixedNewest(st, w, vb.W, vb.pcm, centerW, prev, ring, after);
    if stage == Restarted {
      PendingPart(after, returned', []);
    } else {
      PartIs(ring, prev, tail);
      PendingPart(after, prev, Overlap(tail, b, st.Slope(w, vb.W)));
    }
    GoodNext(st, after, NextStage(stage), w, vb.W, prev, returned', current', vb.pcm[st.N(vb.W)..]);
  }

  /** What every stage says of the ring and of its newest second half. */
  lemma GoodParts(st: Setup, ring: seq<real>, stage: Stage, lw: bool, w: bool, centerW: nat, returned: int,
                  current: int,
                  tail: seq<real>)
    requires Good(st, ring, stage, lw, w, centerW, returned, current, tail)
    ensures Frame(st, ring, centerW) && st.Valid() && (stage == Restarted <==> returned == -1)
    ensures stage == Restarted ==> centerW == st.N(true)
    ensures stage != Restarted ==>
      Newest(st, ring, w, centerW, tail) && HoldsAt(ring, st.N(true) - centerW, tail) && |tail| == st.N(w)
  {
    hide Setup.N, Setup.M, Setup.Valid, HoldsAt;
  }

  lemma MixedNewest(st: Setup, lw: bool, w: bool, p: seq<real>, at: nat, prev: nat, before: seq<real>, after: seq<real>)
    requires |p| == 2 * st.N(w) && prev + st.N(lw) <= |before| && Mixed(st, lw, w, p, at, prev, before, after)
    requires Frame(st, before, at) && at + prev == st.N(true)
    ensures Frame(st, after, prev) && Newest(st, after, w, prev, p[st.N(w)..]) && at <= |after|
    ensures HoldsAt(after, prev, Overlap(before[prev..prev + st.N(lw)], p[..st.N(w)], st.Slope(lw, w)))
  {
    hide Setup.N, Setup.Valid, Overlap, Setup.Slope;
  }

  lemma GoodNext(st: Setup, ring: seq<real>, stage: Stage, lw: bool, w: bool, centerW: nat, returned: int, current: int,
                 tail: seq<real>)
    requires (stage == First || stage == Joined) && Frame(st, ring, centerW) && Newest(st, ring, w, centerW, tail)
    requires stage == First ==> centerW == 0 && returned == current == st.N(true)
    requires stage == Joined ==> centerW <= returned <= current <= centerW + (st.M(lw) + st.M(w))
    ensures Good(st, ring, stage, lw, w, centerW, returned, current, tail)
  {
    hide Setup.N, Setup.M, Setup.Valid, HoldsAt;
  }

  lemma PartIs(x: seq<real>, at: nat, part: seq<real>)
    requires HoldsAt(x, at, part)
    ensures at + |part| <= |x| && x[at..at + |part|] == part
  {
  }

  lemma PendingPart(x: seq<real>, at: nat, part: seq<real>)
    requires at <= |x| && (part == [] || HoldsAt(x, at, part))
    ensures Pending(x, at, at + |part|) == part
  {
  }

  lemma TrimGood(st: Setup, ring: seq<real>, stage: Stage, lw: bool, w: bool, centerW: nat, returned: int, current: int,
                 tail: seq<real>, front: nat, back: nat)
    requires Good(st, ring, stage, lw, w, centerW, returned, current, tail) && stage != Restarted
    requires front + back <= current - returned
    ensures Good(st, ring, stage, lw, w, centerW, returned + front, current - back, tail)
    ensures var full := Pending(ring, returned, current);
      |full| == current - returned && Pending(ring, returned + front, current - back) == full[front..|full| - back]
  {
    hide Setup.N, Setup.M, Setup.Valid, HoldsAt;
    CursorsOrdered(st, ring, stage, lw, w, centerW, returned, current, tail);
    Inner(ring, returned, current, front, back);
  }

  lemma Inner(x: seq<real>, i: nat, j: nat, front: nat, back: nat)
    requires i <= j <= |x| && front + back <= j - i
    ensures x[i + front..j - back] == x[i..j][front..j - i - back]
  {
    var a, b := x[i + front..j - back], x[i..j][front..j - i - back];
    forall k | 0 <= k < |a|
      ensures a[k] == b[k]
    {
      assert x[i..j][front + k] == x[i + front + k];
    }
    assert a == b;
  }

  lemma MixGood(st: Setup, lw: bool, w: bool, p: seq<real>, at: nat, prev: nat, before: seq<real>, joined: seq<real>,
                after: seq<real>)
    requires st.Valid() && |p| == 2 * st.N(w) && 2 * st.N(true) <= |before| == |joined| == |after|
    requires at + prev == st.N(true) && (at == 0 || prev == 0)
    requires st.N(w) <= st.N(true) && st.N(lw) <= st.N(true) && st.M(lw) + st.M(w) <= st.N(true)
    requires HoldsAt(joined, prev, Overlap(before[prev..prev + st.N(lw)], p[..st.N(w)], st.Slope(lw, w)))
    requires HoldsAt(after, at, p[st.N(w)..])
    requires Elsewhere(joined, after, at, st.N(w))
    ensures Mixed(st, lw, w, p, at, prev, before, after)
  {
    hide Overlap, Setup.N, Setup.M, Setup.Valid, Setup.Slope, HoldsAt;
    st.Bounds(lw);
    st.Bounds(w);
    var part := Overlap(before[prev..prev + st.N(lw)], p[..st.N(w)], st.Slope(lw, w));
    assert |part| == st.M(lw) + st.M(w);
    HoldsStill(joined, after, prev, part);
  }

  // Unfragmenting the ring for `lapout`

  function SwappedHalves(x: seq<real>, n: nat): seq<real>
    requires 2 * n <= |x|
  {
    x[n..2 * n] + x[..n] + x[2 * n..]
  }

  /** The first `m` samples copied up by `d`. */
  function MovedUp(x: seq<real>, m: nat, d: nat): seq<real>
    requires d + m <= |x|
  {
    x[..d] + x[..m] + x[d + m..]
  }

  method SwapHalves(pcm: array<real>, n: nat)
    requires 2 * n <= pcm.Length
    modifies pcm
    ensures pcm[..] == SwappedHalves(old(pcm[..]), n)
  {
    var i := 0;
    while i < n
      invariant 0 <= i <= n
      invariant forall k :: 0 <= k < i ==> pcm[k] == old(pcm[n + k]) && pcm[n + k] == old(pcm[k])
      invariant forall k :: 0 <= k < pcm.Length && !(k < i || n <= k < n + i) ==> pcm[k] == old(pcm[k])
    {
      pcm[i], pcm[n + i] := pcm[n + i], pcm[i];
      i := i + 1;
    }
    SwappedIs(old(pcm[..]), pcm[..], n);
  }

  lemma SwappedIs(x: seq<real>, y: seq<real>, n: nat)
    requires 2 * n <= |x| == |y| && forall k :: 0 <= k < n ==> y[k] == x[n + k]
    requires forall k :: n <= k < 2 * n ==> y[k] == x[k - n]
    requires forall k :: 2 * n <= k < |x| ==> y[k] == x[k]
    ensures y == SwappedHalves(x, n)
  {
  }

  method MoveUp(pcm: array<real>, m: nat, d: nat)
    requires d + m <= pcm.Length
    modifies pcm
    ensures pcm[..] == MovedUp(old(pcm[..]), m, d)
  {
    hide MovedUp;
    var i := m;
    while i > 0
      invariant 0 <= i <= m
      invariant forall k :: d + i <= k < d + m ==> pcm[k] == old(pcm[k - d])
      invariant forall k :: 0 <= k < pcm.Length && !(d + i <= k < d + m) ==> pcm[k] == old(pcm[k])
    {
      i := i - 1;
      pcm[d + i] := pcm[i];
    }
    IsMovedUp(old(pcm[..]), pcm[..], m, d);
  }

  lemma IsMovedUp(was: seq<real>, now: seq<real>, m: nat, d: nat)
    requires |now| == |was| && d + m <= |was|
    requires forall k :: d <= k < d + m ==> now[k] == was[k - d]
    requires forall k :: 0 <= k < |was| && !(d <= k < d + m) ==> now[k] == was[k]
    ensures now == MovedUp(was, m, d)
  {
  }

  /** The unread samples, whatever was trimmed behind them, and the newest second half, in a row. */
  ghost predicate Unfragmented(samples: seq<real>, unread: seq<real>, back: int, tail: seq<real>)
  {
    && back >= 0 && |samples| == |unread| + back + |tail|
    && samples[..|unread|] == unread && samples[|unread| + back..] == tail
  }

  /** By how much `lapout` closes the gap between the finished samples and the newest second half. */
  function Gap(st: Setup, lw: bool, w: bool): int
  {
    st.N(true) - (st.M(lw) + st.M(w))
  }

  lemma SwapGood(st: Setup, ring: seq<real>, lw: bool, w: bool, returned: int, current: int, tail: seq<real>)
    requires Good(st, ring, Joined, lw, w, st.N(true), returned, current, tail) && 2 * st.N(true) <= |ring|
    requires st.N(w) <= st.N(true) && st.M(lw) + st.M(w) <= st.N(true)
    ensures var n1 := st.N(true); var swapped := SwappedHalves(ring, n1);
      && Good(st, swapped, Joined, lw, w, 0, returned - n1, current - n1, tail)
      && Pending(swapped, returned - n1, current - n1) == Pending(ring, returned, current)
  {
    hide Setup.N, Setup.M, Setup.Valid, Good, Frame, SwappedHalves, Pending, HoldsAt;
    var n1 := st.N(true);
    JoinedRange(st, ring, lw, w, n1, returned, current, tail);
    SwappedParts(ring, n1, returned, current, tail);
    FrameSwapped(st, ring, SwappedHalves(ring, n1));
    GoodNext(st, SwappedHalves(ring, n1), Joined, lw, w, 0, returned - n1, current - n1, tail);
  }

  lemma JoinedRange(st: Setup, ring: seq<real>, lw: bool, w: bool, centerW: nat, returned: int, current: int,
                    tail: seq<real>)
    requires Good(st, ring, Joined, lw, w, centerW, returned, current, tail)
    ensures centerW <= returned <= current <= centerW + (st.M(lw) + st.M(w)) && Frame(st, ring, centerW)
    ensures HoldsAt(ring, st.N(true) - centerW, tail) && |tail| == st.N(w)
  {
    hide Setup.N, Setup.M, Setup.Valid, HoldsAt;
  }

  lemma SwappedParts(ring: seq<real>, n: nat, returned: nat, current: nat, tail: seq<real>)
    requires n <= returned <= current <= 2 * n <= |ring| && HoldsAt(ring, 0, tail) && |tail| <= n
    ensures |SwappedHalves(ring, n)| == |ring| && HoldsAt(SwappedHalves(ring, n), n, tail)
    ensures Pending(SwappedHalves(ring, n), returned - n, current - n) == Pending(ring, returned, current)
  {
    var swapped := SwappedHalves(ring, n);
    assert swapped[n..n + |tail|] == ring[..|tail|];
    assert swapped[returned - n..current - n] == ring[returned..current];
  }

  lemma FrameSwapped(st: Setup, ring: seq<real>, swapped: seq<real>)
    requires Frame(st, ring, st.N(true)) && |swapped| == |ring|
    ensures Frame(st, swapped, 0)
  {
    hide Setup.N, Setup.Valid;
  }

  lemma MoveGood(st: Setup, ring: seq<real>, stage: Stage, lw: bool, w: bool, returned: int, current: int,
                 tail: seq<real>)
    requires Good(st, ring, stage, lw, w, 0, returned, current, tail) && (stage == First || stage == Joined)
    requires 2 * st.N(true) <= |ring| && |tail| <= st.N(true) && st.M(lw) + st.M(w) <= st.N(true)
    ensures var n1, d := st.N(true), Gap(st, lw, w); var moved := MovedUp(ring, st.M(lw) + st.M(w), d);
      && 0 <= returned <= current && Good(st, moved, Lapped, lw, w, 0, returned + d, current + d, tail)
      && Pending(moved, returned + d, current + d) == Pending(ring, returned, current)
      && var samples := Pending(moved, returned + d, n1 + |tail|);
      && (stage == Joined ==>
            Unfragmented(samples, Pending(ring, returned, current), st.M(lw) + st.M(w) - current, tail))
      && (stage == First ==> samples == if d <= |tail| then tail[d..] else [])
  {
    hide Setup.N, Setup.M, Setup.Valid, Unfragmented, Pending;
    var n1, d, m := st.N(true), Gap(st, lw, w), st.M(lw) + st.M(w);
    MovedTail(ring, m, d, n1, tail);
    if stage == Joined {
      MovedJoined(ring, m, d, returned, current, tail);
    } else {
      MovedFirst(ring, m, d, n1, tail);
    }
  }

  lemma GapIs(st: Setup, lw: bool, w: bool)
    ensures Gap(st, lw, w) == st.N(true) - (st.M(lw) + st.M(w))
  {
  }

  /** What `Lapout` exposes: `whole` is what it would have found in one piece before. */
  ghost predicate Laps(stage: Stage, unread: seq<real>, back: int, whole: seq<real>, gap: int, tail: seq<real>,
                       samples: seq<real>)
  {
    && gap >= 0
    && (stage == Joined ==> Unfragmented(samples, unread, back, tail))
    && (stage == First ==> samples == if gap <= |tail| then tail[gap..] else [])
    && (stage == Lapped ==> samples == Dropped(whole, |tail|, gap))
  }

  lemma LapsSame(stage: Stage, unread: seq<real>, back: int, whole: seq<real>, whole': seq<real>, gap: int,
                 tail: seq<real>, samples: seq<real>)
    requires Laps(stage, unread, back, whole, gap, tail, samples) && (stage == Lapped ==> whole' == whole)
    ensures Laps(stage, unread, back, whole', gap, tail, samples)
    ensures stage == First ==> gap >= 0 && samples == if gap <= |tail| then tail[gap..] else []
  {
    hide Dropped, Unfragmented;
  }

  /** The same from any stage; a ring moved up before comes through whole only where the gap is nothing. */
  lemma MoveAny(st: Setup, ring: seq<real>, stage: Stage, lw: bool, w: bool, returned: int, current: int,
                tail: seq<real>)
    requires Good(st, ring, stage, lw, w, 0, returned, current, tail) && stage != Restarted
    requires 2 * st.N(true) <= |ring| && |tail| <= st.N(true) && st.M(lw) + st.M(w) <= st.N(true)
    ensures var n1, d := st.N(true), Gap(st, lw, w); var moved := MovedUp(ring, st.M(lw) + st.M(w), d);
      && 0 <= returned
      && ((Good(st, moved, Lapped, lw, w, 0, returned + d, current + d, tail)
           && Pending(moved, returned + d, current + d) == Pending(ring, returned, current))
          || (stage == Lapped && d != 0))
      && Laps(stage, Pending(ring, returned, current), st.M(lw) + st.M(w) - current,
              Pending(ring, returned, n1 + |tail|), d, tail,
              Pending(moved, returned + d, n1 + |tail|))
  {
    hide Setup.N, Setup.M, Setup.Valid, Unfragmented, Pending, Dropped, Good, Gap;
    GapIs(st, lw, w);
    GoodParts(st, ring, stage, lw, w, 0, returned, current, tail);
    CursorsOrdered(st, ring, stage, lw, w, 0, returned, current, tail);
    if stage == Lapped {
      MovedAgain(ring, st.M(lw) + st.M(w), Gap(st, lw, w), st.N(true), tail, returned);
      if Gap(st, lw, w) == 0 {
        MovedNowhere(ring, st.N(true));
      }
    } else {
      MoveGood(st, ring, stage, lw, w, returned, current, tail);
    }
  }

  lemma WhereIsCenter(st: Setup, ring: seq<real>, stage: Stage, lw: bool, w: bool, centerW: nat, returned: int,
                      current: int,
                      tail: seq<real>)
    requires Good(st, ring, stage, lw, w, centerW, returned, current, tail)
    ensures centerW == 0 || (centerW == st.N(true) && stage != First && stage != Lapped)
    ensures stage == First ==> returned == current == st.N(true)
  {
    hide Setup.N, Setup.M, Setup.Valid, HoldsAt;
  }

  lemma PendingIs(ring: seq<real>, from: nat, to: nat)
    requires to <= |ring|
    ensures Pending(ring, from, to) == if from <= to then ring[from..to] else []
  {
  }

  lemma MovedNowhere(x: seq<real>, m: nat)
    requires m <= |x|
    ensures MovedUp(x, m, 0) == x
  {
  }

  lemma MovedTail(ring: seq<real>, m: nat, d: nat, n1: nat, tail: seq<real>)
    requires d + m == n1 <= |ring| && HoldsAt(ring, n1, tail)
    ensures HoldsAt(MovedUp(ring, m, d), n1, tail)
  {
    assert MovedUp(ring, m, d)[n1..] == ring[n1..];
    Kept(ring, MovedUp(ring, m, d), n1, n1 + |tail|);
  }

  lemma MovedJoined(ring: seq<real>, m: nat, d: nat, returned: nat, current: nat, tail: seq<real>)
    requires returned <= current <= m && d + m <= |ring| && HoldsAt(MovedUp(ring, m, d), d + m, tail)
    ensures Unfragmented(Pending(MovedUp(ring, m, d), returned + d, d + m + |tail|),
                         Pending(ring, returned, current), m - current, tail)
    ensures Pending(MovedUp(ring, m, d), returned + d, current + d) == Pending(ring, returned, current)
  {
    var moved := MovedUp(ring, m, d);
    var samples := moved[returned + d..d + m + |tail|];
    assert moved[d..d + m] == ring[..m];
    forall k | 0 <= k < current - returned
      ensures samples[k] == ring[returned + k]
    {
      assert moved[d..d + m][returned + k] == ring[returned + k];
    }
    assert samples[..current - returned] == ring[returned..current];
    assert samples[m - returned..] == moved[d + m..d + m + |tail|];
    assert moved[returned + d..current + d] == samples[..current - returned];
  }

  lemma MovedFirst(ring: seq<real>, m: nat, d: nat, n1: nat, tail: seq<real>)
    requires d + m == n1 <= |ring| && HoldsAt(MovedUp(ring, m, d), n1, tail)
    ensures Pending(MovedUp(ring, m, d), n1 + d, n1 + |tail|) == if d <= |tail| then tail[d..] else []
    ensures Pending(MovedUp(ring, m, d), n1 + d, n1 + d) == [] == Pending(ring, n1, n1)
  {
    if d <= |tail| {
      var moved := MovedUp(ring, m, d);
      assert moved[n1 + d..n1 + |tail|] == moved[n1..n1 + |tail|][d..];
    }
  }

  /** `whole` ends in a second half of `t` samples: without the `gap` samples just before that half, or, where
      there are fewer before it, without the first `gap` samples. */
  function Dropped(whole: seq<real>, t: nat, gap: nat): seq<real>
  {
    var lead := |whole| - t;
    if gap <= lead then whole[..lead - gap] + whole[lead..] else if gap <= |whole| then whole[gap..] else []
  }

  /** Moving the samples up a second time drops the `d` samples before the newest second half. */
  lemma MovedAgain(ring: seq<real>, m: nat, d: nat, n1: nat, tail: seq<real>, returned: nat)
    requires d + m == n1 && HoldsAt(ring, n1, tail)
    ensures HoldsAt(MovedUp(ring, m, d), n1, tail)
    ensures Pending(MovedUp(ring, m, d), returned + d, n1 + |tail|)
         == Dropped(Pending(ring, returned, n1 + |tail|), |tail|, d)
  {
    hide MovedUp, Pending, Dropped;
    var to := n1 + |tail|;
    MovedTail(ring, m, d, n1, tail);
    MovedIs(ring, m, d);
    PendingIs(ring, returned, to);
    PendingIs(MovedUp(ring, m, d), returned + d, to);
    if returned + d <= n1 {
      Shifted(ring, MovedUp(ring, m, d), returned, n1 - d, d);
      Kept(ring, MovedUp(ring, m, d), n1, to);
      DropNear(ring, MovedUp(ring, m, d), d, n1, to, returned);
    } else if returned <= to {
      DropFar(ring[returned..to], |tail|, d);
      if returned + d <= to {
        Kept(ring, MovedUp(ring, m, d), returned + d, to);
        Within(ring, returned, returned + d, to);
      }
    } else {
      DropNothing(|tail|, d);
    }
  }

  lemma MovedIs(x: seq<real>, m: nat, d: nat)
    requires d + m <= |x|
    ensures |MovedUp(x, m, d)| == |x|
    ensures forall k :: d <= k < d + m ==> MovedUp(x, m, d)[k] == x[k - d]
    ensures forall k :: d + m <= k < |x| ==> MovedUp(x, m, d)[k] == x[k]
  {
  }

  lemma DropNothing(t: nat, d: nat)
    ensures Dropped([], t, d) == []
  {
  }

  lemma DropFar(whole: seq<real>, t: nat, d: nat)
    requires |whole| - t < d
    ensures Dropped(whole, t, d) == if d <= |whole| then whole[d..] else []
  {
  }

  lemma DropNear(x: seq<real>, y: seq<real>, d: nat, n1: nat, to: nat, returned: nat)
    requires d <= n1 <= to <= |x| == |y| && returned + d <= n1
    requires y[returned + d..n1] == x[returned..n1 - d] && y[n1..to] == x[n1..to]
    ensures Dropped(x[returned..to], to - n1, d) == y[returned + d..to]
  {
    hide Dropped;
    Within(y, returned + d, n1, to);
    Within(x, returned, n1, to);
    Within(x, returned, n1 - d, n1);
    DropBetween(x[returned..n1 - d], x[n1 - d..n1], x[n1..to]);
  }

  lemma DropBetween(a: seq<real>, b: seq<real>, c: seq<real>)
    ensures Dropped(a + b + c, |c|, |b|) == a + c
  {
    assert (a + b + c)[..|a|] == a && (a + b + c)[|a| + |b|..] == c;
  }

  lemma Shifted(x: seq<real>, y: seq<real>, i: nat, j: nat, d: nat)
    requires i <= j && j + d <= |y| && j <= |x| && forall k :: i + d <= k < j + d ==> y[k] == x[k - d]
    ensures y[i + d..j + d] == x[i..j]
  {
  }

  lemma Within(x: seq<real>, i: nat, j: nat, k: nat)
    requires i <= j <= k <= |x|
    ensures x[i..k][j - i..] == x[j..k] && x[i..k] == x[i..j] + x[j..k]
  {
  }

  /** After one block, the second half comes out whole only where there is no gap to close. */
  lemma FirstWhole(st: Setup, lw: bool, w: bool, tail: seq<real>)
    requires st.Valid() && |tail| == st.N(w)
    ensures var gap := Gap(st, lw, w);
      && 0 <= gap && 0 < |tail| <= st.N(true) && 2 * st.N(true) <= st.sz.long && st.M(lw) + st.M(w) <= st.N(true)
      && ((if gap <= |tail| then tail[gap..] else []) == tail <==> (lw && w) || st.N(false) == st.N(true))
  {
    hide Setup.N, Setup.M, Setup.Valid;
    st.Bounds(lw);
    st.Bounds(w);
  }

  /** What packet `p` makes available before it is trimmed. */
  ghost function Full(st: Setup, stage: Stage, tail: seq<real>, w: bool, p: Packet): seq<real>
    requires |p.pcm| == 2 * st.N(p.W)
  {
    if stage == Restarted then [] else Overlap(tail, p.pcm[..st.N(p.W)], st.Slope(w, p.W))
  }

  /** The clock after packet `p`, and what is left of `full`. */
  ghost predicate Ticked(st: Setup, w: bool, c: Clock, sequence: int, p: Packet, full: seq<real>, after: Clock,
                         got: seq<real>)
  {
    var r := Tick(Synced(c, sequence, p.sequence), st.sz.Step(w, p.W), p.granulepos, p.eos, |full|, st.hs);
    after == r.0 && got == full[r.1.front..|full| - r.1.back]
  }

  /** What packet `p` makes available, and the clock after it. */
  ghost predicate Released(st: Setup, stage: Stage, tail: seq<real>, w: bool, c: Clock, sequence: int, p: Packet,
                           after: Clock, got: seq<real>)
    requires |p.pcm| == 2 * st.N(p.W)
  {
    Ticked(st, w, c, sequence, p, Full(st, stage, tail, w, p), after, got)
  }

  class VorbisSynthesis {
    const st: Setup
    const pcm: array<real>
    var lW: bool
    var W: bool
    var centerW: nat
    var pcmCurrent: int
    var pcmReturned: int
    var granulepos: int
    var sequence: int
    var sampleCount: int
    var eofflag: bool

    ghost var stage: Stage
    ghost var ring: seq<real>
    ghost var tail: seq<real>      // the second half of the newest block

    ghost predicate Valid()
      reads this, pcm
    {
      ring == pcm[..] && Good(st, ring, stage, lW, W, centerW, pcmReturned, pcmCurrent, tail)
    }

    ghost function Unread(): seq<real>
      reads this
    {
      Pending(ring, pcmReturned, pcmCurrent)
    }

    ghost function Now(): Clock
      reads this
    {
      Clock(granulepos, sampleCount)
    }

    constructor (setup: Setup)
      requires setup.Valid()
      ensures Valid() && st == setup && stage == Restarted && sequence == -1 && Now() == Clock(-1, -1) && fresh(pcm)
    {
      setup.Bounds(true);
      st := setup;
      pcm := new real[setup.sz.long](i => 0.0);
      lW, W, centerW, pcmCurrent, pcmReturned := false, false, setup.N(true), Down(setup.N(true), setup.hs), -1;
      granulepos, sequence, sampleCount, eofflag := -1, -1, -1, false;
      stage, tail := Restarted, [];
      new;
      ring := pcm[..];
    }

    /** Start over, from whatever state. */
    method Restart()
      requires st.Valid() && pcm.Length == st.sz.long
      modifies this
      ensures Valid() && stage == Restarted && sequence == -1 && Now() == Clock(-1, -1)
    {
      hide Setup.N, Setup.Valid;
      centerW := st.N(true);
      pcmCurrent := Down(st.N(true), st.hs);
      pcmReturned, granulepos, sequence, sampleCount, eofflag := -1, -1, -1, -1, false;
      stage, ring := Restarted, pcm[..];
    }

    lemma Waiting()
      requires Valid()
      ensures Unread() == [] <==> !(pcmCurrent > pcmReturned && pcmReturned != -1)
    {
      hide Good, Pending;
      NonePending(st, ring, stage, lW, W, centerW, pcmReturned, pcmCurrent, tail);
    }

    /** Take in a block; refused while samples of the one before are waiting. What it makes available
        is plain overlap-add of the second half before it and its own first half, then trimmed. */
    method Blockin(vb: Packet) returns (ok: bool)
      requires Valid() && |vb.pcm| == 2 * st.N(vb.W)
      modifies this, pcm
      ensures Valid() && ok == (old(Unread()) == [])
      ensures !ok ==>
        Unread() == old(Unread()) && stage == old(stage) && Now() == old(Now()) && sequence == old(sequence)
      ensures ok ==> lW == old(W) && W == vb.W && sequence == vb.sequence && tail == vb.pcm[st.N(W)..]
      ensures ok ==> stage == if old(stage) == Restarted then First else Joined
      ensures ok ==>
        Released(st, old(stage), old(tail), old(W), old(Now()), old(sequence), vb, Now(), Unread())
    {
      hide Setup.N, Setup.M, Setup.Valid, Setup.Slope, Good, Pending, Tick, Synced, Overlap, Sizes.Step;
      hide VorbisSynthesis.Valid, VorbisSynthesis.Unread, Full, Ticked;
      Waiting();
      if pcmCurrent > pcmReturned && pcmReturned != -1 {
        return false;
      }
      Join(vb);
      Count(vb);
      return true;
    }

    /** The ring half of `Blockin`. */
    method Join(vb: Packet)
      requires Valid() && |vb.pcm| == 2 * st.N(vb.W) && Unread() == []
      modifies `lW, `W, `centerW, `pcmReturned, `pcmCurrent, `stage, `tail, `ring, pcm
      ensures Valid() && lW == old(W) && W == vb.W && tail == vb.pcm[st.N(W)..]
      ensures stage == NextStage(old(stage))
      ensures Unread() == Full(st, old(stage), old(tail), old(W), vb)
    {
      hide Setup.N, Setup.M, Setup.Valid, Setup.Slope, Good, Pending, Overlap, Mixed;
      RoomToMix(st, ring, stage, lW, W, centerW, pcmReturned, pcmCurrent, tail, vb.W);
      var n1 := st.N(true);
      var thisCenter, prevCenter := if centerW != 0 then n1 else 0, if centerW != 0 then 0 else n1;
      Mix(vb, thisCenter, prevCenter);
      var returned, current := thisCenter, thisCenter;
      if pcmReturned != -1 {
        returned := prevCenter;
        current := prevCenter + (st.M(W) + st.M(vb.W));
      }
      JoinGood(st, ring, stage, lW, W, centerW, pcmReturned, pcmCurrent, tail, vb, pcm[..], returned, current);
      Place(vb, returned, current);
    }

    method Place(vb: Packet, returned: int, current: int)
      requires |vb.pcm| == 2 * st.N(vb.W) && centerW <= st.N(true) && st.N(true) > 0
      requires (centerW == 0 || centerW == st.N(true))
      modifies `lW, `W, `centerW, `pcmReturned, `pcmCurrent, `stage, `tail, `ring
      ensures lW == old(W) && W == vb.W && centerW == st.N(true) - old(centerW) && tail == vb.pcm[st.N(W)..]
      ensures pcmReturned == returned && pcmCurrent == current && stage == NextStage(old(stage)) && ring == pcm[..]
    {
      hide Setup.N;
      lW, W := W, vb.W;
      if centerW != 0 {
        centerW := 0;
      } else {
        centerW := st.N(true);
      }
      pcmReturned, pcmCurrent := returned, current;
      stage, tail, ring := NextStage(stage), vb.pcm[st.N(W)..], pcm[..];
    }

    /** The overlap and the copy section: join the new block to what lies at `prevCenter`, and leave
        its second half at `thisCenter`. */
    method Mix(vb: Packet, thisCenter: nat, prevCenter: nat)
      requires st.Valid() && 2 * st.N(true) <= pcm.Length && |vb.pcm| == 2 * st.N(vb.W)
      requires thisCenter + prevCenter == st.N(true) && (thisCenter == 0 || prevCenter == 0)
      requires st.N(W) <= st.N(true) && st.N(vb.W) <= st.N(true)
      modifies pcm
      ensures Mixed(st, W, vb.W, vb.pcm, thisCenter, prevCenter, old(pcm[..]), pcm[..])
    {
      hide Overlap, Setup.N, Setup.M, Setup.Valid, Setup.Slope, HoldsAt, Mixed, Elsewhere;
      st.Bounds(W);
      st.Bounds(vb.W);
      ghost var before := pcm[..];
      var n := st.N(vb.W);
      ghost var a, b := before[prevCenter..prevCenter + st.N(W)], vb.pcm[..n];
      OverlapInto(st, W, vb.W, pcm, prevCenter, vb.pcm, a, b);
      ghost var joined := pcm[..];
      CopyInto(pcm, thisCenter, vb.pcm, n, n);
      assert vb.pcm[n..n + n] == vb.pcm[n..];
      MixGood(st, W, vb.W, vb.pcm, thisCenter, prevCenter, before, joined, pcm[..]);
    }

    /** The counting half of `Blockin`. */
    method Count(vb: Packet)
      requires Valid() && (stage == First || stage == Joined) && vb.W == W
      modifies `sequence, `granulepos, `sampleCount, `pcmReturned, `pcmCurrent, `eofflag
      ensures Valid() && sequence == vb.sequence && eofflag == (old(eofflag) || vb.eos)
      ensures Ticked(st, lW, old(Now()), old(sequence), vb, old(Unread()), Now(), Unread())
    {
      hide Setup.N, Setup.M, Setup.Valid, Good, Sizes.Step, Pending, Tick, Synced;
      CursorsOrdered(st, ring, stage, lW, W, centerW, pcmReturned, pcmCurrent, tail);
      Resync(vb.sequence);
      var front, back := CountGranules(vb);
      TrimGood(st, ring, stage, lW, W, centerW, pcmReturned, pcmCurrent, tail, front, back);
      pcmReturned, pcmCurrent := pcmReturned + front, pcmCurrent - back;
      if vb.eos {
        eofflag := true;
      }
    }

    /** Out of sequence: lose count. */
    method Resync(next: int)
      modifies `sequence, `granulepos, `sampleCount
      ensures sequence == next && Now() == Synced(old(Now()), old(sequence), next)
    {
      if sequence == -1 || sequence + 1 != next {
        granulepos := -1;
        sampleCount := -1;
      }
      sequence := next;
    }

    /** The two counters, and what is cut from either end of the samples available. */
    method CountGranules(vb: Packet) returns (front: nat, back: nat)
      requires 0 <= pcmReturned <= pcmCurrent
      modifies `granulepos, `sampleCount
      ensures (Now(), Trim(front, back))
           == Tick(old(Now()), st.sz.Step(lW, W), vb.granulepos, vb.eos, pcmCurrent - pcmReturned, st.hs)
    {
      hide Sizes.Step, AtMost, Up, Down;
      var step := st.sz.Step(lW, W);
      front, back := 0, 0;
      if sampleCount == -1 {
        sampleCount := 0;
      } else {
        sampleCount := sampleCount + step;
      }
      if granulepos == -1 {
        if vb.granulepos != -1 {
          granulepos := vb.granulepos;
          if sampleCount > granulepos {
            if vb.eos {
              back := CutBack(sampleCount - vb.granulepos);
            } else {
              front := CutFront(sampleCount - vb.granulepos);
            }
          }
        }
      } else {
        granulepos := granulepos + step;
        if vb.granulepos != -1 && granulepos != vb.granulepos {
          if granulepos > vb.granulepos && vb.eos {
            back := CutBack(granulepos - vb.granulepos);
          }
          granulepos := vb.granulepos;
        }
      }
    }

    /** No more is cut off the end than there is. */
    method CutBack(over: nat) returns (back: nat)
      requires 0 <= pcmReturned <= pcmCurrent
      ensures back == AtMost(over, pcmCurrent - pcmReturned, st.hs)
    {
      var extra := over;
      if extra > Up(pcmCurrent - pcmReturned, st.hs) {
        extra := Up(pcmCurrent - pcmReturned, st.hs);
      }
      back := Down(extra, st.hs);
    }

    /** Nor off the front. */
    method CutFront(over: nat) returns (front: nat)
      requires 0 <= pcmReturned <= pcmCurrent
      ensures front == AtMost(over, pcmCurrent - pcmReturned, st.hs)
    {
      front := Down(over, st.hs);
      if pcmReturned + front > pcmCurrent {
        front := pcmCurrent - pcmReturned;
      }
    }

    /** What the caller may take now. */
    method Pcmout() returns (samples: seq<real>)
      requires Valid()
      ensures samples == Unread()
    {
      hide Setup.N, Setup.M, Setup.Valid, HoldsAt;
      CursorsInRange();
      if pcmReturned > -1 && pcmReturned < pcmCurrent {
        return pcm[pcmReturned..pcmCurrent];
      }
      return [];
    }

    /** Take `n` samples, or refuse when there are fewer. Before the first block the cursor, at -1, counts
        as a place: samples that are not there can be taken then, and only then is the state spoilt. */
    method Read(n: nat) returns (ok: bool)
      requires Valid()
      modifies `pcmReturned
      ensures pcmReturned == old(pcmReturned) + (if ok then n else 0) && Now() == old(Now())
      ensures Valid() <==> !(ok && n > 0 && stage == Restarted)
      ensures n == 0 || stage != Restarted ==>
        ok == (n <= |old(Unread())|) && Unread() == if ok then old(Unread())[n..] else old(Unread())
      ensures n > 0 && stage == Restarted ==> ok == (n <= pcmCurrent + 1)
    {
      hide Setup.N, Setup.M, Setup.Valid, Good, Pending;
      CursorsInRange();
      if n != 0 && pcmReturned + n > pcmCurrent {
        return false;
      }
      if n != 0 && stage != Restarted {
        TrimGood(st, ring, stage, lW, W, centerW, pcmReturned, pcmCurrent, tail, n, 0);
      }
      SpoiltByMove(st, ring, stage, lW, W, centerW, pcmReturned + n, pcmCurrent, tail);
      pcmReturned := pcmReturned + n;
      return true;
    }

    lemma SpoiltByMove(st: Setup, ring: seq<real>, stage: Stage, lw: bool, w: bool, centerW: nat, returned: int,
                       current: int,
                       tail: seq<real>)
      ensures stage == Restarted && returned != -1 ==> !Good(st, ring, stage, lw, w, centerW, returned, current, tail)
    {
    }

    lemma CursorsInRange()
      requires Valid()
      ensures stage != Restarted ==>
        0 <= pcmReturned <= pcmCurrent <= pcm.Length && |Unread()| == pcmCurrent - pcmReturned
      ensures stage == Restarted ==> pcmReturned == -1 && Unread() == []
    {
      hide Setup.N, Setup.M, Setup.Valid, HoldsAt;
      if stage != Restarted {
        CursorsOrdered(st, ring, stage, lW, W, centerW, pcmReturned, pcmCurrent, tail);
      }
    }

    /** What one more call of `Lapout` would find in a row, if it found it in one piece. */
    ghost function Exposed(): seq<real>
      reads this
    {
      Pending(ring, pcmReturned, st.N(true) + st.N(W))
    }

    /** Did the last call leave a gap to be closed again? */
    ghost predicate Fragile()
      reads this
    {
      stage == Lapped && Gap(st, lW, W) != 0
    }

    /** Expose the finished samples and the newest second half in one piece, without taking them. After
        a single block since the restart the cursor is moved along with samples that are not there, so
        that the second half loses its first `Gap` samples. A second call in a row moves the samples up
        once more, and drops as many of them, unless there was no gap. */
    method Lapout() returns (count: int, samples: seq<real>)
      requires Valid()
      modifies this, pcm
      ensures Valid() || old(Fragile())
      ensures Now() == old(Now()) && tail == old(tail) && sequence == old(sequence) && lW == old(lW) && W == old(W)
      ensures old(stage) == Restarted ==> stage == Restarted && count == 0 && samples == []
      ensures old(stage) != Restarted ==> stage == Lapped && samples == Exposed()
      ensures old(stage) != Restarted ==> count == st.N(true) + st.N(W) - pcmReturned
      ensures old(stage) != Restarted && !old(Fragile()) ==> Unread() == old(Unread())
      ensures old(stage) != Restarted ==>
        var back := old(centerW) + (st.M(lW) + st.M(W)) - old(pcmCurrent);
        Laps(old(stage), old(Unread()), back, old(Exposed()), Gap(st, lW, W), tail, samples)
      ensures old(stage) == First ==> count == |tail| - Gap(st, lW, W)
      ensures old(stage) == First ==> (samples == tail <==> (lW && W) || st.N(false) == st.N(true))
    {
      hide Setup.N, Setup.M, Setup.Valid, Good, Pending, Gap, Laps;
      CursorsInRange();
      if pcmReturned < 0 {
        return 0, [];
      }
      TailFits();
      Contiguous();
      ghost var whole := Exposed();
      Solidify();
      LapsSame(old(stage), old(Unread()), old(centerW) + (st.M(lW) + st.M(W)) - old(pcmCurrent), whole,
               old(Exposed()), Gap(st, lW, W), tail, Exposed());
      count, samples := Piece();
    }

    /** The samples in one piece. */
    method Piece() returns (count: int, samples: seq<real>)
      requires ring == pcm[..] && pcmReturned >= 0 && st.N(true) + st.N(W) <= pcm.Length
      ensures count == st.N(true) + st.N(W) - pcmReturned && samples == Exposed()
    {
      hide Setup.N, Pending;
      count := st.N(true) + st.N(W) - pcmReturned;
      PendingIs(ring, pcmReturned, st.N(true) + st.N(W));
      if count > 0 {
        samples := pcm[pcmReturned..pcmReturned + count];
      } else {
        samples := [];
      }
    }

    lemma TailFits()
      requires Valid() && stage != Restarted
      ensures |tail| == st.N(W) && st.Valid() && pcm.Length == st.sz.long
      ensures 0 <= Gap(st, lW, W) && 0 < |tail| <= st.N(true) && 2 * st.N(true) <= pcm.Length
      ensures st.M(lW) + st.M(W) <= st.N(true)
      ensures var gap := Gap(st, lW, W);
        (if gap <= |tail| then tail[gap..] else []) == tail <==> (lW && W) || st.N(false) == st.N(true)
    {
      hide Setup.N, Setup.M, Setup.Valid, HoldsAt, Gap;
      FirstWhole(st, lW, W, tail);
    }

    /** Swap the halves of the ring if the finished samples are in the upper one. */
    method Contiguous()
      requires Valid() && stage != Restarted
      modifies `centerW, `pcmReturned, `pcmCurrent, `ring, pcm
      ensures Valid() && centerW == 0 && Unread() == old(Unread()) && pcmCurrent == old(pcmCurrent - centerW)
      ensures stage == Lapped ==> ring == old(ring) && pcmReturned == old(pcmReturned)
    {
      hide Setup.N, Setup.M, Setup.Valid, Good, Pending, Gap;
      TailFits();
      WhereIsCenter(st, ring, stage, lW, W, centerW, pcmReturned, pcmCurrent, tail);
      var n1 := st.N(true);
      if centerW == n1 {
        SwapGood(st, ring, lW, W, pcmReturned, pcmCurrent, tail);
        SwapHalves(pcm, n1);
        pcmCurrent, pcmReturned, centerW := pcmCurrent - n1, pcmReturned - n1, 0;
        ring := pcm[..];
      }
    }

    /** Close the gap before the newest second half. */
    method Solidify()
      requires Valid() && stage != Restarted && centerW == 0
      modifies `pcmReturned, `pcmCurrent, `stage, `ring, pcm
      ensures (Valid() && Unread() == old(Unread())) || old(Fragile())
      ensures stage == Lapped && pcmReturned >= 0 && ring == pcm[..]
      ensures old(stage) == First ==> pcmReturned == st.N(true) + Gap(st, lW, W)
      ensures Laps(old(stage), old(Unread()), st.M(lW) + st.M(W) - old(pcmCurrent), old(Exposed()), Gap(st, lW, W),
                   tail, Exposed())
    {
      hide Setup.N, Setup.M, Setup.Valid, Good, Pending, Gap, Laps;
      TailFits();
      MoveAny(st, ring, stage, lW, W, pcmReturned, pcmCurrent, tail);
      WhereIsCenter(st, ring, stage, lW, W, centerW, pcmReturned, pcmCurrent, tail);
      var shift := CloseGap();
      MoveCursors(shift);
    }

    method MoveCursors(shift: nat)
      modifies `pcmReturned, `pcmCurrent, `stage, `ring
      ensures pcmReturned == old(pcmReturned) + shift && pcmCurrent == old(pcmCurrent) + shift
      ensures ring == pcm[..] && stage == Lapped
    {
      pcmReturned, pcmCurrent := pcmReturned + shift, pcmCurrent + shift;
      ring, stage := pcm[..], Lapped;
    }

    method CloseGap() returns (shift: nat)
      requires st.Valid() && 0 <= Gap(st, lW, W) && st.N(true) <= pcm.Length
      modifies pcm
      ensures shift == Gap(st, lW, W) && pcm[..] == MovedUp(old(pcm[..]), st.M(lW) + st.M(W), shift)
    {
      hide Setup.N, Setup.M, Setup.Valid, MovedUp;
      st.Bounds(false);
      var n0, n1 := st.N(false), st.N(true);
      shift := 0;
      if lW != W {
        shift := st.M(true) - st.M(false);
        MoveUp(pcm, st.M(true) + st.M(false), shift);
      } else if !lW {
        shift := n1 - n0;
        MoveUp(pcm, n0, shift);
      } else {
        MovedNowhere(pcm[..], n1);
      }
    }
  }
}
