/** Bitrate management: fifteen candidate packets a block, and a reservoir that the chosen sizes must
    neither drain nor overfill. */
module Bitrate {

  const PACKETBLOBS := 15

  // ---------------------------------------------------------------------------------------------
  // Rounding
  // ---------------------------------------------------------------------------------------------

  /** Round to nearest, halves to even: `rint` in its default mode. */
  function Rint(x: real): int
  {
    var lo := x.Floor;
    var rest := x - lo as real;
    if rest < 0.5 then lo else if rest > 0.5 then lo + 1 else if lo % 2 == 0 then lo else lo + 1
  }

  lemma RintNear(x: real)
    ensures x - 0.5 <= Rint(x) as real <= x + 0.5
    ensures (x - Rint(x) as real == 0.5 || x - Rint(x) as real == -0.5) ==> Rint(x) % 2 == 0
  {
  }

  lemma RintSmall(x: real)
    requires -0.5 <= x <= 0.5
    ensures Rint(x) == 0
  {
  }

  /** A floater within half a step of the candidates rounds to one of them. */
  lemma RintInRange(x: real)
    requires -0.5 <= x <= 14.5
    ensures 0 <= Rint(x) < PACKETBLOBS
  {
  }

  /** C division by 8, toward zero. */
  function Div8(x: int): int
  {
    if x >= 0 then x / 8 else -(-x / 8)
  }

  // ---------------------------------------------------------------------------------------------
  // The reservoir
  // ---------------------------------------------------------------------------------------------

  /** Per block: fewest and most bits (0 or less: no limit), reservoir size, and where the level
      should be drawn to. */
  datatype Targets = Targets(min: int, max: int, reservoir: int, desired: int)
  {
    ghost predicate Valid()
    {
      && 0 <= desired <= reservoir
      && (min > 0 && max > 0 ==> min <= max)
    }
  }

  /** Choosing `bits` neither drains the reservoir from level `f` nor overfills it. */
  ghost predicate Fits(t: Targets, f: int, bits: int)
  {
    && (t.min > 0 ==> f + bits - t.min >= 0)
    && (t.max > 0 ==> f + bits - t.max <= t.reservoir)
  }

  /** The level after a block of `bits`. */
  function NextLevel(t: Targets, f: int, bits: int): int
  {
    if t.min <= 0 && t.max <= 0 then f
    else if t.max > 0 && bits > t.max then f + (bits - t.max)
    else if t.min > 0 && bits < t.min then f + (bits - t.min)
    else if f > t.desired then
      if t.max > 0 && f + (bits - t.max) >= t.desired then f + (bits - t.max) else t.desired
    else
      if t.min > 0 && f + (bits - t.min) <= t.desired then f + (bits - t.min) else t.desired
  }

  /** One block keeps the level inside the reservoir, and the level accounts for what was emitted
      beyond either target. */
  lemma LevelStep(t: Targets, f: int, bits: int)
    requires t.Valid() && 0 <= f <= t.reservoir && Fits(t, f, bits)
    ensures 0 <= NextLevel(t, f, bits) <= t.reservoir
    ensures t.max > 0 ==> bits - t.max <= NextLevel(t, f, bits) - f
    ensures t.min > 0 ==> NextLevel(t, f, bits) - f <= bits - t.min
  {
  }

  /** The packet exceeds neither limit. */
  predicate Between(t: Targets, bits: int)
  {
    (t.min > 0 ==> bits >= t.min) && (t.max > 0 ==> bits <= t.max)
  }

  /** The levels that a block of `bits` can account for. */
  predicate Reachable(t: Targets, f: int, bits: int, level: int)
  {
    (t.max > 0 ==> f + bits - t.max <= level) && (t.min > 0 ==> level <= f + bits - t.min)
  }

  function Off(level: int, desired: int): nat
  {
    if level >= desired then level - desired else desired - level
  }

  /** Between the limits the level is drawn to where it should be, as near as the block can account for; a level that
      is off gets strictly closer wherever the block leaves room on that side. Beyond a limit the level moves by the
      excess or the shortfall. */
  lemma LevelDrawn(t: Targets, f: int, bits: int)
    requires t.Valid() && (t.min > 0 || t.max > 0)
    ensures var n := NextLevel(t, f, bits);
      && (Between(t, bits) ==>
            && Reachable(t, f, bits, n) && Off(n, t.desired) <= Off(f, t.desired)
            && (f > t.desired && (t.max > 0 ==> bits < t.max) ==> Off(n, t.desired) < Off(f, t.desired))
            && (f < t.desired && (t.min > 0 ==> bits > t.min) ==> Off(n, t.desired) < Off(f, t.desired)))
      && (t.max > 0 && bits > t.max ==> n - f == bits - t.max)
      && (t.min > 0 && bits < t.min ==> f - n == t.min - bits)
    ensures Between(t, bits) ==>
      forall v :: Reachable(t, f, bits, v) ==> Off(NextLevel(t, f, bits), t.desired) <= Off(v, t.desired)
  {
  }

  // ---------------------------------------------------------------------------------------------
  // Runs
  // ---------------------------------------------------------------------------------------------

  /** One managed block: its targets, what was emitted, and the level it left. */
  datatype Entry = Entry(t: Targets, bits: int, level: int)

  ghost function LevelBefore(start: int, run: seq<Entry>, k: nat): int
    requires k <= |run|
  {
    if k == 0 then start else run[k - 1].level
  }

  ghost predicate Accounted(size: int, start: int, run: seq<Entry>, k: nat)
    requires k < |run|
  {
    var e, f := run[k], LevelBefore(start, run, k);
    && 0 <= e.level <= size && e.level == NextLevel(e.t, f, e.bits)
    && (e.t.max > 0 ==> e.bits - e.t.max <= e.level - f)
    && (e.t.min > 0 ==> e.level - f <= e.bits - e.t.min)
  }

  ghost predicate Steady(size: int, start: int, run: seq<Entry>)
  {
    0 <= start <= size && forall k :: 0 <= k < |run| ==> Accounted(size, start, run, k)
  }

  ghost function SumBits(run: seq<Entry>, i: nat, j: nat): int
    requires i <= j <= |run|
    decreases j
  {
    if i == j then 0 else SumBits(run, i, j - 1) + run[j - 1].bits
  }

  ghost function SumMin(run: seq<Entry>, i: nat, j: nat): int
    requires i <= j <= |run|
    decreases j
  {
    if i == j then 0 else SumMin(run, i, j - 1) + run[j - 1].t.min
  }

  ghost function SumMax(run: seq<Entry>, i: nat, j: nat): int
    requires i <= j <= |run|
    decreases j
  {
    if i == j then 0 else SumMax(run, i, j - 1) + run[j - 1].t.max
  }

  lemma {:induction false} WindowLevels(size: int, start: int, run: seq<Entry>, i: nat, j: nat)
    requires Steady(size, start, run) && i <= j <= |run|
    ensures (forall k :: i <= k < j ==> run[k].t.max > 0) ==>
      SumBits(run, i, j) - SumMax(run, i, j) <= LevelBefore(start, run, j) - LevelBefore(start, run, i)
    ensures (forall k :: i <= k < j ==> run[k].t.min > 0) ==>
      LevelBefore(start, run, j) - LevelBefore(start, run, i) <= SumBits(run, i, j) - SumMin(run, i, j)
    decreases j
  {
    if i < j {
      WindowLevels(size, start, run, i, j - 1);
      assert Accounted(size, start, run, j - 1);
    }
  }

  /** Over any stretch of blocks of any run, what was emitted is off the targets by a reservoir at most. */
  lemma WindowBound(size: int, start: int, run: seq<Entry>, i: nat, j: nat)
    requires Steady(size, start, run) && i <= j <= |run|
    ensures (forall k :: i <= k < j ==> run[k].t.max > 0) ==> SumBits(run, i, j) <= SumMax(run, i, j) + size
    ensures (forall k :: i <= k < j ==> run[k].t.min > 0) ==> SumMin(run, i, j) - size <= SumBits(run, i, j)
  {
    WindowLevels(size, start, run, i, j);
    LevelInside(size, start, run, i);
    LevelInside(size, start, run, j);
  }

  /** Blocks `i` to `j - 1` exceed neither limit, and draw the level to `desired`. */
  ghost predicate Quiet(run: seq<Entry>, i: nat, j: nat, desired: int)
    requires i <= j <= |run|
  {
    forall k :: i <= k < j ==> Between(run[k].t, run[k].bits) && run[k].t.desired == desired
  }

  /** Over any such stretch, a level above the desired one leaks by whatever the blocks leave of the maximum, and one
      below it fills by whatever they have over the minimum, in both cases until it is the desired one, which it
      then stays. */
  lemma {:induction false} Leaks(size: int, start: int, run: seq<Entry>, i: nat, j: nat, desired: int)
    requires Steady(size, start, run) && i <= j <= |run| && Quiet(run, i, j, desired)
    ensures LevelBefore(start, run, i) >= desired && (forall k :: i <= k < j ==> run[k].t.max > 0) ==>
      var left := LevelBefore(start, run, i) - (SumMax(run, i, j) - SumBits(run, i, j));
      LevelBefore(start, run, j) == if left < desired then desired else left
    ensures LevelBefore(start, run, i) <= desired && (forall k :: i <= k < j ==> run[k].t.min > 0) ==>
      var filled := LevelBefore(start, run, i) + (SumBits(run, i, j) - SumMin(run, i, j));
      LevelBefore(start, run, j) == if filled > desired then desired else filled
    decreases j
  {
    if i < j {
      assert Accounted(size, start, run, j - 1);
      assert Between(run[j - 1].t, run[j - 1].bits);
      Leaks(size, start, run, i, j - 1, desired);
    }
  }

  lemma LevelInside(size: int, start: int, run: seq<Entry>, k: nat)
    requires Steady(size, start, run) && k <= |run|
    ensures 0 <= LevelBefore(start, run, k) <= size
  {
    if k > 0 {
      assert Accounted(size, start, run, k - 1);
    }
  }

  lemma SteadyMore(size: int, start: int, run: seq<Entry>, e: Entry)
    requires Steady(size, start, run) && Accounted(size, start, run + [e], |run|)
    ensures Steady(size, start, run + [e])
  {
    forall k | 0 <= k < |run + [e]|
      ensures Accounted(size, start, run + [e], k)
    {
      if k < |run| {
        assert Accounted(size, start, run, k);
      }
    }
  }

  lemma Extend(size: int, start: int, run: seq<Entry>, e: Entry, f: int)
    requires Steady(size, start, run) && f == LevelBefore(start, run, |run|) && 0 <= e.level <= size
    requires e.level == NextLevel(e.t, f, e.bits)
    requires (e.t.max > 0 ==> e.bits - e.t.max <= e.level - f) && (e.t.min > 0 ==> e.level - f <= e.bits - e.t.min)
    ensures Steady(size, start, run + [e]) && LevelBefore(start, run + [e], |run + [e]|) == e.level
  {
    assert LevelBefore(start, run + [e], |run|) == f;
    SteadyMore(size, start, run, e);
  }

  // ---------------------------------------------------------------------------------------------
  // Choosing among the candidates
  // ---------------------------------------------------------------------------------------------

  function Bytes(b: seq<bool>): (n: nat)
    ensures |b| <= 8 * n < |b| + 8
  {
    (|b| + 7) / 8
  }

  function Bits(b: seq<bool>): nat
  {
    8 * Bytes(b)
  }

  /** Bits of candidate `c`; the loops below may run one off either end, where the last one looked at counts. */
  function Offered(blobs: seq<seq<bool>>, c: int): nat
    requires |blobs| == PACKETBLOBS
  {
    Bits(blobs[if c < 0 then 0 else if c >= PACKETBLOBS then PACKETBLOBS - 1 else c])
  }

  /** Force the bitrate up: skip the candidates that would drain the reservoir. */
  method EnforceMin(t: Targets, f: int, blobs: seq<seq<bool>>, from: int) returns (choice: int)
    requires |blobs| == PACKETBLOBS && 0 <= from < PACKETBLOBS && f >= 0
    ensures from <= choice <= PACKETBLOBS
    ensures from < choice ==> t.min > 0
    ensures forall c :: from <= c < choice ==> f + Offered(blobs, c) - t.min < 0
    ensures t.min > 0 && choice < PACKETBLOBS ==> f + Offered(blobs, choice) - t.min >= 0
  {
    choice := from;
    if t.min > 0 {
      var thisBits := Bits(blobs[choice]);
      if thisBits < t.min {
        while f - (t.min - thisBits) < 0
          invariant from <= choice < PACKETBLOBS && thisBits == Offered(blobs, choice)
          invariant forall c :: from <= c < choice ==> f + Offered(blobs, c) - t.min < 0
          decreases PACKETBLOBS - choice
        {
          choice := choice + 1;
          if choice >= PACKETBLOBS {
            break;
          }
          thisBits := Bits(blobs[choice]);
        }
      }
    }
  }

  /** Force the bitrate down: skip the candidates that would overfill the reservoir. */
  method EnforceMax(t: Targets, f: int, blobs: seq<seq<bool>>, from: int) returns (choice: int)
    requires |blobs| == PACKETBLOBS && 0 <= from <= PACKETBLOBS && f <= t.reservoir
    ensures -1 <= choice <= from && (choice < from ==> t.max > 0)
    ensures forall c :: choice < c <= from ==> f + Offered(blobs, c) - t.max > t.reservoir
    ensures t.max > 0 && choice >= 0 ==> f + Offered(blobs, choice) - t.max <= t.reservoir
  {
    choice := from;
    if t.max > 0 {
      var thisBits := Offered(blobs, choice);
      if thisBits > t.max {
        while f + (thisBits - t.max) > t.reservoir
          invariant 0 <= choice <= from && thisBits == Offered(blobs, choice)
          invariant forall c :: choice < c <= from ==> f + Offered(blobs, c) - t.max > t.reservoir
          decreases choice
        {
          choice := choice - 1;
          if choice < 0 {
            break;
          }
          thisBits := Bits(blobs[choice]);
        }
      }
    }
  }

  /** `b` cut short at a byte, left alone, or followed by whole bytes of zeros. */
  ghost predicate Resized(b: seq<bool>, b': seq<bool>)
  {
    || b' == b
    || (b' <= b && |b'| % 8 == 0)
    || (b <= b' && (|b'| - |b|) % 8 == 0 && forall k :: |b| <= k < |b'| ==> !b'[k])
  }

  /** The candidate, cut to at most `maxsize` bytes. */
  method Truncate(b: seq<bool>, maxsize: nat) returns (r: seq<bool>)
    ensures Resized(b, r) && Bytes(r) == if Bytes(b) > maxsize then maxsize else Bytes(b)
    ensures Bytes(b) <= maxsize ==> r == b
  {
    r := b;
    if Bytes(b) > maxsize {
      r := b[..8 * maxsize];
    }
  }

  /** The candidate, padded with zero bytes to at least `minsize` bytes. */
  method Pad(b: seq<bool>, minsize: int) returns (r: seq<bool>)
    ensures Resized(b, r) && Bytes(r) == if Bytes(b) < minsize then minsize else Bytes(b)
    ensures Bytes(b) >= minsize ==> r == b
  {
    r := b;
    var left := minsize - Bytes(b);
    while left > 0
      invariant b <= r
      invariant |r|
          == |b| + 8 * ((if minsize > Bytes(b) then minsize - Bytes(b) else 0) - (if left > 0 then left else 0))
      invariant forall k :: |b| <= k < |r| ==> !r[k]
    {
      r := r + [false, false, false, false, false, false, false, false];
      left := left - 1;
    }
  }

  /** The targets leave room for a size that is a whole number of bytes. */
  ghost predicate Roomy(t: Targets)
  {
    t.min > 0 && t.max > 0 ==> t.reservoir >= 7
  }

  lemma TruncatedFits(t: Targets, f: int, bytes: int)
    requires t.Valid() && Roomy(t) && 0 <= f <= t.reservoir && t.max > 0 && bytes == Div8(t.max + (t.reservoir - f))
    ensures bytes >= 0 && Fits(t, f, 8 * bytes)
    ensures forall before: nat :: f + 8 * before - t.max > t.reservoir ==> before > bytes
  {
  }

  lemma PaddedFits(t: Targets, f: int, before: nat, after: nat)
    requires t.Valid() && Roomy(t) && 0 <= f <= t.reservoir
    requires t.max > 0 ==> f + 8 * before - t.max <= t.reservoir
    requires var minsize := Div8(t.min - f + 7); after == if before < minsize then minsize else before
    ensures Fits(t, f, 8 * after)
    ensures Fits(t, f, 8 * before) ==> after == before
    ensures Fits(t, f, 8 * before) ==> before >= Div8(t.min - f + 7)
    ensures after > before ==> t.min > 0 && f + 8 * before - t.min < 0
  {
  }

  /** The loops leave a candidate that fits alone; running off the low end means the smallest overfills. */
  lemma NoForce(t: Targets, f: int, blobs: seq<seq<bool>>, from: int, up: int, down: int)
    requires |blobs| == PACKETBLOBS && 0 <= from < PACKETBLOBS && from <= up <= PACKETBLOBS && -1 <= down <= up
    requires from < up ==> t.min > 0
    requires forall c :: from <= c < up ==> f + Offered(blobs, c) - t.min < 0
    requires forall c :: down < c <= up ==> f + Offered(blobs, c) - t.max > t.reservoir
    requires down < up ==> t.max > 0
    ensures Fits(t, f, Bits(blobs[from])) ==> down == up == from
    ensures down < 0 ==> f + Bits(blobs[0]) - t.max > t.reservoir
  {
    assert Offered(blobs, from) == Bits(blobs[from]);
    assert Offered(blobs, 0) == Bits(blobs[0]);
    hide Bits;
    if Fits(t, f, Bits(blobs[from])) {
      assert up == from;
      assert !(f + Offered(blobs, from) - t.max > t.reservoir) || t.max <= 0;
    }
  }

  /** Where the two loops end: first up past every candidate that would drain, then down past every one
      that would overfill. */
  ghost predicate Forced(t: Targets, f: int, blobs: seq<seq<bool>>, from: int, up: int, down: int)
    requires |blobs| == PACKETBLOBS
  {
    && from <= up <= PACKETBLOBS && -1 <= down <= up && (from < up ==> t.min > 0) && (down < up ==> t.max > 0)
    && (forall c :: from <= c < up ==> f + Offered(blobs, c) - t.min < 0)
    && (t.min > 0 && up < PACKETBLOBS ==> f + Offered(blobs, up) - t.min >= 0)
    && (forall c :: down < c <= up ==> f + Offered(blobs, c) - t.max > t.reservoir)
    && (t.max > 0 && down >= 0 ==> f + Offered(blobs, down) - t.max <= t.reservoir)
  }

  /** `choice` is where the loops lead from candidate `from`. */
  ghost predicate Selected(t: Targets, f: int, blobs: seq<seq<bool>>, from: int, choice: int)
    requires |blobs| == PACKETBLOBS
  {
    exists up, down ::
      && Forced(t, f, blobs, from, up, down)
      && choice == if down < 0 then 0 else if down >= PACKETBLOBS then PACKETBLOBS - 1 else down
  }

  /** Nothing is cut or added beyond what the reservoir asks for. */
  ghost predicate Sparing(t: Targets, f: int, blob: seq<bool>, packet: seq<bool>)
  {
    && (Bytes(packet) < Bytes(blob) ==> t.max > 0 && f + Bits(packet) + 8 - t.max > t.reservoir)
    && (Bytes(packet) > Bytes(blob) ==> t.min > 0 && f + Bits(packet) - 8 - t.min < 0)
    && (Bytes(packet) == Bytes(blob) ==> packet == blob)
  }

  /** The final size of the packet chosen at `from`: always one that fits; a candidate that fits as it
      is goes out as it is; truncation is left for when even the smallest candidate overfills. */
  method Settle(t: Targets, f: int, blobs: seq<seq<bool>>, from: int) returns (choice: nat, packet: seq<bool>)
    requires |blobs| == PACKETBLOBS && 0 <= from < PACKETBLOBS && t.Valid() && Roomy(t) && 0 <= f <= t.reservoir
    ensures choice < PACKETBLOBS && Resized(blobs[choice], packet) && Fits(t, f, Bits(packet))
    ensures Fits(t, f, Bits(blobs[from])) ==> choice == from && packet == blobs[from]
    ensures Bytes(packet) < Bytes(blobs[choice]) ==>
      choice == 0 && t.max > 0 && f + Bits(blobs[0]) - t.max > t.reservoir
    ensures Bytes(packet) > Bytes(blobs[choice]) ==> t.min > 0 && f + Bits(blobs[choice]) - t.min < 0
    ensures Selected(t, f, blobs, from, choice) && Sparing(t, f, blobs[choice], packet)
  {
    hide Fits, Div8, Resized, Bytes, Forced;
    var up := EnforceMin(t, f, blobs, from);
    var down := EnforceMax(t, f, blobs, up);
    NoForce(t, f, blobs, from, up, down);
    IsForced(t, f, blobs, from, up, down);
    if down < 0 {
      var maxsize := Div8(t.max + (t.reservoir - f));
      TruncatedFits(t, f, maxsize);
      choice := 0;
      packet := Truncate(blobs[0], maxsize);
      LeastCut(t, f, maxsize);
    } else {
      var minsize := Div8(t.min - f + 7);
      choice := if down >= PACKETBLOBS then PACKETBLOBS - 1 else down;
      packet := Pad(blobs[choice], minsize);
      PaddedFits(t, f, Bytes(blobs[choice]), Bytes(packet));
      LeastPad(t, f, minsize);
    }
  }

  lemma IsForced(t: Targets, f: int, blobs: seq<seq<bool>>, from: int, up: int, down: int)
    requires |blobs| == PACKETBLOBS && from <= up <= PACKETBLOBS && -1 <= down <= up && (from < up ==> t.min > 0)
    requires (down < up ==> t.max > 0)
    requires forall c :: from <= c < up ==> f + Offered(blobs, c) - t.min < 0
    requires t.min > 0 && up < PACKETBLOBS ==> f + Offered(blobs, up) - t.min >= 0
    requires forall c :: down < c <= up ==> f + Offered(blobs, c) - t.max > t.reservoir
    requires t.max > 0 && down >= 0 ==> f + Offered(blobs, down) - t.max <= t.reservoir
    ensures Forced(t, f, blobs, from, up, down)
  {
    hide Offered;
  }

  lemma LeastCut(t: Targets, f: int, maxsize: int)
    requires maxsize == Div8(t.max + (t.reservoir - f)) && t.max > 0 && f <= t.reservoir
    ensures f + 8 * maxsize + 8 - t.max > t.reservoir
  {
  }

  lemma LeastPad(t: Targets, f: int, minsize: int)
    requires minsize == Div8(t.min - f + 7)
    ensures minsize > 0 ==> f + 8 * minsize - 8 - t.min < 0
  {
  }

  // ---------------------------------------------------------------------------------------------
  // The floater
  // ---------------------------------------------------------------------------------------------

  /** `choice` is the first candidate from `from` on, down if the average would end up too high and up if too
      low, that brings it back or is on the target's other side; or the last in that direction. */
  ghost predicate Sought(blobs: seq<seq<bool>>, from: int, target: int, level: int, desired: int, choice: int)
    requires |blobs| == PACKETBLOBS
  {
    && 0 <= choice < PACKETBLOBS
    && (level + (Offered(blobs, from) - target) == desired ==> choice == from)
    && (level + (Offered(blobs, from) - target) > desired ==>
         choice <= from
         && (choice == 0 || Offered(blobs, choice) <= target
             || level + (Offered(blobs, choice) - target) <= desired))
    && (level + (Offered(blobs, from) - target) < desired ==>
         from <= choice
         && (choice == PACKETBLOBS - 1 || Offered(blobs, choice) >= target
             || level + (Offered(blobs, choice) - target) >= desired))
    && (forall c :: choice < c <= from ==> Offered(blobs, c) > target && level + (Offered(blobs, c) - target) > desired)
    && (forall c :: from <= c < choice ==> Offered(blobs, c) < target && level + (Offered(blobs, c) - target) < desired)
  }

  /** How far the floater moves when it wants to move by `want`. */
  function Slewed(want: real, samples: int, rate: int, damp: real): real
    requires samples > 0 && rate > 0 && damp >= 0.0
  {
    Limit(want / samples as real * rate as real, damp) / rate as real * samples as real
  }

  /** The floater moved from `avg` to `avg'`, toward the candidate sought and no faster than allowed. */
  ghost predicate Drifted(avg: real, avg': real, blobs: seq<seq<bool>>, target: int, level: int, desired: int,
                          samples: int, rate: int, damp: real)
    requires |blobs| == PACKETBLOBS && samples > 0 && rate > 0 && damp >= 0.0
  {
    exists sought: int ::
      && Sought(blobs, Rint(avg), target, level, desired, sought)
      && avg' == avg + Slewed(Rint(sought as real - avg) as real, samples, rate, damp)
  }

  /** Look for the first candidate in the right direction that brings the average back. */
  method Seek(blobs: seq<seq<bool>>, from: int, target: int, level: int, desired: int) returns (choice: int)
    requires |blobs| == PACKETBLOBS && 0 <= from < PACKETBLOBS
    ensures Sought(blobs, from, target, level, desired, choice)
  {
    choice := from;
    var thisBits := Bits(blobs[choice]);
    if level + (thisBits - target) > desired {
      while choice > 0 && thisBits > target && level + (thisBits - target) > desired
        invariant 0 <= choice <= from && thisBits == Offered(blobs, choice)
        invariant forall c :: choice < c <= from ==>
          Offered(blobs, c) > target && level + (Offered(blobs, c) - target) > desired
      {
        choice := choice - 1;
        thisBits := Bits(blobs[choice]);
      }
    } else if level + (thisBits - target) < desired {
      while choice + 1 < PACKETBLOBS && thisBits < target && level + (thisBits - target) < desired
        invariant from <= choice < PACKETBLOBS && thisBits == Offered(blobs, choice)
        invariant forall c :: from <= c < choice ==>
          Offered(blobs, c) < target && level + (Offered(blobs, c) - target) < desired
      {
        choice := choice + 1;
        thisBits := Bits(blobs[choice]);
      }
    }
  }

  /** `slew` held to the limit set by the damping; no damping, no limit. */
  function Limit(slew: real, damp: real): real
    requires damp >= 0.0
  {
    if damp == 0.0 then slew
    else if slew < -(15.0 / damp) then -(15.0 / damp)
    else if slew > 15.0 / damp then 15.0 / damp
    else slew
  }

  lemma LimitBetween(slew: real, damp: real)
    requires damp >= 0.0
    ensures var held := Limit(slew, damp); (0.0 <= held <= slew) || (slew <= held <= 0.0)
  {
    if damp > 0.0 {
      assert 15.0 / damp > 0.0;
    }
  }

  /** Multiplying and dividing by positive factors keeps a value between zero and another. */
  lemma ScaleBetween(x: real, y: real, r: real, s: real)
    requires r > 0.0 && s > 0.0 && ((0.0 <= x <= y) || (y <= x <= 0.0))
    ensures (0.0 <= x / r * s <= y / r * s) || (y / r * s <= x / r * s <= 0.0)
  {
    var k := s / r;
    assert k > 0.0;
    assert x / r * s == x * k && y / r * s == y * k;
    if x >= 0.0 && y >= x {
      assert (y - x) * k >= 0.0 && x * k >= 0.0;
    } else {
      assert (x - y) * k >= 0.0 && -x * k >= 0.0;
    }
  }

  lemma Unscale(x: real, r: real, s: real)
    requires r > 0.0 && s > 0.0
    ensures x / s * r / r * s == x
  {
    assert x / s * r / r == x / s;
  }

  /** Turning a move into a slew per second, limiting it, and turning it back never lengthens or
      reverses it. */
  lemma LimitShortens(want: real, samples: real, rate: real, slew: real, held: real, damp: real, move: real)
    requires samples > 0.0 && rate > 0.0 && damp >= 0.0
    requires slew == want / samples * rate && held == Limit(slew, damp) && move == held / rate * samples
    ensures (0.0 <= move <= want) || (want <= move <= 0.0)
  {
    hide Limit;
    LimitBetween(slew, damp);
    ScaleBetween(held, slew, rate, samples);
    Unscale(want, rate, samples);
  }

  lemma SlewedShortens(want: real, samples: int, rate: int, damp: real)
    requires samples > 0 && rate > 0 && damp >= 0.0
    ensures (0.0 <= Slewed(want, samples, rate, damp) <= want) || (want <= Slewed(want, samples, rate, damp) <= 0.0)
  {
    hide Limit;
    var slew := want / samples as real * rate as real;
    LimitShortens(want, samples as real, rate as real, slew, Limit(slew, damp), damp,
                  Slewed(want, samples, rate, damp));
  }

  /** How far the floater may move in a block: 15 candidates in `damp` seconds. */
  function Reach(samples: int, rate: int, damp: real): (d: real)
    requires samples > 0 && rate > 0 && damp > 0.0
    ensures d >= 0.0
  {
    assert 15.0 / damp > 0.0;
    assert 15.0 / damp / rate as real > 0.0;
    15.0 / damp / rate as real * samples as real
  }

  /** `x` a second, in `s` of the `r` samples that make one up. */
  function Scaled(x: real, r: real, s: real): real
    requires r > 0.0
  {
    x / r * s
  }

  /** Scaling by positive factors keeps order and sign. */
  lemma ScaleOrder(x: real, y: real, r: real, s: real)
    requires r > 0.0 && s > 0.0
    ensures x <= y ==> Scaled(x, r, s) <= Scaled(y, r, s)
    ensures Scaled(-x, r, s) == -Scaled(x, r, s)
  {
    if x <= y {
      DivOrder(x, y, r);
      MulOrder(x / r, y / r, s);
    }
    assert -x / r == -(x / r);
  }

  lemma SlewedIs(want: real, samples: int, rate: int, damp: real) returns (w: real)
    requires samples > 0 && rate > 0 && damp >= 0.0
    ensures Slewed(want, samples, rate, damp) == Scaled(Limit(w, damp), rate as real, samples as real)
    ensures want == Scaled(w, rate as real, samples as real)
    ensures damp > 0.0 ==> Reach(samples, rate, damp) == Scaled(15.0 / damp, rate as real, samples as real)
  {
    w := want / samples as real * rate as real;
    Unscale(want, rate as real, samples as real);
  }

  /** The floater moves all the way if that is within reach, and as far as it may otherwise. */
  lemma SlewedExactly(want: real, samples: int, rate: int, damp: real)
    requires samples > 0 && rate > 0 && damp >= 0.0
    ensures damp == 0.0 ==> Slewed(want, samples, rate, damp) == want
    ensures damp > 0.0 ==>
      var d := Reach(samples, rate, damp);
      Slewed(want, samples, rate, damp) == if want < -d then -d else if want > d then d else want
  {
    hide Scaled, Slewed, Reach;
    var r, s := rate as real, samples as real;
    var w := SlewedIs(want, samples, rate, damp);
    if damp > 0.0 {
      var most := 15.0 / damp;
      assert most > 0.0;
      ScaleOrder(w, most, r, s);
      ScaleOrder(most, w, r, s);
      ScaleOrder(w, -most, r, s);
      ScaleOrder(-most, w, r, s);
    }
  }

  /** The floater stays within half a step of the candidates. */
  lemma FloaterInRange(avg: real, choice: int, move: real)
    requires -0.5 <= avg <= 14.5 && 0 <= choice < PACKETBLOBS
    requires var want := Rint(choice as real - avg) as real; (0.0 <= move <= want) || (want <= move <= 0.0)
    ensures -0.5 <= avg + move <= 14.5
  {
    RintNear(choice as real - avg);
  }

  /** Let the floater drift toward the average rate. */
  method Drift(avg: real, blobs: seq<seq<bool>>, target: int, level: int, desired: int, samples: int, rate: int,
               damp: real)
    returns (avg': real, choice: int)
    requires |blobs| == PACKETBLOBS && -0.5 <= avg <= 14.5 && samples > 0 && rate > 0 && damp >= 0.0
    ensures -0.5 <= avg' <= 14.5 && choice == Rint(avg') && 0 <= choice < PACKETBLOBS
    ensures level + (Offered(blobs, Rint(avg)) - target) == desired ==> avg' == avg
    ensures Drifted(avg, avg', blobs, target, level, desired, samples, rate, damp)
  {
    hide Rint, Slewed;
    RintInRange(avg);
    choice := Seek(blobs, Rint(avg), target, level, desired);
    var want := Rint(choice as real - avg) as real;
    RintNear(avg);
    if choice == Rint(avg) {
      RintSmall(choice as real - avg);
    }
    var move := Slewed(want, samples, rate, damp);
    SlewedShortens(want, samples, rate, damp);
    FloaterInRange(avg, choice, move);
    avg' := avg + move;
    RintInRange(avg');
    choice := Rint(avg');
  }

  // ---------------------------------------------------------------------------------------------
  // How big the reservoir has to be
  // ---------------------------------------------------------------------------------------------

  /** Some whole number of bytes fits. */
  ghost predicate CanFit(t: Targets, f: int)
  {
    exists bytes: nat :: Fits(t, f, 8 * bytes)
  }

  ghost predicate AlwaysCanFit(size: nat)
  {
    forall t: Targets, f: int ::
      t.Valid() && t.min > 0 && t.max > 0 && t.reservoir == size && 0 <= f <= size ==> CanFit(t, f)
  }

  /** With both limits in force, packets being whole bytes, a reservoir does its job from 7 bits up;
      any smaller one can be drained or overfilled whatever is chosen. */
  lemma SevenBits(size: nat)
    ensures AlwaysCanFit(size) <==> size >= 7
  {
    if size >= 7 {
      forall t: Targets, f: int | t.Valid() && t.min > 0 && t.max > 0 && t.reservoir == size && 0 <= f <= size
        ensures CanFit(t, f)
      {
        var bytes := Div8(t.max + (size - f));
        TruncatedFits(t, f, bytes);
      }
    } else {
      var t := Targets(1, 1, size, 0);
      assert t.Valid() && t.min > 0 && t.max > 0 && t.reservoir == size;
      if bytes: nat :| Fits(t, 0, 8 * bytes) {
        assert false;
      }
      assert !CanFit(t, 0);
    }
  }

  // ---------------------------------------------------------------------------------------------
  // The manager
  // ---------------------------------------------------------------------------------------------

  function PerBlock(bps: real, samples: real, rate: real): real
    requires rate != 0.0
  {
    bps * samples / rate
  }

  /** Rates in bits a second; 0 or less is no limit. */
  datatype Info = Info(avgRate: int, minRate: int, maxRate: int, reservoirBits: int, reservoirBias: real,
                       slewDamp: real, rate: int, short: int, long: int)
  {
    ghost predicate Valid()
    {
      && rate > 0 && 2 <= short <= long && slewDamp >= 0.0
      && (reservoirBits > 0 ==> 0.0 <= reservoirBias <= 1.0)
      && (minRate > 0 && maxRate > 0 ==> minRate <= maxRate && (reservoirBits > 0 ==> reservoirBits >= 7))
    }

    function DesiredFill(): int
    {
      if reservoirBits > 0 then (reservoirBits as real * reservoirBias).Floor else 0
    }

    /** Bits a short block, for a rate in bits a second. */
    function Bitsper(bps: int): int
      requires rate > 0
    {
      Rint(PerBlock(bps as real, (short / 2) as real, rate as real))
    }

    function ShortPerLong(): int
      requires short > 0
    {
      long / short
    }
  }

  lemma RintMonotone(x: real, y: real)
    requires x <= y
    ensures Rint(x) <= Rint(y)
  {
  }

  lemma BitsperMonotone(info: Info, a: int, b: int)
    requires info.rate > 0 && info.short >= 0 && a <= b
    ensures info.Bitsper(a) <= info.Bitsper(b)
  {
    hide Rint, PerBlock;
    var x, y, h, r := a as real, b as real, (info.short / 2) as real, info.rate as real;
    PerBlockMonotone(x, y, h, r);
    RintMonotone(PerBlock(x, h, r), PerBlock(y, h, r));
  }

  lemma PerBlockMonotone(x: real, y: real, h: real, r: real)
    requires x <= y && h >= 0.0 && r > 0.0
    ensures PerBlock(x, h, r) <= PerBlock(y, h, r)
  {
    MulOrder(x, y, h);
    DivOrder(x * h, y * h, r);
  }

  lemma MulOrder(x: real, y: real, h: real)
    requires x <= y && h >= 0.0
    ensures x * h <= y * h
  {
    assert (y - x) * h >= 0.0;
  }

  lemma DivOrder(x: real, y: real, r: real)
    requires x <= y && r > 0.0
    ensures x / r <= y / r
  {
    assert (y - x) / r >= 0.0;
    assert (y - x) / r == y / r - x / r;
  }

  /** A rate that is no limit gives a target that is none. */
  lemma BitsperSign(info: Info, a: int)
    requires info.rate > 0 && info.short >= 0 && a <= 0
    ensures info.Bitsper(a) <= 0
  {
    BitsperMonotone(info, a, 0);
    RintSmall(0.0);
    assert PerBlock(0.0, (info.short / 2) as real, info.rate as real) == 0.0;
  }

  lemma DesiredInside(info: Info)
    requires info.Valid() && info.reservoirBits > 0
    ensures 0 <= info.DesiredFill() <= info.reservoirBits
  {
    ShareInside(info.reservoirBits as real, info.reservoirBias);
  }

  lemma ShareInside(r: real, b: real)
    requires r >= 0.0 && 0.0 <= b <= 1.0
    ensures 0.0 <= r * b <= r
  {
    MulOrder(0.0, r, b);
    MulOrder(b, 1.0, r);
    assert b * r == r * b;
  }

  /** `target` bits for the samples of `k` short blocks are what `bps` bits a second come to, rounded once for each
      block. */
  ghost predicate PaysFor(info: Info, target: int, bps: int, k: int)
  {
    -(info.rate * k) <= 2 * (target * info.rate - bps * (info.short / 2) * k) <= info.rate * k
  }

  function Times(x: real, y: real): real
  {
    x * y
  }

  lemma BitsperNear(info: Info, bps: int)
    requires info.rate > 0
    ensures PaysFor(info, info.Bitsper(bps), bps, 1)
  {
    hide Rint, PerBlock, Times;
    var q, b, r := PerBlock(bps as real, (info.short / 2) as real, info.rate as real), info.Bitsper(bps), info.rate;
    RintNear(q);
    PerBlockTimes(bps, info.short / 2, r);
    TimesWhole(b, r);
    TimesNear(q, b as real, r as real);
    HalfOff(b * r, bps * (info.short / 2), r);
  }

  lemma PerBlockTimes(x: int, h: int, r: int)
    requires r > 0
    ensures Times(PerBlock(x as real, h as real, r as real), r as real) == (x * h) as real
  {
    TimesWhole(x, h);
    Undivided(Times(x as real, h as real), r as real);
  }

  lemma Undivided(p: real, r: real)
    requires r > 0.0
    ensures Times(p / r, r) == p
  {
  }

  lemma TimesWhole(a: int, b: int)
    ensures Times(a as real, b as real) == (a * b) as real
  {
  }

  lemma TimesNear(q: real, b: real, r: real)
    requires q - 0.5 <= b <= q + 0.5 && r > 0.0
    ensures Times(q, r) + Times(q, r) - r <= Times(b, r) + Times(b, r) <= Times(q, r) + Times(q, r) + r
  {
    ProductNear(q, b, r, Times(q, r), Times(b, r));
  }

  lemma ProductNear(q: real, b: real, r: real, x: real, y: real)
    requires q - 0.5 <= b <= q + 0.5 && r > 0.0 && x == q * r && y == b * r
    ensures x + x - r <= y + y <= x + x + r
  {
    var d := b + b - (q + q);
    RealSign(d + 1.0, r);
    RealSign(1.0 - d, r);
    assert (d + 1.0) * r == y + y - (x + x) + r;
    assert (1.0 - d) * r == r - (y + y - (x + x));
  }

  lemma RealSign(x: real, y: real)
    requires x >= 0.0 && y >= 0.0
    ensures x * y >= 0.0
  {
  }

  lemma HalfOff(t: int, e: int, r: int)
    requires (e + e - r) as real <= (t + t) as real <= (e + e + r) as real
    ensures -(r * 1) <= 2 * (t - e * 1) <= r * 1
  {
  }

  lemma PaysForMore(info: Info, target: int, bps: int, k: int)
    requires PaysFor(info, target, bps, 1) && k >= 0
    ensures PaysFor(info, target * k, bps, k)
  {
    var d := target * info.rate - bps * (info.short / 2);
    assert -info.rate <= 2 * d <= info.rate;
    assert -(info.rate * k) <= 2 * d * k <= info.rate * k;
    assert target * k * info.rate == target * info.rate * k;
    assert 2 * d * k == 2 * (d * k);
  }

  /** The targets of a block are the configured limits for as many short blocks as it makes up, and the level is drawn
      to the configured share of the reservoir. */
  lemma TargetsPay(info: Info, w: bool)
    requires info.Valid()
    ensures var k, t := if w then info.ShortPerLong() else 1, TargetsFor(info, w);
      && PaysFor(info, t.min, info.minRate, k) && PaysFor(info, t.max, info.maxRate, k)
    ensures info.ShortPerLong() * info.short <= info.long < (info.ShortPerLong() + 1) * info.short
    ensures info.reservoirBits > 0 ==>
      TargetsFor(info, w).desired as real <= info.reservoirBits as real * info.reservoirBias
        < (TargetsFor(info, w).desired + 1) as real
  {
    hide Info.Bitsper, PaysFor, Info.DesiredFill;
    DesiredIs(info);
    BitsperNear(info, info.minRate);
    BitsperNear(info, info.maxRate);
    PaysForMore(info, info.Bitsper(info.minRate), info.minRate, info.ShortPerLong());
    PaysForMore(info, info.Bitsper(info.maxRate), info.maxRate, info.ShortPerLong());
    assert info.Bitsper(info.minRate) * 1 == info.Bitsper(info.minRate);
    assert info.Bitsper(info.maxRate) * 1 == info.Bitsper(info.maxRate);
    LongInShorts(info.long, info.short);
  }

  lemma DesiredIs(info: Info)
    ensures info.reservoirBits > 0 ==>
      info.DesiredFill() as real <= info.reservoirBits as real * info.reservoirBias < (info.DesiredFill() + 1) as real
  {
  }

  lemma LongInShorts(long: nat, short: nat)
    requires short > 0
    ensures long / short * short <= long < (long / short + 1) * short
  {
    assert (long / short + 1) * short == long / short * short + short;
  }

  function TargetsFor(info: Info, w: bool): Targets
    requires info.rate > 0 && info.short > 0
  {
    var k := if w then info.ShortPerLong() else 1;
    Targets(info.Bitsper(info.minRate) * k, info.Bitsper(info.maxRate) * k, info.reservoirBits, info.DesiredFill())
  }

  lemma TargetsGood(info: Info, w: bool)
    requires info.Valid() && info.reservoirBits > 0
    ensures TargetsFor(info, w).Valid() && Roomy(TargetsFor(info, w))
  {
    hide Rint, Info.Bitsper, Info.DesiredFill;
    DesiredInside(info);
    var k := if w then info.ShortPerLong() else 1;
    assert k >= 1;
    var lo, hi := info.Bitsper(info.minRate), info.Bitsper(info.maxRate);
    if lo * k > 0 && hi * k > 0 {
      assert lo > 0 && hi > 0;
      if info.minRate <= 0 {
        BitsperSign(info, info.minRate);
      }
      if info.maxRate <= 0 {
        BitsperSign(info, info.maxRate);
      }
      BitsperMonotone(info, info.minRate, info.maxRate);
      assert (hi - lo) * k >= 0;
    }
  }

  lemma SlewSane(info: Info)
    requires info.Valid()
    ensures info.rate > 0 && info.slewDamp >= 0.0 && info.short / 2 > 0 && info.long / 2 > 0
  {
  }

  /** Every block of the run had the targets of its size. */
  ghost predicate Targeted(info: Info, run: seq<Entry>)
    requires info.rate > 0 && info.short > 0
  {
    forall k :: 0 <= k < |run| ==> run[k].t == TargetsFor(info, false) || run[k].t == TargetsFor(info, true)
  }

  class EncodedBlock {
    const W: bool
    const granulepos: int
    const sequence: int
    const eofflag: bool
    const packetblob: array<seq<bool>>

    constructor (w: bool, gran: int, seqno: int, eos: bool, blobs: array<seq<bool>>)
      ensures W == w && granulepos == gran && sequence == seqno && eofflag == eos && packetblob == blobs
    {
      W, granulepos, sequence, eofflag, packetblob := w, gran, seqno, eos, blobs;
    }
  }

  datatype OggPacket = NoPacket | OggPacket(packet: seq<bool>, eos: bool, granulepos: int, packetno: int)

  class BitrateManager {
    const info: Info
    var managed: bool
    var avgReservoir: int
    var minmaxReservoir: int
    var avgBitsper: int
    var minBitsper: int
    var maxBitsper: int
    var shortPerLong: int
    var avgfloat: real
    var choice: nat
    var vb: EncodedBlock?

    ghost var run: seq<Entry>      // every managed block so far

    ghost predicate Valid()
      reads this
    {
      && info.Valid() && (managed <==> info.reservoirBits > 0) && choice < PACKETBLOBS
      && (vb != null ==> vb.packetblob.Length == PACKETBLOBS)
      && (managed ==> Rates() && Level())
    }

    ghost predicate Rates()
      requires info.Valid()
      reads this
    {
      && minBitsper == info.Bitsper(info.minRate) && maxBitsper == info.Bitsper(info.maxRate)
      && avgBitsper == info.Bitsper(info.avgRate) && shortPerLong == info.ShortPerLong()
    }

    /** The level is what the run led to, and the floater names a candidate. */
    ghost predicate Level()
      reads this
    {
      && -0.5 <= avgfloat <= 14.5
      && minmaxReservoir == LevelBefore(info.DesiredFill(), run, |run|)
      && Steady(info.reservoirBits, info.DesiredFill(), run)
      && info.rate > 0 && info.short > 0 && Targeted(info, run)
    }

    constructor (i: Info)
      requires i.Valid()
      ensures Valid() && info == i && run == [] && vb == null
    {
      info, vb, choice, run := i, null, 0, [];
      managed, avgReservoir, minmaxReservoir, avgfloat := false, 0, 0, 0.0;
      avgBitsper, minBitsper, maxBitsper, shortPerLong := 0, 0, 0, 0;
      if i.reservoirBits > 0 {
        shortPerLong := i.long / i.short;
        managed := true;
        avgBitsper, minBitsper, maxBitsper := i.Bitsper(i.avgRate), i.Bitsper(i.minRate), i.Bitsper(i.maxRate);
        avgfloat := 7.0;
        var desired := i.DesiredFill();
        DesiredInside(i);
        minmaxReservoir, avgReservoir := desired, desired;
      }
    }

    /** Take in a coded block and settle which packet goes out, and how long it is. */
    method AddBlock(block: EncodedBlock) returns (ok: bool)
      requires Valid() && block.packetblob.Length == PACKETBLOBS
      modifies this, block.packetblob
      ensures Valid()
      ensures !managed ==>
        && ok == (old(vb) == null) && vb == (if ok then block else old(vb))
        && block.packetblob[..] == old(block.packetblob[..]) && run == old(run)
      ensures managed ==> ok && vb == block && Emits(old(run), old(minmaxReservoir), old(block.packetblob[..]), block)
      ensures managed ==> Follows(old(avgfloat), old(avgReservoir), old(block.packetblob[..]), block.W)
      ensures managed ==> Kept(old(minmaxReservoir), old(block.packetblob[..]), block)
      ensures managed && avgBitsper > 0 ==>
        avgReservoir == old(avgReservoir) + Bits(block.packetblob[choice]) - AvgTarget(block.W)
      ensures managed == old(managed) && avgBitsper == old(avgBitsper)
    {
      hide Rint, Steady, LevelBefore, Info.Bitsper, Info.DesiredFill, Info.Valid, TargetsFor, Emits, Follows, Kept;
      if !managed {
        if vb != null {
          return false;
        }
        vb := block;
        return true;
      }
      vb := block;
      Manage(block);
      return true;
    }

    /** The managed case: choose, resize, account. */
    method Manage(block: EncodedBlock)
      requires Valid() && managed && block.packetblob.Length == PACKETBLOBS
      modifies `avgfloat, `choice, `minmaxReservoir, `avgReservoir, `run, block.packetblob
      ensures Valid() && Emits(old(run), old(minmaxReservoir), old(block.packetblob[..]), block)
      ensures Follows(old(avgfloat), old(avgReservoir), old(block.packetblob[..]), block.W)
      ensures Kept(old(minmaxReservoir), old(block.packetblob[..]), block)
      ensures avgBitsper > 0 ==> avgReservoir == old(avgReservoir) + Bits(block.packetblob[choice]) - AvgTarget(block.W)
    {
      hide Rint, Steady, LevelBefore, Fits, Bytes, Info.Bitsper, Info.DesiredFill, Info.Valid, TargetsFor, Emits, Kept;
      hide Drifted;
      var from := Look(block);
      Choose(block, from);
    }

    /** Settle on a packet, starting from candidate `from`, and account for it. */
    method Choose(block: EncodedBlock, from: int)
      requires Valid() && managed && block.packetblob.Length == PACKETBLOBS && from == Rint(avgfloat)
      modifies `choice, `minmaxReservoir, `avgReservoir, `run, block.packetblob
      ensures Valid() && Emits(old(run), old(minmaxReservoir), old(block.packetblob[..]), block)
      ensures Kept(old(minmaxReservoir), old(block.packetblob[..]), block)
      ensures avgBitsper > 0 ==> avgReservoir == old(avgReservoir) + Bits(block.packetblob[choice]) - AvgTarget(block.W)
    {
      hide Rint, Steady, LevelBefore, Fits, Resized, Bytes, Info.Bitsper, Info.DesiredFill, Info.Valid, Targets.Valid;
      hide Roomy, TargetsFor, Selected, Sparing;
      RintInRange(avgfloat);
      var t := BlockTargets(block.W);
      LevelIn();
      TargetsGood(info, block.W);
      var c, packet := Settle(t, minmaxReservoir, block.packetblob[..], from);
      choice := c;
      block.packetblob[c] := packet;
      Account(t, Bits(packet));
      if avgBitsper > 0 {
        avgReservoir := avgReservoir + (Bits(packet) - AvgTarget(block.W));
      }
    }

    function AvgTarget(w: bool): int
      reads this
    {
      if w then avgBitsper * shortPerLong else avgBitsper
    }

    method BlockTargets(w: bool) returns (t: Targets)
      requires Valid() && managed
      ensures t == TargetsFor(info, w) && t.reservoir == info.reservoirBits
    {
      hide Rint, Steady, LevelBefore, Info.Bitsper, Info.DesiredFill, Info.ShortPerLong;
      t := Targets(if w then minBitsper * shortPerLong else minBitsper,
                   if w then maxBitsper * shortPerLong else maxBitsper, info.reservoirBits, info.DesiredFill());
    }

    lemma LevelIn()
      requires Valid() && managed
      ensures 0 <= minmaxReservoir <= info.reservoirBits && info.reservoirBits > 0 && info.Valid()
    {
      hide Rint, Steady, LevelBefore, Info.Bitsper, Info.DesiredFill, Info.Valid;
      LevelInside(info.reservoirBits, info.DesiredFill(), run, |run|);
    }

    /** Update the level for a packet of `bits`. */
    method Account(t: Targets, bits: nat)
      requires Valid() && managed && t.Valid() && t.reservoir == info.reservoirBits && Fits(t, minmaxReservoir, bits)
      requires t == TargetsFor(info, false) || t == TargetsFor(info, true)
      modifies `minmaxReservoir, `run
      ensures Valid() && minmaxReservoir == NextLevel(t, old(minmaxReservoir), bits)
      ensures run == old(run) + [Entry(t, bits, minmaxReservoir)]
    {
      hide Rint, Steady, Info.Bitsper, Info.DesiredFill, Info.Valid, Targets.Valid, Fits;
      LevelIn();
      LevelStep(t, minmaxReservoir, bits);
      ghost var f := minmaxReservoir;
      var level := minmaxReservoir;
      if t.min > 0 || t.max > 0 {
        if t.max > 0 && bits > t.max {
          level := level + (bits - t.max);
        } else if t.min > 0 && bits < t.min {
          level := level + (bits - t.min);
        } else if level > t.desired {
          if t.max > 0 {
            level := level + (bits - t.max);
            if level < t.desired {
              level := t.desired;
            }
          } else {
            level := t.desired;
          }
        } else if t.min > 0 {
          level := level + (bits - t.min);
          if level > t.desired {
            level := t.desired;
          }
        } else {
          level := t.desired;
        }
      }
      Extend(info.reservoirBits, info.DesiredFill(), run, Entry(t, bits, level), f);
      minmaxReservoir := level;
      run := run + [Entry(t, bits, level)];
    }

    /** Let the floater drift, if there is an average to keep. */
    method Look(block: EncodedBlock) returns (from: int)
      requires Valid() && managed && block.packetblob.Length == PACKETBLOBS
      modifies `avgfloat
      ensures Valid() && from == Rint(avgfloat) && 0 <= from < PACKETBLOBS
      ensures Follows(old(avgfloat), avgReservoir, block.packetblob[..], block.W)
    {
      hide Rint, Steady, LevelBefore, Info.Bitsper, Info.DesiredFill, Info.Valid;
      from := Rint(avgfloat);
      RintInRange(avgfloat);
      if avgBitsper > 0 {
        SlewSane(info);
        avgfloat, from := Drift(avgfloat, block.packetblob[..], AvgTarget(block.W), avgReservoir, info.DesiredFill(),
                                Samples(block.W), info.rate, info.slewDamp);
      }
    }

    /** One entry is added to the run: the bits of the chosen candidate, which alone may have been resized. */
    ghost predicate Emits(was: seq<Entry>, f: int, blobs: seq<seq<bool>>, block: EncodedBlock)
      reads this, block.packetblob
    {
      info.Valid() && choice < PACKETBLOBS == |blobs| == block.packetblob.Length
      && var packet, t := block.packetblob[choice], TargetsFor(info, block.W);
      && Resized(blobs[choice], packet) && block.packetblob[..] == blobs[choice := packet]
      && minmaxReservoir == NextLevel(t, f, Bits(packet)) && Fits(t, f, Bits(packet))
      && run == was + [Entry(t, Bits(packet), minmaxReservoir)]
      && Selected(t, f, blobs, Rint(avgfloat), choice) && Sparing(t, f, blobs[choice], packet)
    }

    /** The floater, if there is an average to keep, has drifted from `avg` as the candidates ask. */
    ghost predicate Follows(avg: real, level: int, blobs: seq<seq<bool>>, w: bool)
      reads this
    {
      info.Valid() && |blobs| == PACKETBLOBS
      && if avgBitsper <= 0 then avgfloat == avg
         else
           SlewSane(info);
           Drifted(avg, avgfloat, blobs, AvgTarget(w), level, info.DesiredFill(), Samples(w), info.rate, info.slewDamp)
    }

    /** If the floater's own candidate fits, it goes out as it is. */
    ghost predicate Kept(f: int, blobs: seq<seq<bool>>, block: EncodedBlock)
      reads this, block.packetblob
    {
      info.Valid() && 0 <= Rint(avgfloat) < |blobs|
      && (Fits(TargetsFor(info, block.W), f, Bits(blobs[Rint(avgfloat)])) ==>
            choice == Rint(avgfloat) && block.packetblob[..] == blobs)
    }

    function Samples(w: bool): (n: int)
      requires info.Valid()
      reads this
      ensures n > 0
    {
      SlewSane(info);
      (if w then info.long else info.short) / 2
    }

    /** Hand out the packet settled on, once. */
    method FlushPacket() returns (op: OggPacket)
      requires Valid()
      modifies `vb
      ensures Valid() && vb == null
      ensures old(vb) == null ==> op == NoPacket
      ensures old(vb) != null ==>
        var block := old(vb);
        op == OggPacket(block.packetblob[if managed then choice else PACKETBLOBS / 2], block.eofflag,
                        block.granulepos, block.sequence)
    {
      hide Rint, Steady, LevelBefore, Info.Valid, Info.Bitsper, Info.DesiredFill;
      if vb == null {
        return NoPacket;
      }
      var which: nat := PACKETBLOBS / 2;
      if managed {
        which := choice;
      }
      op := OggPacket(vb.packetblob[which], vb.eofflag, vb.granulepos, vb.sequence);
      vb := null;
    }

    /** What the run has emitted, over any stretch of it: within a reservoir of the targets. */
    lemma EveryWindow(i: nat, j: nat)
      requires Valid() && managed && i <= j <= |run|
      ensures (forall k :: i <= k < j ==> run[k].t.max > 0) ==>
        SumBits(run, i, j) <= SumMax(run, i, j) + info.reservoirBits
      ensures (forall k :: i <= k < j ==> run[k].t.min > 0) ==>
        SumMin(run, i, j) - info.reservoirBits <= SumBits(run, i, j)
    {
      hide Rint, Info.Valid, Info.Bitsper, Info.DesiredFill, SumBits, SumMax, SumMin, Steady;
      WindowBound(info.reservoirBits, info.DesiredFill(), run, i, j);
    }

    /** The bits a block should have on average are the configured average rate's. */
    lemma AveragePays(w: bool)
      requires Valid() && managed
      ensures PaysFor(info, AvgTarget(w), info.avgRate, if w then info.ShortPerLong() else 1)
    {
      hide Rint, Steady, LevelBefore, Info.Bitsper, Info.DesiredFill, PaysFor, TargetsFor;
      BitsperNear(info, info.avgRate);
      TargetsPay(info, w);
      PaysForMore(info, avgBitsper, info.avgRate, info.ShortPerLong());
    }

    /** Over any stretch of the run between the limits, the level comes back to the desired one as fast as the blocks
        leave room. */
    lemma EveryReturn(i: nat, j: nat)
      requires Valid() && managed && i <= j <= |run|
      requires forall k :: i <= k < j ==> Between(run[k].t, run[k].bits)
      ensures var d, from := info.DesiredFill(), LevelBefore(info.DesiredFill(), run, i);
        && (from >= d && (forall k :: i <= k < j ==> run[k].t.max > 0) ==>
              var left := from - (SumMax(run, i, j) - SumBits(run, i, j));
              LevelBefore(d, run, j) == if left < d then d else left)
        && (from <= d && (forall k :: i <= k < j ==> run[k].t.min > 0) ==>
              var filled := from + (SumBits(run, i, j) - SumMin(run, i, j));
              LevelBefore(d, run, j) == if filled > d then d else filled)
    {
      hide Rint, Info.Bitsper, Info.DesiredFill, SumBits, SumMax, SumMin, Steady, LevelBefore, Between, Info.Valid;
      Leaks(info.reservoirBits, info.DesiredFill(), run, i, j, info.DesiredFill());
    }
  }
}
