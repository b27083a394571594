/** Channel coupling: a pair of channels as magnitude and angle, step after step, and back
    (section 4.3.5 of the Vorbis I specification). */
module Coupling {
  import opened BitMath

  datatype Pair = Pair(first: int, second: int)

  /** The lossless step before equivalent tuples are collapsed: magnitude and angle. */
  function Polar(a: int, b: int): Pair
  {
    if Abs(a) > Abs(b) then Pair(a, if a > 0 then a - b else b - a)
    else Pair(b, if b > 0 then a - b else b - a)
  }

  /** The whole step. */
  function Couple(a: int, b: int): Pair
  {
    var p := Polar(a, b);
    if p.second >= Abs(p.first) * 2 then Pair(-p.first, -p.second) else p
  }

  function Decouple(mag: int, ang: int): Pair
  {
    if mag > 0 then
      if ang > 0 then Pair(mag, mag - ang) else Pair(mag + ang, mag)
    else
      if ang > 0 then Pair(mag, mag + ang) else Pair(mag - ang, mag)
  }

  /** The angle stays below twice the magnitude. */
  lemma PolarRange(a: int, b: int)
    ensures var p := Polar(a, b); -2 * Abs(p.first) <= p.second
    ensures var p := Polar(a, b); if a == 0 && b == 0 then p == Pair(0, 0) else p.second < 2 * Abs(p.first)
  {
  }

  /** The collapse finds nothing to collapse: it is reached for two zeros only, and leaves them. */
  lemma CollapseIdle(a: int, b: int)
    ensures Couple(a, b) == Polar(a, b)
    ensures Polar(a, b).second >= Abs(Polar(a, b).first) * 2 <==> a == 0 && b == 0
  {
    hide Polar;
    PolarRange(a, b);
  }

  lemma DecoupleCouple(a: int, b: int)
    ensures Decouple(Couple(a, b).first, Couple(a, b).second) == Pair(a, b)
  {
    hide Couple;
    CollapseIdle(a, b);
  }

  /** The other way round, a magnitude and an angle come back exactly when the angle is in the range the
      encoder uses. */
  lemma CoupleDecouple(mag: int, ang: int)
    ensures var p := Decouple(mag, ang);
      Couple(p.first, p.second) == Pair(mag, ang) <==> -2 * Abs(mag) <= ang < 2 * Abs(mag) || (mag == 0 && ang == 0)
  {
    hide Couple;
    var p := Decouple(mag, ang);
    CollapseIdle(p.first, p.second);
  }

  // ---------------------------------------------------------------------------------------------
  // All steps, on the channels' values at one bin
  // ---------------------------------------------------------------------------------------------

  /** Which channels each step couples: two different ones, shared freely between steps. */
  ghost predicate Steps(mag: seq<nat>, ang: seq<nat>, ch: nat)
  {
    |mag| == |ang| && forall s :: 0 <= s < |mag| ==> mag[s] < ch && ang[s] < ch && mag[s] != ang[s]
  }

  function CoupleAt(col: seq<int>, m: nat, a: nat): (r: seq<int>)
    requires m < |col| && a < |col|
    ensures |r| == |col|
  {
    col[m := Couple(col[m], col[a]).first][a := Couple(col[m], col[a]).second]
  }

  function DecoupleAt(col: seq<int>, m: nat, a: nat): (r: seq<int>)
    requires m < |col| && a < |col|
    ensures |r| == |col|
  {
    col[m := Decouple(col[m], col[a]).first][a := Decouple(col[m], col[a]).second]
  }

  /** What a coupled pair says: the magnitude is the sample of larger size; a positive angle says that it is the
      magnitude channel's own, any other that it is the angle channel's; and the angle's size is the difference of the
      two. */
  lemma CoupleMeaning(col: seq<int>, m: nat, a: nat)
    requires m < |col| && a < |col| && m != a
    ensures var r := CoupleAt(col, m, a);
      && (r[a] > 0 <==> Abs(col[m]) > Abs(col[a])) && r[m] == (if r[a] > 0 then col[m] else col[a])
      && Abs(r[a]) == Abs(col[m] - col[a])
      && forall c :: 0 <= c < |col| && c != m && c != a ==> r[c] == col[c]
  {
    hide Couple;
    CollapseIdle(col[m], col[a]);
  }

  /** And what the decoder makes of any pair, whether an encoder wrote it or not: the channel that the angle's sign
      names has the magnitude, and the other is off it by the angle's size, downward from a positive magnitude and
      upward from any other. */
  lemma DecoupleMeaning(col: seq<int>, m: nat, a: nat)
    requires m < |col| && a < |col| && m != a
    ensures var r := DecoupleAt(col, m, a);
      var larger, other := if col[a] > 0 then r[m] else r[a], if col[a] > 0 then r[a] else r[m];
      && larger == col[m] && Abs(col[a]) == (if col[m] > 0 then larger - other else other - larger)
      && forall c :: 0 <= c < |col| && c != m && c != a ==> r[c] == col[c]
  {
  }

  /** The first step comes first in the encoder and last in the decoder. */
  lemma {:induction false} FirstCoupled(col: seq<int>, mag: seq<nat>, ang: seq<nat>, k: nat)
    requires Steps(mag, ang, |col|) && 0 < k <= |mag|
    ensures Coupled(col, mag, ang, k) == Coupled(CoupleAt(col, mag[0], ang[0]), mag[1..], ang[1..], k - 1)
  {
    hide CoupleAt;
    if k > 1 {
      FirstCoupled(col, mag, ang, k - 1);
    }
  }

  lemma LastDecoupled(col: seq<int>, mag: seq<nat>, ang: seq<nat>)
    requires Steps(mag, ang, |col|) && |mag| > 0
    ensures Decoupled(col, mag, ang, 0) == DecoupleAt(Decoupled(col, mag[1..], ang[1..], 0), mag[0], ang[0])
  {
    hide DecoupleAt;
    LastTail(col, mag, ang, 1);
  }

  lemma {:induction false} LastTail(col: seq<int>, mag: seq<nat>, ang: seq<nat>, k: nat)
    requires Steps(mag, ang, |col|) && 0 < k <= |mag|
    ensures Decoupled(col, mag, ang, k) == Decoupled(col, mag[1..], ang[1..], k - 1)
    decreases |mag| - k
  {
    hide DecoupleAt;
    if k < |mag| {
      LastTail(col, mag, ang, k + 1);
    }
  }

  lemma StepInverts(col: seq<int>, m: nat, a: nat)
    requires m < |col| && a < |col| && m != a
    ensures DecoupleAt(CoupleAt(col, m, a), m, a) == col
  {
    DecoupleCouple(col[m], col[a]);
  }

  /** After the first `k` steps, in order. */
  function Coupled(col: seq<int>, mag: seq<nat>, ang: seq<nat>, k: nat): (r: seq<int>)
    requires Steps(mag, ang, |col|) && k <= |mag|
    ensures |r| == |col|
  {
    if k == 0 then col else CoupleAt(Coupled(col, mag, ang, k - 1), mag[k - 1], ang[k - 1])
  }

  /** After undoing steps from the last down to step `k`. */
  function Decoupled(col: seq<int>, mag: seq<nat>, ang: seq<nat>, k: nat): (r: seq<int>)
    requires Steps(mag, ang, |col|) && k <= |mag|
    ensures |r| == |col|
    decreases |mag| - k
  {
    if k == |mag| then col else DecoupleAt(Decoupled(col, mag, ang, k + 1), mag[k], ang[k])
  }

  lemma {:induction false} Unwound(col: seq<int>, mag: seq<nat>, ang: seq<nat>, k: nat)
    requires Steps(mag, ang, |col|) && k <= |mag|
    ensures Decoupled(Coupled(col, mag, ang, |mag|), mag, ang, k) == Coupled(col, mag, ang, k)
    decreases |mag| - k
  {
    hide CoupleAt, DecoupleAt;
    if k < |mag| {
      Unwound(col, mag, ang, k + 1);
      StepInverts(Coupled(col, mag, ang, k), mag[k], ang[k]);
    }
  }

  /** Running the decoder's steps in reverse restores every channel, however the steps share channels. */
  lemma CouplingInverts(col: seq<int>, mag: seq<nat>, ang: seq<nat>)
    requires Steps(mag, ang, |col|)
    ensures Decoupled(Coupled(col, mag, ang, |mag|), mag, ang, 0) == col
  {
    Unwound(col, mag, ang, 0);
  }

  // ---------------------------------------------------------------------------------------------
  // Silent channels
  // ---------------------------------------------------------------------------------------------

  /** The values at one bin, those of silent channels cleared. */
  function Silenced(col: seq<int>, nonzero: seq<bool>): (r: seq<int>)
    requires |nonzero| == |col|
    ensures |r| == |col|
  {
    seq(|col|, c requires 0 <= c < |col| => if nonzero[c] then col[c] else 0)
  }

  /** Which channels may hold something after the first `k` steps. */
  function Woken(nonzero: seq<bool>, mag: seq<nat>, ang: seq<nat>, k: nat): (r: seq<bool>)
    requires Steps(mag, ang, |nonzero|) && k <= |mag|
    ensures |r| == |nonzero|
  {
    if k == 0 then nonzero
    else
      var w, m, a := Woken(nonzero, mag, ang, k - 1), mag[k - 1], ang[k - 1];
      if w[m] || w[a] then w[m := true][a := true] else w
  }

  ghost predicate Quiet(col: seq<int>, nz: seq<bool>)
  {
    |nz| == |col| && forall c :: 0 <= c < |col| && !nz[c] ==> col[c] == 0
  }

  /** A channel that no step has woken is still silent. */
  lemma {:induction false} SilentStays(col: seq<int>, nonzero: seq<bool>, mag: seq<nat>, ang: seq<nat>, k: nat)
    requires |nonzero| == |col| && Steps(mag, ang, |col|) && k <= |mag| && Quiet(col, nonzero)
    ensures Quiet(Coupled(col, mag, ang, k), Woken(nonzero, mag, ang, k))
  {
    hide CoupleAt, Quiet;
    if k > 0 {
      SilentStays(col, nonzero, mag, ang, k - 1);
      QuietStep(Coupled(col, mag, ang, k - 1), Woken(nonzero, mag, ang, k - 1), mag[k - 1], ang[k - 1]);
    }
  }

  lemma QuietStep(col: seq<int>, w: seq<bool>, m: nat, a: nat)
    requires Quiet(col, w) && m < |col| && a < |col|
    ensures Quiet(CoupleAt(col, m, a), if w[m] || w[a] then w[m := true][a := true] else w)
    ensures !w[m] && !w[a] ==> CoupleAt(col, m, a) == col
  {
    hide Couple;
    BothSilent();
  }

  lemma BothSilent()
    ensures Couple(0, 0) == Pair(0, 0)
  {
  }

  /** So a pair that is still silent can be passed over. */
  lemma SilentPair(col: seq<int>, nonzero: seq<bool>, mag: seq<nat>, ang: seq<nat>, k: nat)
    requires |nonzero| == |col| && Steps(mag, ang, |col|) && k < |mag| && Quiet(col, nonzero)
    requires var w := Woken(nonzero, mag, ang, k); !w[mag[k]] && !w[ang[k]]
    ensures Coupled(col, mag, ang, k + 1) == Coupled(col, mag, ang, k)
  {
    hide CoupleAt, Quiet;
    SilentStays(col, nonzero, mag, ang, k);
    QuietStep(Coupled(col, mag, ang, k), Woken(nonzero, mag, ang, k), mag[k], ang[k]);
  }

  lemma SilencedQuiet(col: seq<int>, nonzero: seq<bool>)
    requires |nonzero| == |col|
    ensures Quiet(Silenced(col, nonzero), nonzero)
  {
  }

  // ---------------------------------------------------------------------------------------------
  // The loops
  // ---------------------------------------------------------------------------------------------

  ghost predicate Channels(vecs: seq<array<int>>, n: nat)
  {
    && (forall i :: 0 <= i < |vecs| ==> vecs[i].Length == n)
    && forall i, j :: 0 <= i < j < |vecs| ==> vecs[i] != vecs[j]
  }

  /** The channels' values at bin `x`. */
  ghost function Column(vecs: seq<array<int>>, x: nat): (col: seq<int>)
    requires forall i :: 0 <= i < |vecs| ==> x < vecs[i].Length
    reads vecs
    ensures |col| == |vecs|
  {
    seq(|vecs|, i requires 0 <= i < |vecs| reads vecs => vecs[i][x])
  }

  ghost function Columns(vecs: seq<array<int>>, n: nat): (cols: seq<seq<int>>)
    requires Channels(vecs, n)
    reads vecs
    ensures |cols| == n && forall x :: 0 <= x < n ==> cols[x] == Column(vecs, x)
  {
    seq(n, x requires 0 <= x < n && Channels(vecs, n) reads vecs => Column(vecs, x))
  }

  /** One lossless step at one bin of a pair of channels. */
  method CouplePair(iM: array<int>, iA: array<int>, x: nat)
    requires iM != iA && x < iM.Length && x < iA.Length
    modifies iM, iA
    ensures iM[..] == old(iM[..])[x := Couple(old(iM[x]), old(iA[x])).first]
    ensures iA[..] == old(iA[..])[x := Couple(old(iM[x]), old(iA[x])).second]
  {
    hide Couple;
    CoupleIs(iM[x], iA[x]);
    var a, b := iM[x], iA[x];
    if Abs(a) > Abs(b) {
      iA[x] := if a > 0 then a - b else b - a;
    } else {
      iA[x] := if b > 0 then a - b else b - a;
      iM[x] := b;
    }
    if iA[x] >= Abs(iM[x]) * 2 {
      iA[x] := -iA[x];
      iM[x] := -iM[x];
    }
  }

  lemma CoupleIs(a: int, b: int)
    ensures var p := Polar(a, b); Couple(a, b) == if p.second >= Abs(p.first) * 2 then Pair(-p.first, -p.second) else p
  {
  }

  /** One step of the decoder at one bin of a pair of channels. */
  method DecouplePair(pcmM: array<int>, pcmA: array<int>, x: nat)
    requires pcmM != pcmA && x < pcmM.Length && x < pcmA.Length
    modifies pcmM, pcmA
    ensures pcmM[..] == old(pcmM[..])[x := Decouple(old(pcmM[x]), old(pcmA[x])).first]
    ensures pcmA[..] == old(pcmA[..])[x := Decouple(old(pcmM[x]), old(pcmA[x])).second]
  {
    var mag, ang := pcmM[x], pcmA[x];
    if mag > 0 {
      if ang > 0 {
        pcmM[x] := mag;
        pcmA[x] := mag - ang;
      } else {
        pcmA[x] := mag;
        pcmM[x] := mag + ang;
      }
    } else {
      if ang > 0 {
        pcmM[x] := mag;
        pcmA[x] := mag + ang;
      } else {
        pcmA[x] := mag;
        pcmM[x] := mag - ang;
      }
    }
  }

  method CoupleBin(vecs: seq<array<int>>, n: nat, m: nat, a: nat, x: nat)
    requires Channels(vecs, n) && m < |vecs| && a < |vecs| && m != a && x < n
    modifies vecs[m], vecs[a]
    ensures Column(vecs, x) == CoupleAt(old(Column(vecs, x)), m, a)
    ensures forall y :: 0 <= y < n && y != x ==> Column(vecs, y) == old(Column(vecs, y))
  {
    hide Couple;
    CouplePair(vecs[m], vecs[a], x);
  }

  method DecoupleBin(vecs: seq<array<int>>, n: nat, m: nat, a: nat, x: nat)
    requires Channels(vecs, n) && m < |vecs| && a < |vecs| && m != a && x < n
    modifies vecs[m], vecs[a]
    ensures Column(vecs, x) == DecoupleAt(old(Column(vecs, x)), m, a)
    ensures forall y :: 0 <= y < n && y != x ==> Column(vecs, y) == old(Column(vecs, y))
  {
    hide Decouple;
    DecouplePair(vecs[m], vecs[a], x);
  }

  /** One step over the bins of one partition. */
  method CoupleStep(vecs: seq<array<int>>, n: nat, mag: seq<nat>, ang: seq<nat>, step: nat, i: nat, jn: nat,
                    ghost cols: seq<seq<int>>)
    requires Channels(vecs, n) && step < |mag| == |ang| && mag[step] < |vecs| && ang[step] < |vecs|
    requires mag[step] != ang[step] && i + jn <= n == |cols|
    requires forall x :: 0 <= x < n ==> Steps(mag, ang, |cols[x]|)
    requires forall x :: i <= x < i + jn ==> Column(vecs, x) == Coupled(cols[x], mag, ang, step)
    modifies vecs
    ensures forall x :: i <= x < i + jn ==> Column(vecs, x) == Coupled(cols[x], mag, ang, step + 1)
    ensures forall x :: 0 <= x < n && !(i <= x < i + jn) ==> Column(vecs, x) == old(Column(vecs, x))
  {
    hide Coupled, CoupleAt, Column, Steps;
    var j := 0;
    while j < jn
      invariant 0 <= j <= jn
      invariant forall x :: i <= x < i + j ==> Column(vecs, x) == Coupled(cols[x], mag, ang, step + 1)
      invariant forall x :: 0 <= x < n && !(i <= x < i + j) ==> Column(vecs, x) == old(Column(vecs, x))
    {
      CoupleBin(vecs, n, mag[step], ang[step], i + j);
      CoupledNext(cols[i + j], mag, ang, step);
      j := j + 1;
    }
  }

  /** Clear the bins of silent channels in one partition. */
  method SilenceBins(vecs: seq<array<int>>, n: nat, nonzero: seq<bool>, i: nat, jn: nat)
    requires Channels(vecs, n) && |nonzero| == |vecs| && i + jn <= n
    modifies vecs
    ensures forall x :: i <= x < i + jn ==> Column(vecs, x) == Silenced(old(Column(vecs, x)), nonzero)
    ensures forall x :: 0 <= x < n && !(i <= x < i + jn) ==> Column(vecs, x) == old(Column(vecs, x))
  {
    for k := 0 to |vecs|
      invariant forall c, x :: 0 <= c < |vecs| && 0 <= x < n ==>
        vecs[c][x] == if c < k && !nonzero[c] && i <= x < i + jn then 0 else old(vecs[c][x])
    {
      if !nonzero[k] {
        for j := 0 to jn
          invariant forall c, x :: 0 <= c < |vecs| && 0 <= x < n ==>
            vecs[c][x] == if (c < k && !nonzero[c] && i <= x < i + jn) || (c == k && i <= x < i + j) then 0
                          else old(vecs[c][x])
        {
          vecs[k][i + j] := 0;
        }
      }
    }
  }

  /** The encoder's loops: partition by partition, step by step, bin by bin. Silent channels are cleared, and
      pairs that are still silent passed over. */
  method CoupleAll(vecs: seq<array<int>>, n: nat, mag: seq<nat>, ang: seq<nat>, partition: nat, nonzero: seq<bool>)
      returns (after: seq<bool>)
    requires Channels(vecs, n) && Steps(mag, ang, |vecs|) && partition > 0 && |nonzero| == |vecs|
    modifies vecs
    ensures forall x :: 0 <= x < n ==>
      Column(vecs, x) == Coupled(Silenced(old(Column(vecs, x)), nonzero), mag, ang, |mag|)
    ensures after == Woken(nonzero, mag, ang, |mag|)
    ensures forall x :: 0 <= x < n ==> Quiet(Column(vecs, x), after)
  {
    hide Coupled, CoupleAt, Column, Steps, Silenced, Quiet, Woken;
    ghost var given := Columns(vecs, n);
    ghost var cols := seq(n, x requires 0 <= x < n => Silenced(given[x], nonzero));
    var i := 0;
    while i < n
      invariant 0 <= i
      invariant forall x :: 0 <= x < n && x < i ==> Column(vecs, x) == Coupled(cols[x], mag, ang, |mag|)
      invariant forall x :: i <= x < n ==> Column(vecs, x) == given[x]
    {
      var jn := if partition > n - i then n - i else partition;
      CouplePartition(vecs, n, mag, ang, i, jn, nonzero, cols, given);
      i := i + partition;
    }
    after := WakePairs(nonzero, mag, ang);
    forall x | 0 <= x < n
      ensures Quiet(Column(vecs, x), after)
    {
      SilencedQuiet(given[x], nonzero);
      SilentStays(cols[x], nonzero, mag, ang, |mag|);
    }
  }

  method CouplePartition(vecs: seq<array<int>>, n: nat, mag: seq<nat>, ang: seq<nat>, i: nat, jn: nat,
                         nonzero: seq<bool>, ghost cols: seq<seq<int>>, ghost given: seq<seq<int>>)
    requires Channels(vecs, n) && Steps(mag, ang, |vecs|) && |nonzero| == |vecs| && i + jn <= n == |cols| == |given|
    requires forall x :: 0 <= x < n ==> |cols[x]| == |vecs|
    requires forall x :: 0 <= x < n ==> |given[x]| == |vecs| && cols[x] == Silenced(given[x], nonzero)
    requires forall x :: i <= x < n ==> Column(vecs, x) == given[x]
    modifies vecs
    ensures forall x :: i <= x < i + jn ==> Column(vecs, x) == Coupled(cols[x], mag, ang, |mag|)
    ensures forall x :: 0 <= x < n && !(i <= x < i + jn) ==> Column(vecs, x) == old(Column(vecs, x))
  {
    hide Coupled, CoupleAt, Column, Steps, Silenced, Quiet;
    SilenceBins(vecs, n, nonzero, i, jn);
    StartPartition(cols, mag, ang, i, i + jn);
    var nz := nonzero;
    var step := 0;
    while step < |mag|
      invariant 0 <= step <= |mag| && nz == Woken(nonzero, mag, ang, step)
      invariant forall x :: i <= x < i + jn ==> Column(vecs, x) == Coupled(cols[x], mag, ang, step)
      invariant forall x :: 0 <= x < n && !(i <= x < i + jn) ==> Column(vecs, x) == old(Column(vecs, x))
    {
      StepChannels(mag, ang, |vecs|, step);
      if nz[mag[step]] || nz[ang[step]] {
        nz := nz[mag[step] := true][ang[step] := true];
        CoupleStep(vecs, n, mag, ang, step, i, jn, cols);
      } else {
        forall x | i <= x < i + jn
          ensures Coupled(cols[x], mag, ang, step + 1) == Coupled(cols[x], mag, ang, step)
        {
          SilencedQuiet(given[x], nonzero);
          SilentPair(cols[x], nonzero, mag, ang, step);
        }
      }
      step := step + 1;
    }
  }

  /** A silent channel that is coupled with one that is not wakes up. */
  method WakePairs(nonzero: seq<bool>, mag: seq<nat>, ang: seq<nat>) returns (after: seq<bool>)
    requires Steps(mag, ang, |nonzero|)
    ensures after == Woken(nonzero, mag, ang, |mag|)
  {
    after := nonzero;
    for i := 0 to |mag|
      invariant after == Woken(nonzero, mag, ang, i)
    {
      if after[mag[i]] || after[ang[i]] {
        after := after[mag[i] := true][ang[i] := true];
      }
    }
  }

  lemma StartPartition(cols: seq<seq<int>>, mag: seq<nat>, ang: seq<nat>, from: nat, upto: nat)
    requires upto <= |cols| && forall x :: from <= x < upto ==> Steps(mag, ang, |cols[x]|)
    ensures forall x :: from <= x < upto ==> Coupled(cols[x], mag, ang, 0) == cols[x]
  {
  }

  lemma StepChannels(mag: seq<nat>, ang: seq<nat>, ch: nat, s: nat)
    requires Steps(mag, ang, ch) && s < |mag|
    ensures |ang| == |mag| && mag[s] < ch && ang[s] < ch && mag[s] != ang[s]
  {
  }

  lemma CoupledNext(col: seq<int>, mag: seq<nat>, ang: seq<nat>, s: nat)
    requires Steps(mag, ang, |col|) && s < |mag|
    ensures mag[s] < |col| && ang[s] < |col|
    ensures Coupled(col, mag, ang, s + 1) == CoupleAt(Coupled(col, mag, ang, s), mag[s], ang[s])
  {
  }

  /** The decoder's loops: steps in reverse, every bin. */
  method DecoupleAll(vecs: seq<array<int>>, n: nat, mag: seq<nat>, ang: seq<nat>)
    requires Channels(vecs, n) && Steps(mag, ang, |vecs|)
    modifies vecs
    ensures forall x :: 0 <= x < n ==> Column(vecs, x) == Decoupled(old(Column(vecs, x)), mag, ang, 0)
  {
    hide Decoupled, DecoupleAt, Column, Steps;
    ghost var cols := Columns(vecs, n);
    StartSteps(cols, mag, ang);
    var i := |mag|;
    while i > 0
      invariant 0 <= i <= |mag|
      invariant forall x :: 0 <= x < n ==> Column(vecs, x) == Decoupled(cols[x], mag, ang, i)
    {
      StepChannels(mag, ang, |vecs|, i - 1);
      var j := 0;
      while j < n
        invariant 0 <= j <= n
        invariant forall x :: 0 <= x < j ==> Column(vecs, x) == Decoupled(cols[x], mag, ang, i - 1)
        invariant forall x :: j <= x < n ==> Column(vecs, x) == Decoupled(cols[x], mag, ang, i)
      {
        DecoupleBin(vecs, n, mag[i - 1], ang[i - 1], j);
        DecoupledNext(cols[j], mag, ang, i - 1);
        j := j + 1;
      }
      i := i - 1;
    }
  }

  lemma StartSteps(cols: seq<seq<int>>, mag: seq<nat>, ang: seq<nat>)
    requires forall x :: 0 <= x < |cols| ==> Steps(mag, ang, |cols[x]|)
    ensures forall x :: 0 <= x < |cols| ==> Decoupled(cols[x], mag, ang, |mag|) == cols[x]
  {
  }

  lemma DecoupledNext(col: seq<int>, mag: seq<nat>, ang: seq<nat>, s: nat)
    requires Steps(mag, ang, |col|) && s < |mag|
    ensures mag[s] < |col| && ang[s] < |col|
    ensures Decoupled(col, mag, ang, s) == DecoupleAt(Decoupled(col, mag, ang, s + 1), mag[s], ang[s])
  {
  }

  /** What the encoder coupled, the decoder uncouples: every sample of every channel is restored, and the
      silent ones are silent. */
  method CoupleAndBack(vecs: seq<array<int>>, n: nat, mag: seq<nat>, ang: seq<nat>, partition: nat,
                       nonzero: seq<bool>) returns (after: seq<bool>)
    requires Channels(vecs, n) && Steps(mag, ang, |vecs|) && partition > 0 && |nonzero| == |vecs|
    modifies vecs
    ensures forall c, x :: 0 <= c < |vecs| && 0 <= x < n ==> vecs[c][x] == if nonzero[c] then old(vecs[c][x]) else 0
  {
    ghost var cols := Columns(vecs, n);
    after := CoupleAll(vecs, n, mag, ang, partition, nonzero);
    DecoupleAll(vecs, n, mag, ang);
    forall x | 0 <= x < n
      ensures Column(vecs, x) == Silenced(cols[x], nonzero)
    {
      CouplingInverts(Silenced(cols[x], nonzero), mag, ang);
    }
    forall c, x | 0 <= c < |vecs| && 0 <= x < n
      ensures vecs[c][x] == if nonzero[c] then old(vecs[c][x]) else 0
    {
      assert Column(vecs, x)[c] == Silenced(cols[x], nonzero)[c];
    }
  }
}
