/** `_make_words`: codewords from codeword lengths. */
module SharedBook {
  import opened BitMath
  import opened CodeTree
  import Markers

  // ---------------------------------------------------------------------------------------------
  // The two marker passes, as functions of the marker cells
  // ---------------------------------------------------------------------------------------------

  /** Step up from a node that was just taken: bump markers until one has to jump branches. */
  function Claim(m: seq<nat>, j: nat): (r: seq<nat>)
    requires |m| == 33 && j <= 32
    ensures |r| == 33
    decreases j
  {
    if j == 0 then m
    else if m[j] % 2 == 1 then m[j := if j == 1 then (m[1] + 1) % WORD else (2 * m[j - 1]) % WORD]
    else Claim(m[j := (m[j] + 1) % WORD], j - 1)
  }

  /** Step down: markers that dangled from the taken node `entry` dangle from the new one. */
  function Prune(m: seq<nat>, j: nat, entry: nat): (r: seq<nat>)
    requires |m| == 33 && 1 <= j <= 33
    ensures |r| == 33
    decreases 33 - j
  {
    if j == 33 || m[j] / 2 != entry then m
    else Prune(m[j := (2 * m[j - 1]) % WORD], j + 1, m[j])
  }

  /** The 32-bit cells hold marker state `m`; only the deepest cell can overflow. */
  ghost predicate Holds(cells: seq<nat>, m: seq<nat>)
  {
    && |cells| == 33 && |m| == 33 && cells[32] == m[32] % WORD
    && forall j :: 1 <= j <= 31 ==> cells[j] == m[j]
  }

  lemma {:induction false} ClaimIs(m: seq<nat>, j: nat, d: nat)
    requires |m| == 33 && d <= j <= 32 && (d > 0 ==> m[d] % 2 == 1)
    requires forall i :: d < i <= j ==> m[i] % 2 == 0 && m[i] + 1 < WORD
    requires d == 1 ==> m[1] + 1 < WORD
    ensures var r := Claim(m, j);
      && (forall i :: 0 <= i <= 32 && (i < d || i > j) ==> r[i] == m[i])
      && (forall i :: d < i <= j ==> r[i] == m[i] + 1)
      && r[d] == (if d == 0 then m[0] else if d == 1 then m[1] + 1 else (2 * m[d - 1]) % WORD)
    decreases j
  {
    if d < j {
      SmallMod(m[j] + 1);
      var n := m[j := m[j] + 1];
      assert Claim(m, j) == Claim(n, j - 1);
      hide Claim;
      ClaimIs(n, j - 1, d);
    } else if d == 1 {
      SmallMod(m[1] + 1);
    }
  }

  /** Cell `i` is the cell above it, shifted left in 32 bits. */
  ghost predicate Shifted(p: seq<nat>, i: nat)
    requires |p| == 33 && 1 <= i <= 32
  {
    p[i] == (2 * p[i - 1]) % WORD
  }

  /** Cell `i` marks a child of the node marked by the cell above it. */
  ghost predicate Dangles(m: seq<nat>, i: nat)
    requires |m| == 33 && 1 <= i <= 32
  {
    m[i] / 2 == m[i - 1]
  }

  lemma {:induction false} PruneIs(m: seq<nat>, j: nat, entry: nat, e: nat)
    requires |m| == 33 && 1 <= j <= e <= 33
    requires j < e ==> m[j] / 2 == entry
    requires forall i :: j < i < e ==> Dangles(m, i)
    requires e < 33 ==> if e == j then m[e] / 2 != entry else !Dangles(m, e)
    ensures var r := Prune(m, j, entry);
      && (forall i :: 0 <= i <= 32 && (i < j || i >= e) ==> r[i] == m[i])
      && (forall i :: j <= i < e ==> Shifted(r, i))
    decreases 33 - j
  {
    if j < e {
      var n := m[j := (2 * m[j - 1]) % WORD];
      assert j + 1 < e ==> Dangles(m, j + 1);
      forall i | j + 1 < i < e
        ensures Dangles(n, i)
      {
        assert Dangles(m, i);
      }
      assert Prune(m, j, entry) == Prune(n, j + 1, m[j]);
      hide Prune;
      PruneIs(n, j + 1, m[j], e);
    }
  }

  /** The two passes carry out one placement. */
  lemma PassesPlace(cells: seq<nat>, m: seq<nat>, len: nat) returns (r: seq<nat>, d: nat, e: nat)
    requires Markers.Valid(m) && Holds(cells, m) && 1 <= len <= 32 && m[len] < Pow2(len)
    ensures Markers.Placed(m, r, len, d, e)
    ensures Holds(Prune(Claim(cells, len), len + 1, cells[len]), r)
  {
    d, e := Markers.FindBetween(m, len);
    CellsExact(cells, m, len, d, e);
    ClaimIs(cells, len, d);
    PruneReady(m, len, d, e);
    var c := Claim(cells, len);
    ChainsDangle(m, c, len, e);
    PruneIs(c, len + 1, cells[len], e);
    r := Markers.BuildPlaced(m, len, d, e);
    hide Claim, Prune, Dangles;
    PlacedCells(m, r, Prune(c, len + 1, cells[len]), len, d, e);
  }

  lemma ChainsDangle(m: seq<nat>, c: seq<nat>, len: nat, e: nat)
    requires |m| == |c| == 33 && 1 <= len < e <= 33
    requires forall i :: len < i <= 32 ==> c[i] == m[i]
    requires forall i :: len < i < e ==> Dangles(m, i)
    requires e < 33 ==> !Dangles(m, e)
    ensures len + 1 < e ==> c[len + 1] / 2 == m[len]
    ensures forall i :: len + 1 < i < e ==> Dangles(c, i)
    ensures e < 33 ==> if e == len + 1 then c[e] / 2 != m[len] else !Dangles(c, e)
  {
    forall i | len < i < e
      ensures if i == len + 1 then c[i] / 2 == m[len] else Dangles(c, i)
    {
      assert Dangles(m, i);
    }
  }

  /** The cells left by the two passes hold the placed markers. */
  lemma PlacedCells(m: seq<nat>, r: seq<nat>, p: seq<nat>, len: nat, d: nat, e: nat)
    requires Markers.Valid(m) && Markers.Placed(m, r, len, d, e) && |p| == 33
    requires forall i :: 1 <= i <= 32 && (i < d || i >= e) ==> p[i] == m[i] && m[i] < WORD
    requires forall i :: d < i <= len ==> p[i] == m[i] + 1 < WORD
    requires d == 1 ==> p[1] == m[1] + 1
    requires d > 1 ==> p[d] == (2 * m[d - 1]) % WORD
    requires forall i :: len < i < e ==> Shifted(p, i)
    ensures Holds(p, r)
  {
    Markers.PlacedIsValid(m, r, len, d, e);
    if d == 1 {
      assert Markers.Linked(m, 1);
    }
    SmallMarker(r, len);
    forall j | 1 <= j <= 32
      ensures p[j] == r[j] % WORD && (j < 32 ==> r[j] < WORD)
    {
      SmallMarker(r, j);
      if len < j < e {
        PrunedCell(p, r, len, e, j);
      }
    }
  }

  lemma SmallMarker(m: seq<nat>, j: nat)
    requires Markers.Valid(m) && j <= 32
    ensures m[j] <= WORD && (j < 32 ==> 2 * m[j] <= WORD)
  {
    Markers.HasRoom(m, j);
    Pow2Facts();
    if j < 32 {
      Pow2Monotone(j, 31);
    }
  }

  lemma FullIsFull(m: seq<nat>, j: nat)
    requires Markers.Valid(m) && j <= 32 && m[j] < Pow2(j)
    ensures m[32] < WORD
  {
    Pow2Facts();
    Markers.HasRoom(m, 32);
    Markers.HasRoom(m, j);
    if Markers.Above(m, 32) == 0 {
      AboveIsZero(m, j);
    }
  }

  lemma AboveIsZero(m: seq<nat>, j: nat)
    requires |m| == 33 && j <= 32 && Markers.Above(m, 32) == 0
    ensures Markers.Above(m, j) == 0
  {
    var d := Markers.Above(m, j);
  }

  lemma CellsExact(cells: seq<nat>, m: seq<nat>, len: nat, d: nat, e: nat)
    requires Markers.Valid(m) && Holds(cells, m) && Markers.Between(m, len, d, e)
    requires m[len] < Pow2(len)
    ensures forall i :: 1 <= i <= 32 ==> cells[i] == m[i] && m[i] < WORD
    ensures forall i :: d < i <= len ==> m[i] + 1 < WORD
    ensures d == 1 ==> m[1] + 1 < WORD
  {
    Pow2Facts();
    Markers.HasRoom(m, 32);
    Markers.HasRoom(m, len);
    assert m[32] < WORD by {
      Markers.HasRoom(m, d);
      FullIsFull(m, len);
    }
    forall i | 1 <= i <= 32
      ensures cells[i] == m[i] && m[i] < WORD && (d < i <= len || i == 1 ==> m[i] + 1 < WORD)
    {
      SmallMarker(m, i);
    }
  }

  lemma PruneReady(m: seq<nat>, len: nat, d: nat, e: nat)
    requires Markers.Valid(m) && Markers.Between(m, len, d, e)
    ensures forall i :: len < i < e ==> Dangles(m, i)
    ensures e < 33 ==> !Dangles(m, e)
  {
    forall i | len < i < e
      ensures Dangles(m, i)
    {
      assert Markers.Linked(m, i);
    }
    if e < 33 {
      assert Markers.Linked(m, e);
    }
  }

  lemma WrapOnce(x: nat)
    requires 2 * x <= WORD
    ensures x % WORD == x && (2 * (x % WORD)) % WORD == (2 * x) % WORD
  {
  }

  lemma {:induction false} PrunedCell(p: seq<nat>, r: seq<nat>, len: nat, e: nat, j: nat)
    requires |p| == |r| == 33 && Markers.Valid(r) && 1 <= len <= j < e <= 33
    requires p[len] == r[len] % WORD && (len == 32 || r[len] < WORD)
    requires forall i :: len < i < e ==> Markers.Doubles(r, i) && Shifted(p, i)
    ensures p[j] == r[j] % WORD
  {
    if j > len {
      PrunedCell(p, r, len, e, j - 1);
      SmallMarker(r, j - 1);
      WrapOnce(r[j - 1]);
      assert Markers.Doubles(r, j) && Shifted(p, j);
    }
  }

  // ---------------------------------------------------------------------------------------------
  // An overpopulated tree
  // ---------------------------------------------------------------------------------------------

  /** The cells after `k` words of length 32 too many: the deepest cell has wrapped to `k`, and every
      other cell is half of the one below it, rounded up. */
  ghost predicate Overfull(cells: seq<nat>, k: nat)
  {
    && |cells| == 33 && cells[32] == k < 0x100_0000
    && cells[31] == 0x8000_0000 + (k + 1) / 2
    && Halving(cells, 31)
  }

  ghost predicate Halving(cells: seq<nat>, j: nat)
    requires |cells| == 33 && j <= 32
  {
    forall i :: 2 <= i <= j ==> Halved(cells, i)
  }

  ghost predicate Halved(cells: seq<nat>, i: nat)
    requires |cells| == 33 && 1 <= i <= 32
  {
    cells[i - 1] == (cells[i] + 1) / 2
  }

  lemma SmallMod(x: nat)
    requires x < WORD
    ensures x % WORD == x && (WORD + x) % WORD == x
  {
  }

  lemma OddHalf(x: nat)
    requires x % 2 == 1
    ensures 2 * ((x + 1) / 2) == x + 1 && (x + 2) / 2 == (x + 1) / 2 && x / 2 + 1 == (x + 1) / 2
  {
  }

  lemma {:induction false} HalvingClaim(m: seq<nat>, j: nat)
    requires |m| == 33 && 1 <= j <= 31 && Halving(m, j) && m[j] + 1 < WORD
    ensures var r := Claim(m, j);
      Halving(r, j) && r[j] == m[j] + 1 && forall i :: j < i <= 32 ==> r[i] == m[i]
    decreases j
  {
    SmallMod(m[j] + 1);
    if m[j] % 2 == 1 {
      if j > 1 {
        assert Halved(m, j);
        OddHalf(m[j]);
        assert Claim(m, j) == m[j := m[j] + 1];
      }
    } else {
      var n := m[j := m[j] + 1];
      assert Claim(m, j) == Claim(n, j - 1);
      if j > 1 {
        assert Halved(m, j);
        OddHalf(m[j] + 1);
        forall i | 2 <= i <= j - 1
          ensures Halved(n, i)
        {
          assert Halved(m, i);
        }
        HalvingClaim(n, j - 1);
      }
    }
    var r := Claim(m, j);
    forall i | 2 <= i <= j
      ensures Halved(r, i)
    {
      assert Halved(m, i);
    }
  }

  lemma OverfullStep(m: seq<nat>, k: nat)
    requires Overfull(m, k) && k + 1 < 0x100_0000
    ensures Overfull(Claim(m, 32), k + 1)
  {
    var n := m[32 := k + 1];
    OverfullClaims(m, k);
    hide Claim;
    forall i | 2 <= i <= 31
      ensures Halved(n, i)
    {
      assert Halved(m, i);
    }
    if k % 2 == 0 {
      HalvingClaim(n, 31);
    }
  }

  lemma OverfullClaims(m: seq<nat>, k: nat)
    requires |m| == 33 && m[32] == k < 0x100_0000 && k + 1 < 0x100_0000 && m[31] == 0x8000_0000 + (k + 1) / 2
    ensures Claim(m, 32) == if k % 2 == 0 then Claim(m[32 := k + 1], 31) else m[32 := k + 1]
  {
    SmallMod(k + 1);
    if k % 2 == 1 {
      OddHalf(k);
      assert (2 * m[31]) % WORD == k + 1;
    }
  }

  lemma {:induction false} OverfullBlocks(m: seq<nat>, k: nat, j: nat)
    requires Overfull(m, k) && 1 <= j <= 31
    ensures m[j] >= Pow2(j)
    decreases 31 - j
  {
    Pow2Facts();
    if j < 31 {
      OverfullBlocks(m, k, j + 1);
      assert Halved(m, j + 1);
    }
  }

  /** A full tree is the start of an overpopulated one. */
  lemma FullIsOverfull(cells: seq<nat>, m: seq<nat>)
    requires Markers.Valid(m) && Holds(cells, m) && m[32] == WORD
    ensures Overfull(cells, 0)
  {
    Pow2Facts();
    Markers.HasRoom(m, 32);
    forall j | 0 <= j <= 32
      ensures m[j] == Pow2(j)
    {
      AboveIsZero(m, j);
      Markers.HasRoom(m, j);
    }
    forall i | 2 <= i <= 31
      ensures Halved(cells, i)
    {
      assert m[i] == 2 * Pow2(i - 1);
    }
  }

  // ---------------------------------------------------------------------------------------------
  // The final check
  // ---------------------------------------------------------------------------------------------

  /** No bit of a marker is left below its own depth: the mask test at the end of `_make_words`. */
  ghost predicate Settled(cells: seq<nat>, n: nat)
    requires |cells| == 33 && n <= 33
  {
    forall i :: 1 <= i < n ==> cells[i] % Pow2(i) == 0
  }

  lemma {:induction false} NoRoomMeansFull(m: seq<nat>, j: nat)
    requires Markers.Valid(m) && m[0] == 1 && j <= 32 && Markers.Room(m, j) == 0
    ensures forall i :: 0 <= i <= j ==> m[i] == Pow2(i)
  {
    if j > 0 {
      NoRoomMeansFull(m, j - 1);
      assert Markers.Linked(m, j);
    }
  }

  lemma {:induction false} SettledMeansFull(m: seq<nat>, j: nat)
    requires Markers.Valid(m) && m[0] == 1 && j <= 32 && Settled(m, j + 1)
    ensures m[j] == Pow2(j) && Markers.Room(m, j) == 0
  {
    if j > 0 {
      assert Settled(m, j);
      SettledMeansFull(m, j - 1);
      assert Markers.Linked(m, j);
      if m[j] != Pow2(j) {
        DivModUnique(m[j], 0, Pow2(j), m[j]);
      }
    }
  }

  /** The mask test passes exactly when no free leaf is left (or none was ever taken). */
  lemma SettledIffFull(cells: seq<nat>, m: seq<nat>)
    requires Markers.Valid(m) && Holds(cells, m)
    ensures Settled(cells, 33) <==> m[0] == 0 || Markers.Room(m, 32) == 0
  {
    Pow2Facts();
    forall i | 1 <= i <= 32
      ensures cells[i] % Pow2(i) == 0 <==> m[i] % Pow2(i) == 0
    {
      if i == 32 {
        DivModUnique(m[32] % WORD, 0, WORD, m[32] % WORD);
      }
    }
    if m[0] == 0 {
      forall i | 1 <= i <= 32
        ensures m[i] % Pow2(i) == 0
      {
        Markers.HasRoom(m, i);
        DivModUnique(0, 0, Pow2(i), 0);
      }
    } else {
      if Markers.Room(m, 32) == 0 {
        NoRoomMeansFull(m, 32);
        forall i | 1 <= i <= 32
          ensures m[i] % Pow2(i) == 0
        {
          DivModUnique(m[i], 1, Pow2(i), 0);
        }
      }
      if Settled(cells, 33) {
        assert Settled(m, 33);
        SettledMeansFull(m, 32);
      }
    }
  }

  // ---------------------------------------------------------------------------------------------
  // The code itself
  // ---------------------------------------------------------------------------------------------

  /** Where entry `i`'s word goes: its own slot, or the next one when unused entries are dropped. */
  function Slot(lens: seq<nat>, sparse: bool, i: nat): (s: nat)
    requires i <= |lens|
  {
    if sparse then Used(lens[..i]) else i
  }

  lemma {:induction false} UsedMonotone(lens: seq<nat>, i: nat, j: nat)
    requires i <= j <= |lens|
    ensures Used(lens[..i]) <= Used(lens[..j]) <= Used(lens[..i]) + j - i
  {
    if i < j {
      UsedStep(lens, j - 1);
      UsedMonotone(lens, i, j - 1);
    }
  }

  lemma UsedStep(lens: seq<nat>, i: nat)
    requires i < |lens|
    ensures Used(lens[..i + 1]) == Used(lens[..i]) + (if lens[i] > 0 then 1 else 0)
  {
    assert lens[..i + 1][..i] == lens[..i];
  }

  /** Distinct used entries have distinct slots inside the list. */
  lemma SlotRange(lens: seq<nat>, sparse: bool, i: nat)
    requires i < |lens| && (lens[i] > 0 || !sparse)
    ensures Slot(lens, sparse, i) < Slot(lens, sparse, i + 1) <= Slot(lens, sparse, |lens|)
  {
    UsedStep(lens, i);
    UsedMonotone(lens, i + 1, |lens|);
  }

  method ClaimNode(marker: array<nat>, length: nat)
    requires marker.Length == 33 && length <= 32
    modifies marker
    ensures marker[..] == Claim(old(marker[..]), length)
  {
    var j := length;
    while j > 0
      invariant 0 <= j <= length
      invariant Claim(marker[..], j) == Claim(old(marker[..]), length)
    {
      if marker[j] % 2 == 1 {
        if j == 1 {
          marker[1] := (marker[1] + 1) % WORD;
        } else {
          marker[j] := (2 * marker[j - 1]) % WORD;
        }
        return;
      }
      ghost var before := marker[..];
      marker[j] := (marker[j] + 1) % WORD;
      assert marker[..] == before[j := (before[j] + 1) % WORD];
      j := j - 1;
    }
  }

  method PruneBelow(marker: array<nat>, length: nat, taken: nat)
    requires marker.Length == 33 && 1 <= length <= 32
    modifies marker
    ensures marker[..] == Prune(old(marker[..]), length + 1, taken)
  {
    var entry, j := taken, length + 1;
    while j < 33
      invariant length + 1 <= j <= 33
      invariant Prune(marker[..], j, entry) == Prune(old(marker[..]), length + 1, taken)
    {
      if marker[j] / 2 != entry {
        return;
      }
      ghost var before := marker[..];
      entry := marker[j];
      marker[j] := (2 * marker[j - 1]) % WORD;
      assert marker[..] == before[j := (2 * before[j - 1]) % WORD];
      j := j + 1;
    }
  }

  /** The state of the first loop once entries `0..n` are placed. */
  ghost predicate Placing(cells: seq<nat>, m: seq<nat>, lens: seq<nat>, words: seq<nat>, n: nat)
    requires ValidLengths(lens) && n <= |lens| == |words|
  {
    && Markers.Valid(m) && Holds(cells, m)
    && Markers.Describes(m, lens, words, n)
    && Markers.Room(m, 32) + Kraft(lens, n) == WORD
    && (m[0] == 0 <==> Used(lens[..n]) == 0)
    && forall k :: 0 <= k < n && lens[k] > 0 ==> Leftmost(lens, words, k)
  }

  lemma PlacingStart(lens: seq<nat>, words: seq<nat>)
    requires ValidLengths(lens) && |words| == |lens|
    ensures var z := seq(33, i => 0); Placing(z, z, lens, words, 0)
  {
    Markers.ZeroDescribes(lens, words);
  }

  lemma PlacingUnused(cells: seq<nat>, m: seq<nat>, lens: seq<nat>, words: seq<nat>, n: nat)
    requires ValidLengths(lens) && n < |lens| == |words| && lens[n] == 0
    requires Placing(cells, m, lens, words, n)
    ensures Placing(cells, m, lens, words, n + 1)
  {
    UsedStep(lens, n);
    Markers.UnusedDescribes(m, lens, words, n);
  }

  /** Nothing said about the first `n` entries depends on later words. */
  lemma PlacingWord(cells: seq<nat>, m: seq<nat>, lens: seq<nat>, words: seq<nat>, n: nat, w: nat)
    requires ValidLengths(lens) && n < |lens| == |words|
    requires Placing(cells, m, lens, words, n)
    ensures Placing(cells, m, lens, words[n := w], n)
  {
    var words' := words[n := w];
    forall x: nat | x < WORD
      ensures Markers.Taken(lens, words', n, x) || Markers.FreeLeaf(m, x)
    {
      if Markers.Taken(lens, words, n, x) {
        var k :| 0 <= k < n && Markers.Owns(lens, words, k, x);
        assert Markers.Owns(lens, words', k, x);
      }
    }
    forall d | 1 <= d <= 32 && m[d] % 2 == 1
      ensures Free(lens, words', n, m[d], d)
    {
      assert Free(lens, words, n, m[d], d);
    }
    forall k | 0 <= k < n && lens[k] > 0
      ensures Leftmost(lens, words', k)
    {
      assert Leftmost(lens, words, k);
      FreePrefix(lens, words, words', k, words[k], lens[k]);
      forall v: nat | v < words[k]
        ensures !Free(lens, words', k, v, lens[k])
      {
        FreePrefix(lens, words, words', k, v, lens[k]);
      }
    }
  }

  lemma PlacingUsed(cells: seq<nat>, m: seq<nat>, lens: seq<nat>, words: seq<nat>, n: nat)
      returns (r: seq<nat>)
    requires ValidLengths(lens) && n < |lens| == |words| && lens[n] > 0
    requires Placing(cells, m, lens, words, n) && m[lens[n]] < Pow2(lens[n])
    requires words[n] == cells[lens[n]]
    ensures Placing(Prune(Claim(cells, lens[n]), lens[n] + 1, cells[lens[n]]), r, lens, words, n + 1)
  {
    var len := lens[n];
    var d, e;
    r, d, e := PassesPlace(cells, m, len);
    CellsExact(cells, m, len, d, e);
    Markers.PlacedIsValid(m, r, len, d, e);
    Markers.PlacedDescribes(m, r, d, e, lens, words, n);
    Markers.PlacedRoom(m, r, len, d, e, 32);
    Markers.MarkerIsLeftmost(m, lens, words, n, len);
    UsedStep(lens, n);
    Markers.HasRoom(m, d);
    assert Leftmost(lens, words, n);
  }

  /** A depth with no free node left means the lengths claim more than the whole tree. */
  lemma OutOfRoom(cells: seq<nat>, m: seq<nat>, lens: seq<nat>, words: seq<nat>, n: nat)
    requires ValidLengths(lens) && n < |lens| == |words| && lens[n] > 0
    requires Placing(cells, m, lens, words, n) && m[lens[n]] >= Pow2(lens[n])
    ensures Kraft(lens, n + 1) > WORD && Used(lens[..n]) > 0
  {
    Markers.HasRoom(m, lens[n]);
    Markers.NoRoomAbove(m, lens[n]);
    Markers.RoomBelow(m, lens[n], 32);
  }

  /** `list` holds `words[i]` in the slot of every used entry `i` below `n`. */
  ghost predicate Listed(lens: seq<nat>, sparse: bool, words: seq<nat>, n: nat, list: seq<nat>)
    requires n <= |lens| == |words|
  {
    forall i :: 0 <= i < n && lens[i] > 0 ==>
      Slot(lens, sparse, i) < |list| && list[Slot(lens, sparse, i)] == words[i]
  }

  /** As `Listed`, with every word in bit-packing order. */
  ghost predicate Packed(lens: seq<nat>, sparse: bool, words: seq<nat>, n: nat, list: seq<nat>)
    requires n <= |lens| == |words|
  {
    forall i :: 0 <= i < n && lens[i] > 0 ==>
      Slot(lens, sparse, i) < |list| && list[Slot(lens, sparse, i)] == Reverse(words[i], lens[i])
  }

  /** What the first loop of `_make_words` knows: either every entry so far has its canonical word, or
      the tree is already overpopulated by `over` words of length 32. */
  ghost predicate Progress(cells: seq<nat>, m: seq<nat>, over: nat, lens: seq<nat>, words: seq<nat>, n: nat)
    requires ValidLengths(lens) && n <= |lens| == |words|
  {
    if over == 0 then Placing(cells, m, lens, words, n)
    else Overfull(cells, over) && over <= n && Kraft(lens, n) == WORD + over && Used(lens[..n]) > 1
  }

  /** The length test of the first loop rejects an entry only if the lengths claim too much. */
  lemma RejectIsRight(cells: seq<nat>, m: seq<nat>, over: nat, lens: seq<nat>, words: seq<nat>, n: nat)
    requires ValidLengths(lens) && n < |lens| == |words| && 0 < lens[n] < 32
    requires Progress(cells, m, over, lens, words, n) && cells[lens[n]] / Pow2(lens[n]) != 0
    ensures Kraft(lens, |lens|) > WORD && Used(lens) > 1
  {
    var len := lens[n];
    UsedStep(lens, n);
    UsedMonotone(lens, n + 1, |lens|);
    assert lens[..|lens|] == lens;
    KraftMonotone(lens, n + 1, |lens|);
    if over == 0 {
      if cells[len] < Pow2(len) {
        DivModUnique(cells[len], 0, Pow2(len), cells[len]);
      }
      OutOfRoom(cells, m, lens, words, n);
    }
  }

  /** An accepted entry moves the first loop on. */
  lemma AcceptIsRight(cells: seq<nat>, m: seq<nat>, over: nat, lens: seq<nat>, words: seq<nat>, n: nat)
      returns (m': seq<nat>, over': nat)
    requires ValidLengths(lens) && n < |lens| == |words| && lens[n] > 0
    requires Progress(cells, m, over, lens, words, n) && words[n] == cells[lens[n]]
    requires lens[n] < 32 ==> cells[lens[n]] / Pow2(lens[n]) == 0
    ensures Progress(Prune(Claim(cells, lens[n]), lens[n] + 1, cells[lens[n]]), m', over', lens, words, n + 1)
    ensures over' == 0 ==> over == 0
  {
    var len := lens[n];
    m', over' := m, over;
    UsedStep(lens, n);
    if over == 0 && m[len] < Pow2(len) {
      m' := PlacingUsed(cells, m, lens, words, n);
    } else {
      assert len == 32 && Overfull(cells, over) && Kraft(lens, n) == WORD + over && Used(lens[..n]) > 0 by {
        if over == 0 {
          NowOverfull(cells, m, lens, words, n);
        } else if len < 32 {
          OverfullBlocks(cells, over, len);
          if cells[len] / Pow2(len) == 0 {
            DivMod(cells[len], Pow2(len));
          }
        }
      }
      OverfullStep(cells, over);
      over' := over + 1;
    }
  }

  lemma NowOverfull(cells: seq<nat>, m: seq<nat>, lens: seq<nat>, words: seq<nat>, n: nat)
    requires ValidLengths(lens) && n < |lens| == |words| && lens[n] > 0
    requires Placing(cells, m, lens, words, n) && m[lens[n]] >= Pow2(lens[n])
    requires lens[n] < 32 ==> cells[lens[n]] / Pow2(lens[n]) == 0
    ensures lens[n] == 32 && Overfull(cells, 0) && Kraft(lens, n) == WORD && Used(lens[..n]) > 0
  {
    Pow2Facts();
    Markers.HasRoom(m, lens[n]);
    if lens[n] < 32 {
      DivModUnique(cells[lens[n]], 1, Pow2(lens[n]), 0);
    }
    OutOfRoom(cells, m, lens, words, n);
    Markers.NoRoomAbove(m, 32);
    FullIsOverfull(cells, m);
  }

  /** Progress does not depend on words not yet assigned. */
  lemma ProgressWord(cells: seq<nat>, m: seq<nat>, over: nat, lens: seq<nat>, words: seq<nat>, n: nat, w: nat)
    requires ValidLengths(lens) && n < |lens| == |words|
    requires Progress(cells, m, over, lens, words, n)
    ensures Progress(cells, m, over, lens, words[n := w], n)
  {
    if over == 0 {
      PlacingWord(cells, m, lens, words, n, w);
    }
  }

  lemma ProgressStart(lens: seq<nat>, sparse: bool, words: seq<nat>, list: seq<nat>)
    requires ValidLengths(lens) && |words| == |lens|
    ensures Progress(seq(33, i => 0), seq(33, i => 0), 0, lens, words, 0)
    ensures Listed(lens, sparse, words, 0, list)
  {
    PlacingStart(lens, words);
  }

  lemma ProgressUnused(cells: seq<nat>, m: seq<nat>, over: nat, lens: seq<nat>, sparse: bool, words: seq<nat>,
                       n: nat, list: seq<nat>)
    requires ValidLengths(lens) && n < |lens| == |words| && lens[n] == 0
    requires Progress(cells, m, over, lens, words, n) && Listed(lens, sparse, words, n, list)
    ensures Progress(cells, m, over, lens, words, n + 1) && Listed(lens, sparse, words, n + 1, list)
  {
    UsedStep(lens, n);
    if over == 0 {
      PlacingUnused(cells, m, lens, words, n);
    }
  }

  lemma ListedStep(lens: seq<nat>, sparse: bool, words: seq<nat>, i: nat, list: seq<nat>, w: nat)
    requires i < |lens| == |words| && lens[i] > 0 && |list| == Slot(lens, sparse, |lens|)
    requires Listed(lens, sparse, words, i, list)
    ensures Slot(lens, sparse, i) < |list|
    ensures Listed(lens, sparse, words[i := w], i + 1, list[Slot(lens, sparse, i) := w])
  {
    SlotRange(lens, sparse, i);
    SlotsApart(lens, sparse, i);
  }

  lemma PackedStart(lens: seq<nat>, sparse: bool, words: seq<nat>, list: seq<nat>)
    requires |words| == |lens|
    ensures Packed(lens, sparse, words, 0, list)
  {
  }

  lemma PackedUnused(lens: seq<nat>, sparse: bool, words: seq<nat>, i: nat, list: seq<nat>)
    requires i < |lens| == |words| && lens[i] == 0
    requires Packed(lens, sparse, words, i, list)
    ensures Packed(lens, sparse, words, i + 1, list)
  {
  }

  lemma PackedStep(lens: seq<nat>, sparse: bool, words: seq<nat>, i: nat, list: seq<nat>, w: nat)
    requires i < |lens| == |words| && (lens[i] > 0 || !sparse) && |list| == Slot(lens, sparse, |lens|)
    requires Packed(lens, sparse, words, i, list)
    requires lens[i] > 0 ==> w == Reverse(words[i], lens[i])
    ensures Slot(lens, sparse, i) < |list|
    ensures Packed(lens, sparse, words, i + 1, list[Slot(lens, sparse, i) := w])
  {
    hide Slot, Reverse;
    SlotRange(lens, sparse, i);
    SlotsApart(lens, sparse, i);
    var at := Slot(lens, sparse, i);
    forall k | 0 <= k < i + 1 && lens[k] > 0
      ensures Slot(lens, sparse, k) < |list| && list[at := w][Slot(lens, sparse, k)] == Reverse(words[k], lens[k])
    {
    }
  }

  /** The first loop: hand out nodes in entry order, moving the markers. */
  method PlaceAll(lens: seq<nat>, sparse: bool, marker: array<nat>, r: array<nat>)
      returns (ok: bool, ghost words: seq<nat>, ghost m: seq<nat>, ghost over: nat)
    requires ValidLengths(lens) && marker.Length == 33 && marker != r
    requires forall j :: 0 <= j < 33 ==> marker[j] == 0
    requires r.Length == Slot(lens, sparse, |lens|)
    modifies marker, r
    ensures |words| == |lens|
    ensures !ok ==> Kraft(lens, |lens|) > WORD && Used(lens) > 1
    ensures ok ==> Progress(marker[..], m, over, lens, words, |lens|) && Listed(lens, sparse, words, |lens|, r[..])
  {
    hide Progress, Listed, Claim, Prune;
    words := seq(|lens|, i => 0);
    m := seq(33, i => 0);
    over := 0;
    ok := true;
    var i, count := 0, 0;
    ProgressStart(lens, sparse, words, r[..]);
    assert marker[..] == m;
    while i < |lens|
      invariant 0 <= i <= |lens| == |words| && count == Slot(lens, sparse, i)
      invariant Progress(marker[..], m, over, lens, words, i)
      invariant Listed(lens, sparse, words, i, r[..])
    {
      var length := lens[i];
      UsedStep(lens, i);
      if length > 0 {
        var entry: nat := marker[length];
        if length < 32 && entry / Pow2(length) != 0 {
          RejectIsRight(marker[..], m, over, lens, words, i);
          return false, words, m, over;
        }
        ListedStep(lens, sparse, words, i, r[..], entry);
        ghost var list := r[..];
        r[count] := entry;
        assert r[..] == list[count := entry];
        count := count + 1;
        ghost var cells := marker[..];
        ClaimNode(marker, length);
        PruneBelow(marker, length, entry);
        ProgressWord(cells, m, over, lens, words, i, entry);
        words := words[i := entry];
        m, over := AcceptIsRight(cells, m, over, lens, words, i);
      } else {
        if !sparse {
          count := count + 1;
        }
        ProgressUnused(marker[..], m, over, lens, sparse, words, i, r[..]);
      }
      i := i + 1;
    }
  }

  lemma SlotsApart(lens: seq<nat>, sparse: bool, i: nat)
    requires i < |lens| && (lens[i] > 0 || !sparse)
    ensures forall k :: 0 <= k < i && lens[k] > 0 ==> Slot(lens, sparse, k) < Slot(lens, sparse, i)
  {
    forall k | 0 <= k < i && lens[k] > 0
      ensures Slot(lens, sparse, k) < Slot(lens, sparse, i)
    {
      SlotRange(lens, sparse, k);
      UsedMonotone(lens, k + 1, i);
    }
  }

  /** The sanity check: every marker must have been carried to the end of its level. */
  method CheckSettled(marker: array<nat>) returns (ok: bool)
    requires marker.Length == 33
    ensures ok <==> Settled(marker[..], 33)
  {
    var i := 1;
    while i < 33
      invariant 1 <= i <= 33 && Settled(marker[..], i)
    {
      if marker[i] % Pow2(i) != 0 {
        assert marker[..][i] % Pow2(i) != 0;
        return false;
      }
      i := i + 1;
    }
    return true;
  }

  lemma SettledIsRight(cells: seq<nat>, m: seq<nat>, over: nat, lens: seq<nat>, words: seq<nat>)
    requires ValidLengths(lens) && |words| == |lens|
    requires Progress(cells, m, over, lens, words, |lens|)
    ensures Settled(cells, 33) <==> Used(lens) == 0 || Kraft(lens, |lens|) == WORD
    ensures Settled(cells, 33) || Used(lens) == 1 ==> over == 0
  {
    assert lens[..|lens|] == lens;
    if over == 0 {
      SettledIffFull(cells, m);
    } else {
      Pow2Facts();
      SmallMod(over);
      assert cells[32] % Pow2(32) != 0;
    }
  }

  /** The last loop: bit-reverse the words for a packer that is LSb endian. */
  method ReverseAll(lens: seq<nat>, sparse: bool, r: array<nat>, ghost words: seq<nat>)
    requires |words| == |lens| && r.Length == Slot(lens, sparse, |lens|)
    requires Listed(lens, sparse, words, |lens|, r[..])
    modifies r
    ensures Packed(lens, sparse, words, |lens|, r[..])
  {
    hide Packed, Reverse;
    ghost var given := r[..];
    PackedStart(lens, sparse, words, given);
    var i, count := 0, 0;
    while i < |lens|
      invariant 0 <= i <= |lens| && count == Slot(lens, sparse, i)
      invariant Packed(lens, sparse, words, i, r[..])
      invariant forall c :: count <= c < r.Length ==> r[c] == given[c]
    {
      UsedStep(lens, i);
      ghost var list := r[..];
      if !sparse || lens[i] > 0 {
        SlotRange(lens, sparse, i);
        var temp: nat := ReverseWord(r[count], lens[i]);
        assert lens[i] > 0 ==> given[count] == words[i];
        PackedStep(lens, sparse, words, i, list, temp);
        r[count] := temp;
        assert r[..] == list[count := temp];
        count := count + 1;
      } else {
        PackedUnused(lens, sparse, words, i, list);
      }
      i := i + 1;
    }
  }

  /** The inner loop: shift the word's bits out at one end and in at the other. */
  method ReverseWord(word: nat, length: nat) returns (temp: nat)
    ensures temp == Reverse(word, length)
  {
    temp := 0;
    var j := 0;
    while j < length
      invariant 0 <= j <= length && temp == Reverse(word, j)
    {
      temp := 2 * temp + Bit(word, j);
      j := j + 1;
    }
  }

  /** Codewords for the lengths `lens`, in bit-packing order, or null when the lengths do not fill
      the tree exactly. With `sparsecount` 0 every entry has a slot, otherwise only used ones. */
  method MakeWords(lens: seq<nat>, sparsecount: nat) returns (r: array?<nat>, ghost words: seq<nat>)
    requires ValidLengths(lens) && (sparsecount == 0 || sparsecount == Used(lens))
    ensures r != null <==> sparsecount == 1 || Used(lens) == 0 || Kraft(lens, |lens|) == WORD
    ensures r != null ==> fresh(r) && r.Length == Slot(lens, sparsecount > 0, |lens|)
    ensures r != null ==> Canonical(lens, words) && Packed(lens, sparsecount > 0, words, |lens|, r[..])
  {
    assert lens[..|lens|] == lens;
    var sparse := sparsecount > 0;
    var marker := new nat[33](i => 0);
    var list := new nat[if sparse then sparsecount else |lens|](i => 0);
    var ok;
    ghost var m, over;
    ok, words, m, over := PlaceAll(lens, sparse, marker, list);
    if !ok {
      return null, words;
    }
    SettledIsRight(marker[..], m, over, lens, words);
    if sparsecount != 1 {
      ok := CheckSettled(marker);
      if !ok {
        return null, words;
      }
    }
    ReverseAll(lens, sparse, list, words);
    r := list;
  }
}
