/** What the 33 "marker" cells of `_make_words` mean.

    The cells are numbers; read together they describe the part of the codeword tree that is still
    free. `M[j]` is the leftmost free node of depth `j`, or 2^j when there is none, and depth `d` is
    the root of a maximal free subtree exactly when `M[d]` is odd. Cell 0, which the code never
    touches, says here whether the root itself is still free (0) or not (1). */
module Markers {
  import opened BitMath
  import opened CodeTree

  ghost predicate Linked(m: seq<nat>, j: nat)
    requires |m| == 33 && 1 <= j <= 32
  {
    m[j] == 2 * m[j - 1] || (m[j] % 2 == 1 && m[j] < 2 * m[j - 1])
  }

  ghost predicate Valid(m: seq<nat>)
  {
    |m| == 33 && m[0] <= 1 && forall j :: 1 <= j <= 32 ==> Linked(m, j)
  }

  /** The depth of the free subtree holding `m[j]`: the nearest odd marker at or above depth `j`. */
  ghost function Above(m: seq<nat>, j: nat): (d: nat)
    requires |m| == 33 && j <= 32
    ensures d <= j && (d > 0 ==> m[d] % 2 == 1)
    ensures forall i :: d < i <= j ==> m[i] % 2 == 0
  {
    if j == 0 || m[j] % 2 == 1 then j else Above(m, j - 1)
  }

  /** The nearest odd marker at or below depth `j`, or 33. */
  ghost function Below(m: seq<nat>, j: nat): (e: nat)
    requires |m| == 33 && j <= 33
    ensures j <= e <= 33 && (e < 33 ==> m[e] % 2 == 1)
    ensures forall i :: j <= i < e ==> m[i] % 2 == 0
    decreases 33 - j
  {
    if j == 33 || m[j] % 2 == 1 then j else Below(m, j + 1)
  }

  /** First leaf of the marked node. */
  ghost function Pos(m: seq<nat>, j: nat): nat
    requires |m| == 33 && j <= 32
  {
    Start(m[j], j)
  }

  /** Leaves in the free subtrees of depth at most `j`. */
  ghost function Room(m: seq<nat>, j: nat): nat
    requires |m| == 33 && j <= 32
  {
    if j == 0 then (if m[0] == 0 then WORD else 0)
    else Room(m, j - 1) + (if m[j] % 2 == 1 then Span(j) else 0)
  }

  lemma PosStep(m: seq<nat>, j: nat)
    requires Valid(m) && 1 <= j <= 32
    ensures m[j] % 2 == 0 ==> Pos(m, j) == Pos(m, j - 1)
    ensures m[j] % 2 == 1 ==> Pos(m, j) + Span(j) <= Pos(m, j - 1)
  {
    SpanHalves(j);
    assert Linked(m, j);
    StartDown(m[j - 1], j - 1, j);
    if m[j] % 2 == 1 {
      StartMonotone(m[j], 2 * m[j - 1], j);
    }
  }

  /** Deeper free subtrees lie further left. */
  lemma {:induction false} PosMonotone(m: seq<nat>, i: nat, j: nat)
    requires Valid(m) && i <= j <= 32
    ensures Pos(m, j) <= Pos(m, i)
    ensures i < j && m[j] % 2 == 1 ==> Pos(m, j) + Span(j) <= Pos(m, i)
  {
    if i < j {
      PosMonotone(m, i, j - 1);
      PosStep(m, j);
    }
  }

  lemma {:induction false} PosAbove(m: seq<nat>, i: nat, j: nat)
    requires Valid(m) && i <= j <= 32 && forall k :: i < k <= j ==> m[k] % 2 == 0
    ensures Pos(m, j) == Pos(m, i) && m[j] == m[i] * Pow2(j - i)
  {
    if i < j {
      PosAbove(m, i, j - 1);
      PosStep(m, j);
      assert Linked(m, j);
      MulDouble(m[i], Pow2(j - 1 - i));
    }
  }

  /** With no free subtree as shallow as `j`, marker `j` has run off the tree; otherwise it is inside. */
  lemma {:induction false} HasRoom(m: seq<nat>, j: nat)
    requires Valid(m) && j <= 32
    ensures m[j] <= Pow2(j)
    ensures m[j] == Pow2(j) <==> m[0] == 1 && Above(m, j) == 0
    ensures m[0] == 0 ==> m[j] == 0
  {
    if j > 0 {
      HasRoom(m, j - 1);
      assert Linked(m, j);
    }
  }

  /** Room below depth `j` is less than one node of depth `j`. */
  lemma {:induction false} RoomBelow(m: seq<nat>, i: nat, j: nat)
    requires |m| == 33 && i <= j <= 32
    ensures Room(m, i) <= Room(m, j) <= Room(m, i) + Span(i) - Span(j)
  {
    if i < j {
      RoomBelow(m, i, j - 1);
      SpanHalves(j);
    }
  }

  lemma {:induction false} NoRoomAbove(m: seq<nat>, j: nat)
    requires Valid(m) && j <= 32 && m[j] == Pow2(j)
    ensures Room(m, j) == 0
  {
    HasRoom(m, j);
    if j > 0 {
      assert Above(m, j - 1) == 0;
      HasRoom(m, j - 1);
      NoRoomAbove(m, j - 1);
    }
  }

  // ---------------------------------------------------------------------------------------------
  // One entry is placed
  // ---------------------------------------------------------------------------------------------

  /** `d` is the depth of the free subtree that holds the marked node of depth `len`, and `e` the
      depth of the next one below `len` (33 when there is none). */
  ghost predicate Between(m: seq<nat>, len: nat, d: nat, e: nat)
  {
    && |m| == 33 && 1 <= len <= 32 && d <= len < e <= 33
    && (d > 0 ==> m[d] % 2 == 1) && (d == 0 ==> m[0] == 0) && (e < 33 ==> m[e] % 2 == 1)
    && (forall j :: d < j < e ==> m[j] % 2 == 0)
  }

  /** `r` is what the markers become when a node of depth `len` is taken: the subtree at `d` gives
      way to the right siblings along the path, and deeper markers that dangled from the taken node
      dangle from the next one. */
  ghost predicate Placed(m: seq<nat>, r: seq<nat>, len: nat, d: nat, e: nat)
  {
    && Between(m, len, d, e) && |r| == 33
    && (forall j :: 0 <= j <= 32 && (j < d || e <= j) ==> r[j] == m[j])
    && r[d] == (if d == 0 then 1 else 2 * m[d - 1])
    && (forall j :: d < j <= len ==> r[j] == m[j] + 1)
    && (forall j :: len < j < e ==> Doubles(r, j))
  }

  ghost predicate Doubles(r: seq<nat>, j: nat)
    requires |r| == 33 && 1 <= j <= 32
  {
    r[j] == 2 * r[j - 1]
  }

  lemma FindBetween(m: seq<nat>, len: nat) returns (d: nat, e: nat)
    requires Valid(m) && 1 <= len <= 32 && m[len] < Pow2(len)
    ensures Between(m, len, d, e)
  {
    d, e := Above(m, len), Below(m, len + 1);
    HasRoom(m, len);
  }

  lemma BuildPlaced(m: seq<nat>, len: nat, d: nat, e: nat) returns (r: seq<nat>)
    requires Between(m, len, d, e)
    ensures Placed(m, r, len, d, e)
  {
    r := m;
    var j := d + 1;
    r := r[d := if d == 0 then 1 else 2 * m[d - 1]];
    while j <= len
      invariant d < j <= len + 1 && |r| == 33
      invariant r[d] == (if d == 0 then 1 else 2 * m[d - 1])
      invariant forall i :: 0 <= i <= 32 && (i < d || i >= j) ==> r[i] == m[i]
      invariant forall i :: d < i < j ==> r[i] == m[i] + 1
    {
      r := r[j := m[j] + 1];
      j := j + 1;
    }
    while j < e
      invariant len < j <= e && |r| == 33
      invariant r[d] == (if d == 0 then 1 else 2 * m[d - 1])
      invariant forall i :: 0 <= i <= 32 && (i < d || i >= j) ==> r[i] == m[i]
      invariant forall i :: d < i <= len ==> r[i] == m[i] + 1
      invariant forall i :: len < i < j ==> Doubles(r, i)
    {
      ghost var was := r;
      r := r[j := 2 * r[j - 1]];
      forall i | len < i <= j
        ensures Doubles(r, i)
      {
        assert i < j ==> Doubles(was, i);
      }
      j := j + 1;
    }
  }

  lemma PlacedIsValid(m: seq<nat>, r: seq<nat>, len: nat, d: nat, e: nat)
    requires Valid(m) && Placed(m, r, len, d, e)
    ensures Valid(r)
  {
    hide Linked;
    forall j | 1 <= j <= 32
      ensures Linked(r, j)
    {
      PlacedLinked(m, r, len, d, e, j);
    }
  }

  lemma PlacedLinked(m: seq<nat>, r: seq<nat>, len: nat, d: nat, e: nat, j: nat)
    requires Valid(m) && Placed(m, r, len, d, e) && 1 <= j <= 32
    ensures Linked(r, j)
  {
    hide Valid;
    LinkAt(m, j);
    if d < j <= len {
      SiblingLinked(m, r, len, d, e, j);
    } else if len < j < e {
      assert Doubles(r, j);
    } else if j == e {
      GrowsAt(m, r, len, d, e, e - 1);
    }
  }

  lemma LinkAt(m: seq<nat>, j: nat)
    requires Valid(m) && 1 <= j <= 32
    ensures Linked(m, j)
  {
  }

  /** The siblings along the path hang together. */
  lemma SiblingLinked(m: seq<nat>, r: seq<nat>, len: nat, d: nat, e: nat, j: nat)
    requires Valid(m) && Placed(m, r, len, d, e) && d < j <= len
    ensures Linked(r, j)
  {
    hide Valid, Placed, Linked;
    SiblingCells(m, r, len, d, e, j);
    LinkAt(m, j);
    if d > 0 {
      LinkAt(m, d);
    }
    CellsLinked(m, r, d, j);
  }

  lemma SiblingCells(m: seq<nat>, r: seq<nat>, len: nat, d: nat, e: nat, j: nat)
    requires Placed(m, r, len, d, e) && d < j <= len
    ensures |m| == |r| == 33 && len <= 32 && m[j] % 2 == 0 && r[j] == m[j] + 1
    ensures j - 1 > d ==> r[j - 1] == m[j - 1] + 1
    ensures r[d] == (if d == 0 then 1 else 2 * m[d - 1]) && (if d == 0 then m[0] == 0 else m[d] % 2 == 1)
  {
  }

  lemma CellsLinked(m: seq<nat>, r: seq<nat>, d: nat, j: nat)
    requires |m| == |r| == 33 && d < j <= 32 && m[j] % 2 == 0 && r[j] == m[j] + 1 && Linked(m, j)
    requires j - 1 > d ==> r[j - 1] == m[j - 1] + 1
    requires r[d] == (if d == 0 then 1 else 2 * m[d - 1])
    requires if d == 0 then m[0] == 0 else m[d] % 2 == 1 && Linked(m, d)
    ensures Linked(r, j)
  {
    if d > 0 {
      OddBelow(m[d], m[d - 1]);
    }
    OddAbove(m[j - 1], r[j], r[j - 1]);
  }

  lemma OddBelow(x: nat, p: nat)
    requires x % 2 == 1 && x <= 2 * p
    ensures x + 1 <= 2 * p
  {
    EvenTwice(p);
  }

  lemma OddAbove(x: nat, y: nat, p: nat)
    requires y == 2 * x + 1 && x + 1 <= p
    ensures y % 2 == 1 && y < 2 * p
  {
    EvenTwice(x);
  }

  lemma {:induction false} GrowsAt(m: seq<nat>, r: seq<nat>, len: nat, d: nat, e: nat, j: nat)
    requires Valid(m) && Placed(m, r, len, d, e) && len <= j < e
    ensures m[j] <= r[j]
  {
    if j > len {
      GrowsAt(m, r, len, d, e, j - 1);
      assert Linked(m, j) && Doubles(r, j);
    } else {
      assert Linked(m, len);
    }
  }

  /** Placing an entry takes exactly its own leaves away from the free ones. */
  lemma {:induction false} PlacedRoom(m: seq<nat>, r: seq<nat>, len: nat, d: nat, e: nat, j: nat)
    requires Valid(m) && Placed(m, r, len, d, e) && j <= 32
    ensures Room(r, j) == Room(m, j) - (if j < d then 0 else if j <= len then Span(j) else Span(len))
  {
    hide Valid, Placed, Span, Pow2;
    PlacedParity(m, r, len, d, e, j);
    if j > 0 {
      PlacedRoom(m, r, len, d, e, j - 1);
      SpanHalves(j);
    } else {
      SpanOfRoot();
    }
  }

  lemma SpanOfRoot()
    ensures Span(0) == WORD
  {
    Pow2Facts();
  }

  /** Which markers are odd before and after a placement. */
  lemma PlacedParity(m: seq<nat>, r: seq<nat>, len: nat, d: nat, e: nat, j: nat)
    requires Placed(m, r, len, d, e) && j <= 32
    ensures |m| == |r| == 33 && 1 <= len <= 32 && d <= len < e
    ensures if j < d || e <= j then r[j] == m[j]
            else if j == 0 then m[0] == 0 && r[0] == 1
            else (m[j] % 2 == 1 <==> j == d) && (r[j] % 2 == 1 <==> d < j <= len)
  {
    if d > 0 {
      EvenTwice(m[d - 1]);
    }
    if len < j < e {
      assert Doubles(r, j);
      EvenTwice(r[j - 1]);
    }
    if d < j <= len {
      EvenNext(m[j]);
    }
  }

  lemma EvenNext(x: nat)
    ensures x % 2 == 0 ==> (x + 1) % 2 == 1
  {
  }

  // ---------------------------------------------------------------------------------------------
  // Free leaves
  // ---------------------------------------------------------------------------------------------

  ghost predicate InSubtree(m: seq<nat>, d: nat, x: nat)
    requires |m| == 33 && 1 <= d <= 32
  {
    m[d] % 2 == 1 && Pos(m, d) <= x < Pos(m, d) + Span(d)
  }

  ghost predicate FreeLeaf(m: seq<nat>, x: nat)
    requires |m| == 33
  {
    m[0] == 0 || exists d :: 1 <= d <= 32 && InSubtree(m, d, x)
  }

  ghost predicate Owns(lens: seq<nat>, words: seq<nat>, k: nat, x: nat)
    requires ValidLengths(lens) && k < |lens| && k < |words|
  {
    lens[k] > 0 && Start(words[k], lens[k]) <= x < End(words[k], lens[k])
  }

  ghost predicate Taken(lens: seq<nat>, words: seq<nat>, n: nat, x: nat)
    requires ValidLengths(lens) && n <= |lens| && n <= |words|
  {
    exists k :: 0 <= k < n && Owns(lens, words, k, x)
  }

  /** Every leaf is taken or in a free subtree, and no free subtree touches a taken node. */
  ghost predicate Describes(m: seq<nat>, lens: seq<nat>, words: seq<nat>, n: nat)
    requires ValidLengths(lens) && n <= |lens| && n <= |words| && |m| == 33
  {
    && (m[0] == 0 ==> forall k :: 0 <= k < n ==> lens[k] == 0)
    && (forall x: nat :: x < WORD ==> Taken(lens, words, n, x) || FreeLeaf(m, x))
    && (forall d :: 1 <= d <= 32 && m[d] % 2 == 1 ==> Free(lens, words, n, m[d], d))
  }

  /** The marker of a depth is its leftmost free node. */
  lemma MarkerIsLeftmost(m: seq<nat>, lens: seq<nat>, words: seq<nat>, n: nat, len: nat)
    requires ValidLengths(lens) && n <= |lens| && n <= |words| && Valid(m)
    requires Describes(m, lens, words, n) && 1 <= len <= 32 && m[len] < Pow2(len)
    ensures Free(lens, words, n, m[len], len)
    ensures forall v: nat :: v < m[len] ==> !Free(lens, words, n, v, len)
  {
    HasRoom(m, len);
    var d := Above(m, len);
    if d > 0 {
      PosAbove(m, d, len);
      SpanPow(d, len);
      assert Free(lens, words, n, m[d], d);
    }
    forall v: nat | v < m[len]
      ensures !Free(lens, words, n, v, len)
    {
      LeftIsTaken(m, lens, words, n, len, v);
    }
  }

  /** A node that contains the first leaf of a shallower one is a left child. */
  lemma EvenStart(v: nat, len: nat, w: nat, d: nat)
    requires len < d <= 32 && Start(w, d) <= Start(v, len) < End(w, d)
    ensures w % 2 == 0
  {
    StartDown(v, len, d);
    StartInjective(v * Pow2(d - len), w, d);
    MulDouble(v, Pow2(d - len - 1));
  }

  lemma LeftIsTaken(m: seq<nat>, lens: seq<nat>, words: seq<nat>, n: nat, len: nat, v: nat)
    requires ValidLengths(lens) && n <= |lens| && n <= |words| && Valid(m)
    requires Describes(m, lens, words, n) && 1 <= len <= 32 && v < m[len] < Pow2(len)
    ensures !Free(lens, words, n, v, len)
  {
    hide Span, Start;
    var x := Start(v, len);
    InTree(v, len);
    StartMonotone(v, m[len], len);
    HasRoom(m, len);
    if FreeLeaf(m, x) {
      var d :| 1 <= d <= 32 && InSubtree(m, d, x);
      if d <= len {
        PosMonotone(m, d, len);
      } else {
        // the first leaf of `v` would be in a subtree whose root is a left child
        EvenStart(v, len, m[d], d);
      }
      assert false;
    }
    assert Taken(lens, words, n, x);
    var k :| 0 <= k < n && Owns(lens, words, k, x);
    assert !Disjoint(words[k], lens[k], v, len);
  }

  /** A node of depth `len` at the left edge of a node of depth `d`, and the right siblings met on
      the way down, cover that node. */
  lemma {:induction false} SplitCovers(p: nat, d: nat, len: nat, x: nat)
    requires d <= len <= 32 && Start(p, d) <= x < End(p, d)
    ensures Start(p * Pow2(len - d), len) == Start(p, d)
    ensures || x < Start(p, d) + Span(len)
            || exists j :: d < j <= len && Start(p, d) + Span(j) <= x < Start(p, d) + 2 * Span(j)
  {
    StartDown(p, d, len);
    if d < len && x >= Start(p, d) + Span(len) {
      SpanHalves(len);
      if x < Start(p, d) + Span(len - 1) {
        assert d < len <= len && Start(p, d) + Span(len) <= x < Start(p, d) + 2 * Span(len);
      } else {
        SplitCovers(p, d, len - 1, x);
      }
    }
  }

  lemma PlacedDescribes(m: seq<nat>, r: seq<nat>, d: nat, e: nat, lens: seq<nat>, words: seq<nat>, n: nat)
    requires ValidLengths(lens) && n < |lens| && n < |words| && lens[n] > 0 && Valid(m)
    requires Describes(m, lens, words, n) && Placed(m, r, lens[n], d, e) && words[n] == m[lens[n]]
    ensures Describes(r, lens, words, n + 1)
  {
    HasRoom(m, d);
    forall x: nat | x < WORD
      ensures Taken(lens, words, n + 1, x) || FreeLeaf(r, x)
    {
      PlacedCoversLeaf(m, r, d, e, lens, words, n, x);
    }
    forall j | 1 <= j <= 32 && r[j] % 2 == 1
      ensures Free(lens, words, n + 1, r[j], j)
    {
      PlacedSubtreeFree(m, r, d, e, lens, words, n, j);
    }
  }

  lemma PosBetween(m: seq<nat>, len: nat, d: nat, e: nat, j: nat)
    requires Valid(m) && Between(m, len, d, e) && d <= j <= len
    ensures Pos(m, j) == Pos(m, d) && m[j] == m[d] * Pow2(j - d)
  {
    PosAbove(m, d, j);
  }

  lemma PlacedCoversLeaf(m: seq<nat>, r: seq<nat>, d: nat, e: nat, lens: seq<nat>, words: seq<nat>, n: nat, x: nat)
    requires ValidLengths(lens) && n < |lens| && n < |words| && lens[n] > 0 && Valid(m) && x < WORD
    requires Describes(m, lens, words, n) && Placed(m, r, lens[n], d, e) && words[n] == m[lens[n]]
    ensures Taken(lens, words, n + 1, x) || FreeLeaf(r, x)
  {
    var len := lens[n];
    if Taken(lens, words, n, x) {
      var k :| 0 <= k < n && Owns(lens, words, k, x);
      assert Owns(lens, words, k, x);
    } else if d == 0 || InSubtree(m, d, x) {
      SplitLeaf(m, r, len, d, e, x);
      PosBetween(m, len, d, e, len);
      if x < Pos(m, d) + Span(len) {
        assert Owns(lens, words, n, x);
      }
    } else {
      assert m[0] != 0 by {
        HasRoom(m, d);
      }
      var d' :| 1 <= d' <= 32 && InSubtree(m, d', x);
      assert d' < d || d' >= e;
      assert InSubtree(r, d', x);
    }
  }

  lemma RootOwnsAll(m: seq<nat>, x: nat)
    requires |m| == 33 && m[0] == 0 && x < WORD
    ensures Start(m[0], 0) <= x < End(m[0], 0)
  {
    Pow2Facts();
  }

  /** A leaf of the split subtree goes to the taken node or to one of the new subtrees. */
  lemma SplitLeaf(m: seq<nat>, r: seq<nat>, len: nat, d: nat, e: nat, x: nat)
    requires Valid(m) && Placed(m, r, len, d, e) && x < WORD
    requires d == 0 || InSubtree(m, d, x)
    ensures Pos(m, d) <= x
    ensures x < Pos(m, d) + Span(len) || FreeLeaf(r, x)
  {
    if d == 0 {
      RootOwnsAll(m, x);
    }
    hide Start, Span, Linked;
    SplitCovers(m[d], d, len, x);
    if x >= Pos(m, d) + Span(len) {
      var j :| d < j <= len && Pos(m, d) + Span(j) <= x < Pos(m, d) + 2 * Span(j);
      SiblingOwns(m, r, len, d, e, j, x);
    }
  }

  lemma SiblingOwns(m: seq<nat>, r: seq<nat>, len: nat, d: nat, e: nat, j: nat, x: nat)
    requires Valid(m) && Placed(m, r, len, d, e) && d < j <= len
    requires Pos(m, d) + Span(j) <= x < Pos(m, d) + 2 * Span(j)
    ensures InSubtree(r, j, x)
  {
    SiblingInside(m, r, len, d, e, j);
    hide Start, Span, Linked, Valid, Placed;
  }

  lemma SuccStart(w: nat, len: nat)
    requires len <= 32
    ensures Start(w + 1, len) == Start(w, len) + Span(len)
  {
  }

  lemma PlacedSubtreeFree(m: seq<nat>, r: seq<nat>, d: nat, e: nat, lens: seq<nat>, words: seq<nat>, n: nat, j: nat)
    requires ValidLengths(lens) && n < |lens| && n < |words| && lens[n] > 0 && Valid(m)
    requires Describes(m, lens, words, n) && Placed(m, r, lens[n], d, e) && words[n] == m[lens[n]]
    requires 1 <= j <= 32 && r[j] % 2 == 1
    ensures Free(lens, words, n + 1, r[j], j)
  {
    hide Start, Span;
    NewNodeApart(m, r, lens[n], d, e, j);
    if d < j <= lens[n] {
      if d > 0 {
        assert Free(lens, words, n, m[d], d);
        SiblingInside(m, r, lens[n], d, e, j);
      }
    } else {
      if j >= d {
        OddIsDeeper(m, r, lens[n], d, e, j);
      }
      assert Free(lens, words, n, m[j], j);
    }
  }

  /** The new subtree at depth `j` lies inside the subtree that was split. */
  lemma SiblingInside(m: seq<nat>, r: seq<nat>, len: nat, d: nat, e: nat, j: nat)
    requires Valid(m) && Placed(m, r, len, d, e) && d < j <= len
    ensures r[j] % 2 == 1 && Start(r[j], j) == Pos(m, d) + Span(j) && End(r[j], j) <= End(m[d], d)
  {
    hide Start, Span, Valid;
    SamePos(m, len, d, e, j);
    SpanMonotone(d, j - 1);
    SpanHalves(j);
    SuccStart(m[j], j);
  }

  lemma SamePos(m: seq<nat>, len: nat, d: nat, e: nat, j: nat)
    requires Valid(m) && Between(m, len, d, e) && d <= j <= len
    ensures Start(m[j], j) == Pos(m, d) == Start(m[d], d)
  {
    hide Start, Valid;
    PosBetween(m, len, d, e, j);
  }

  lemma NewNodeApart(m: seq<nat>, r: seq<nat>, len: nat, d: nat, e: nat, j: nat)
    requires Valid(m) && Placed(m, r, len, d, e) && 1 <= j <= 32 && r[j] % 2 == 1
    ensures Disjoint(m[len], len, r[j], j)
  {
    hide Start, Span;
    PosBetween(m, len, d, e, len);
    if d < j <= len {
      SiblingInside(m, r, len, d, e, j);
      SpanMonotone(j, len);
    } else if j < d {
      PosMonotone(m, j, d);
      SpanMonotone(d, len);
    } else {
      OddIsDeeper(m, r, len, d, e, j);
      PosMonotone(m, len, j);
    }
  }

  lemma EvenTwice(x: nat)
    ensures (2 * x) % 2 == 0
  {
  }

  lemma OddIsDeeper(m: seq<nat>, r: seq<nat>, len: nat, d: nat, e: nat, j: nat)
    requires Placed(m, r, len, d, e) && 1 <= j <= 32 && r[j] % 2 == 1 && j >= d && !(d < j <= len)
    ensures j >= e && r[j] == m[j]
  {
    if d > 0 {
      EvenTwice(m[d - 1]);
    }
    EvenTwice(r[j - 1]);
    assert len < j < e ==> Doubles(r, j);
  }

  /** Nothing placed yet: all cells zero, the whole tree free. */
  lemma ZeroDescribes(lens: seq<nat>, words: seq<nat>)
    requires ValidLengths(lens)
    ensures var z := seq(33, i => 0);
      Valid(z) && Describes(z, lens, words, 0) && Room(z, 32) == WORD
  {
    var z: seq<nat> := seq(33, i => 0);
    forall j | 1 <= j <= 32
      ensures Linked(z, j)
    {
    }
    ZeroRoom(z, 32);
  }

  lemma {:induction false} ZeroRoom(z: seq<nat>, j: nat)
    requires |z| == 33 && j <= 32 && forall i :: 0 <= i < 33 ==> z[i] == 0
    ensures Room(z, j) == WORD
  {
    if j > 0 {
      ZeroRoom(z, j - 1);
    }
  }

  lemma ValidLength(m: seq<nat>)
    requires Valid(m)
    ensures |m| == 33
  {
  }

  lemma UnusedDescribes(m: seq<nat>, lens: seq<nat>, words: seq<nat>, n: nat)
    requires ValidLengths(lens) && n < |lens| == |words| && lens[n] == 0 && |m| == 33
    requires Describes(m, lens, words, n)
    ensures Describes(m, lens, words, n + 1)
  {
    forall x: nat | x < WORD
      ensures Taken(lens, words, n + 1, x) || FreeLeaf(m, x)
    {
      if Taken(lens, words, n, x) {
        var k :| 0 <= k < n && Owns(lens, words, k, x);
        assert Owns(lens, words, k, x);
      }
    }
    forall d | 1 <= d <= 32 && m[d] % 2 == 1
      ensures Free(lens, words, n + 1, m[d], d)
    {
      assert Free(lens, words, n, m[d], d);
    }
  }
}
