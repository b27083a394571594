/** Codewords as bit strings: matching the front of a packet is finding the owner of a leaf. */
module PrefixMatch {
  import opened BitMath
  import opened CodeTree
  import Markers

  /** The leaf reached by following the bits `s` and then always going left. */
  ghost function Leaf(s: seq<bool>): nat
    requires |s| <= MAXLEN
  {
    Start(Msb(s), |s|)
  }

  /** Used entry `i`'s codeword is the next thing in `b`. */
  ghost predicate Matches(lens: seq<nat>, words: seq<nat>, b: seq<bool>, i: nat)
    requires |words| == |lens|
  {
    i < |lens| && lens[i] > 0 && MsbBits(words[i], lens[i]) <= b
  }

  /** The tree is full: every leaf has an owner. */
  ghost predicate Complete(lens: seq<nat>, words: seq<nat>)
  {
    Canonical(lens, words) && Kraft(lens, |lens|) == WORD
  }

  lemma LeafInside(b: seq<bool>, len: nat, read: nat)
    requires len <= read <= |b| && read <= MAXLEN
    ensures Start(Msb(b[..len]), len) <= Leaf(b[..read]) < End(Msb(b[..len]), len)
  {
    var s, v := b[..read], Msb(b[..len]);
    assert s[..len] == b[..len];
    MsbPrefix(s, len);
    SpanPow(len, read);
    ScaleBetween(v, Pow2(read - len), Span(read), Msb(s));
  }

  /** A codeword no longer than `read` bits is a prefix of `b` exactly when it owns the leaf that
      the first `read` bits lead to. */
  lemma MatchIffOwner(w: nat, len: nat, b: seq<bool>, read: nat)
    requires len <= read <= |b| && read <= MAXLEN && w < Pow2(len)
    ensures MsbBits(w, len) <= b <==> Start(w, len) <= Leaf(b[..read]) < End(w, len)
  {
    var v := Msb(b[..len]);
    LeafInside(b, len, read);
    MsbBitsMsb(b[..len]);
    MsbMsbBits(w, len);
    if Start(w, len) <= Leaf(b[..read]) < End(w, len) {
      StartMonotone(w, v, len);
      StartMonotone(v, w, len);
      assert w == v;
    }
    assert MsbBits(w, len) <= b <==> MsbBits(w, len) == b[..len];
  }

  lemma WordsApart(lens: seq<nat>, words: seq<nat>, i: nat, j: nat)
    requires Canonical(lens, words) && i < |lens| && j < |lens| && i != j && lens[i] > 0 && lens[j] > 0
    ensures Disjoint(words[i], lens[i], words[j], lens[j])
  {
    if i < j {
      assert Leftmost(lens, words, j);
    } else {
      assert Leftmost(lens, words, i);
    }
  }

  /** A packet starts with at most one codeword, and no codeword is a prefix of another. */
  lemma MatchUnique(lens: seq<nat>, words: seq<nat>, b: seq<bool>, i: nat, j: nat)
    requires Canonical(lens, words) && Matches(lens, words, b, i) && Matches(lens, words, b, j)
    ensures i == j
  {
    if i != j {
      var read := if lens[i] < lens[j] then lens[j] else lens[i];
      assert Leftmost(lens, words, i) && Leftmost(lens, words, j);
      MatchIffOwner(words[i], lens[i], b, read);
      MatchIffOwner(words[j], lens[j], b, read);
      WordsApart(lens, words, i, j);
    }
  }

  lemma PrefixFree(lens: seq<nat>, words: seq<nat>, i: nat, j: nat)
    requires Canonical(lens, words) && i < |lens| && j < |lens| && lens[i] > 0 && lens[j] > 0
    requires MsbBits(words[i], lens[i]) <= MsbBits(words[j], lens[j])
    ensures i == j
  {
    MatchUnique(lens, words, MsbBits(words[j], lens[j]), i, j);
  }

  // ---------------------------------------------------------------------------------------------
  // A full tree leaves no leaf without an owner
  // ---------------------------------------------------------------------------------------------

  /** Whatever assigned the canonical words, the markers of `_make_words` describe what is left. */
  lemma {:induction false} CanonicalMarkers(lens: seq<nat>, words: seq<nat>, n: nat) returns (m: seq<nat>)
    requires Canonical(lens, words) && Kraft(lens, |lens|) <= WORD && n <= |lens|
    ensures Markers.Valid(m) && Markers.Describes(m, lens, words, n)
    ensures Markers.Room(m, 32) + Kraft(lens, n) == WORD
  {
    hide Canonical, Markers.Valid, Markers.Describes, Markers.Room, Kraft;
    CanonicalShape(lens, words);
    if n == 0 {
      m := seq(33, i => 0);
      Markers.ZeroDescribes(lens, words);
      KraftNext(lens, 0);
    } else {
      m := CanonicalMarkers(lens, words, n - 1);
      KraftMonotone(lens, n, |lens|);
      if lens[n - 1] == 0 {
        KraftNext(lens, n);
        Markers.ValidLength(m);
        Markers.UnusedDescribes(m, lens, words, n - 1);
      } else {
        m := PlaceNext(m, lens, words, n - 1);
      }
    }
  }

  lemma CanonicalShape(lens: seq<nat>, words: seq<nat>)
    requires Canonical(lens, words)
    ensures ValidLengths(lens) && |words| == |lens|
  {
  }

  lemma KraftNext(lens: seq<nat>, n: nat)
    requires ValidLengths(lens) && n <= |lens|
    ensures n == 0 ==> Kraft(lens, n) == 0
    ensures n > 0 && lens[n - 1] == 0 ==> Kraft(lens, n) == Kraft(lens, n - 1)
  {
  }

  lemma PlaceNext(m: seq<nat>, lens: seq<nat>, words: seq<nat>, n: nat) returns (r: seq<nat>)
    requires Canonical(lens, words) && n < |lens| && lens[n] > 0
    requires Markers.Valid(m) && Markers.Describes(m, lens, words, n)
    requires Markers.Room(m, 32) + Kraft(lens, n) == WORD && Kraft(lens, n + 1) <= WORD
    ensures Markers.Valid(r) && Markers.Describes(r, lens, words, n + 1)
    ensures Markers.Room(r, 32) + Kraft(lens, n + 1) == WORD
  {
    var len := lens[n];
    Markers.HasRoom(m, len);
    if m[len] == Pow2(len) {
      Markers.NoRoomAbove(m, len);
      Markers.RoomBelow(m, len, 32);
    }
    Markers.MarkerIsLeftmost(m, lens, words, n, len);
    assert Leftmost(lens, words, n);
    assert words[n] == m[len];
    var d, e := Markers.FindBetween(m, len);
    r := Markers.BuildPlaced(m, len, d, e);
    Markers.PlacedIsValid(m, r, len, d, e);
    Markers.PlacedDescribes(m, r, d, e, lens, words, n);
    Markers.PlacedRoom(m, r, len, d, e, 32);
  }

  lemma {:induction false} NoRoomNoSubtree(m: seq<nat>, j: nat, d: nat)
    requires |m| == 33 && 1 <= d <= j <= 32 && Markers.Room(m, j) == 0
    ensures m[0] != 0 && m[d] % 2 == 0
  {
    if d < j {
      NoRoomNoSubtree(m, j - 1, d);
    } else {
      Markers.RoomBelow(m, 0, j - 1);
    }
  }

  lemma EveryLeafOwned(lens: seq<nat>, words: seq<nat>, x: nat) returns (k: nat)
    requires Complete(lens, words) && x < WORD
    ensures k < |lens| && Markers.Owns(lens, words, k, x)
  {
    var m := CanonicalMarkers(lens, words, |lens|);
    NoRoomNoSubtree(m, 32, 1);
    if Markers.FreeLeaf(m, x) {
      var d :| 1 <= d <= 32 && Markers.InSubtree(m, d, x);
      NoRoomNoSubtree(m, 32, d);
    }
    assert Markers.Taken(lens, words, |lens|, x);
    k :| 0 <= k < |lens| && Markers.Owns(lens, words, k, x);
  }

  /** A full tree matches every bit string that is long enough. */
  lemma LongEnoughMatches(lens: seq<nat>, words: seq<nat>, b: seq<bool>) returns (k: nat)
    requires Complete(lens, words) && |b| >= MAXLEN
    ensures Matches(lens, words, b, k)
  {
    var x := Leaf(b[..MAXLEN]);
    MsbBound(b[..MAXLEN]);
    InTree(Msb(b[..MAXLEN]), MAXLEN);
    k := EveryLeafOwned(lens, words, x);
    assert Leftmost(lens, words, k);
    MatchIffOwner(words[k], lens[k], b, MAXLEN);
  }
}
