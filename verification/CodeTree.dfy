/** The binary tree of codewords, seen from its 2^32 leaves: a node of depth `len` (0 to 32) is a
    number `w` below 2^len and owns the leaves `[Start(w, len), End(w, len))`. */
module CodeTree {
  import opened BitMath

  const MAXLEN := 32

  /** Codeword lengths as a codebook header carries them: 0 marks an unused entry, a 24-bit count. */
  ghost predicate ValidLengths(lens: seq<nat>)
  {
    |lens| < 0x100_0000 && forall i :: 0 <= i < |lens| ==> lens[i] <= MAXLEN
  }

  function Span(len: nat): (s: nat)
    requires len <= MAXLEN
    ensures s > 0
  {
    Pow2(MAXLEN - len)
  }

  function Start(w: nat, len: nat): nat
    requires len <= MAXLEN
  {
    w * Span(len)
  }

  function End(w: nat, len: nat): nat
    requires len <= MAXLEN
  {
    Start(w, len) + Span(len)
  }

  /** Neither node lies on the path to the other. */
  ghost predicate Disjoint(w: nat, len: nat, w': nat, len': nat)
    requires len <= MAXLEN && len' <= MAXLEN
  {
    End(w, len) <= Start(w', len') || End(w', len') <= Start(w, len)
  }

  /** Leaves claimed by the used entries among the first `n`: the Kraft sum, times 2^32. */
  ghost function Kraft(lens: seq<nat>, n: nat): nat
    requires n <= |lens| && ValidLengths(lens)
  {
    if n == 0 then 0
    else Kraft(lens, n - 1) + (if lens[n - 1] > 0 then Span(lens[n - 1]) else 0)
  }

  function Used(lens: seq<nat>): nat
  {
    if lens == [] then 0 else Used(lens[..|lens| - 1]) + (if lens[|lens| - 1] > 0 then 1 else 0)
  }

  /** No used entry among the first `n` conflicts with node `w` of depth `len`. */
  ghost predicate Free(lens: seq<nat>, words: seq<nat>, n: nat, w: nat, len: nat)
    requires n <= |lens| && n <= |words| && ValidLengths(lens) && len <= MAXLEN
  {
    forall k :: 0 <= k < n && lens[k] > 0 ==> Disjoint(words[k], lens[k], w, len)
  }

  /** Entry `n` took the leftmost node of its depth that its predecessors had left free. */
  ghost predicate Leftmost(lens: seq<nat>, words: seq<nat>, n: nat)
    requires n < |lens| && n < |words| && ValidLengths(lens)
  {
    && words[n] < Pow2(lens[n])
    && Free(lens, words, n, words[n], lens[n])
    && forall v: nat :: v < words[n] ==> !Free(lens, words, n, v, lens[n])
  }

  /** The codeword assignment of section 3.2.1 of the Vorbis I specification. */
  ghost predicate Canonical(lens: seq<nat>, words: seq<nat>)
  {
    && ValidLengths(lens) && |words| == |lens|
    && forall n :: 0 <= n < |lens| && lens[n] > 0 ==> Leftmost(lens, words, n)
  }

  lemma {:induction false} KraftMonotone(lens: seq<nat>, n: nat, n': nat)
    requires ValidLengths(lens) && n <= n' <= |lens|
    ensures Kraft(lens, n) <= Kraft(lens, n')
  {
    if n < n' {
      KraftMonotone(lens, n, n' - 1);
    }
  }

  lemma {:induction false} FreePrefix(lens: seq<nat>, words: seq<nat>, words': seq<nat>, n: nat, w: nat, len: nat)
    requires n <= |lens| && n <= |words| && n <= |words'| && ValidLengths(lens) && len <= MAXLEN
    requires forall k :: 0 <= k < n && lens[k] > 0 ==> words[k] == words'[k]
    ensures Free(lens, words, n, w, len) == Free(lens, words', n, w, len)
  {
  }

  /** Lengths determine the codewords. */
  lemma {:induction false} CanonicalUnique(lens: seq<nat>, words: seq<nat>, words': seq<nat>, n: nat)
    requires Canonical(lens, words) && Canonical(lens, words') && n <= |lens|
    ensures forall k :: 0 <= k < n && lens[k] > 0 ==> words[k] == words'[k]
  {
    if n > 0 {
      CanonicalUnique(lens, words, words', n - 1);
      if lens[n - 1] > 0 {
        assert Leftmost(lens, words, n - 1) && Leftmost(lens, words', n - 1);
        FreePrefix(lens, words, words', n - 1, words[n - 1], lens[n - 1]);
        FreePrefix(lens, words, words', n - 1, words'[n - 1], lens[n - 1]);
      }
    }
  }

  lemma SpanHalves(len: nat)
    requires 1 <= len <= MAXLEN
    ensures Span(len - 1) == 2 * Span(len)
  {
  }

  lemma {:induction false} SpanPow(a: nat, b: nat)
    requires a <= b <= MAXLEN
    ensures Span(a) == Pow2(b - a) * Span(b) && Span(b) <= Span(a)
  {
    Pow2Add(b - a, MAXLEN - b);
    Pow2Monotone(MAXLEN - b, MAXLEN - a);
  }

  lemma SpanMonotone(a: nat, b: nat)
    requires a <= b <= MAXLEN
    ensures Span(b) <= Span(a)
  {
    Pow2Monotone(MAXLEN - b, MAXLEN - a);
  }

  /** A node above `b`'s depth starts where one of the nodes at that depth starts. */
  lemma StartDown(w: nat, a: nat, b: nat)
    requires a <= b <= MAXLEN
    ensures Start(w, a) == Start(w * Pow2(b - a), b)
  {
    SpanPow(a, b);
    MulAssoc(w, Pow2(b - a), Span(b));
  }

  lemma StartMonotone(w: nat, w': nat, len: nat)
    requires len <= MAXLEN
    ensures w < w' ==> End(w, len) <= Start(w', len)
    ensures w <= w' ==> Start(w, len) <= Start(w', len)
  {
    if w < w' {
      MulStep(w, w', Span(len));
    }
  }

  lemma StartInjective(w: nat, w': nat, len: nat)
    requires len <= MAXLEN && Start(w', len) <= Start(w, len) < End(w', len)
    ensures w == w'
  {
    StartMonotone(w, w', len);
    StartMonotone(w', w, len);
  }

  /** Every node ends inside the tree. */
  lemma InTree(w: nat, len: nat)
    requires len <= MAXLEN && w < Pow2(len)
    ensures End(w, len) <= WORD
  {
    Pow2Facts();
    Pow2Add(len, MAXLEN - len);
    StartMonotone(w, Pow2(len), len);
  }
}
