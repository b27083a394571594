/** What the decode side of a codebook stores, and why looking a packet up in it is the same as
    matching codeword prefixes. */
module DecodeTables {
  import opened BitMath
  import opened CodeTree
  import opened PrefixMatch
  import Markers

  /** A first-table cell with this bit set holds search hints instead of an entry. */
  const HINT: nat := 0x8000_0000

  /** Each hint has 15 bits. */
  const HINTMAX: nat := 0x7fff

  /** The used entries in order of their left-aligned codewords. */
  ghost predicate Sorted(lens: seq<nat>, words: seq<nat>, codelist: seq<nat>, index: seq<nat>, lengths: seq<nat>)
    requires ValidLengths(lens) && |words| == |lens|
  {
    && |codelist| == |index| == |lengths| == Used(lens)
    && (forall p :: 0 <= p < |index| ==> Names(lens, words, codelist, index, lengths, p))
    && Increasing(codelist)
    && (forall e :: 0 <= e < |lens| && lens[e] > 0 ==> e in index)
  }

  ghost predicate Increasing(codelist: seq<nat>)
  {
    forall p, q :: 0 <= p < q < |codelist| ==> codelist[p] < codelist[q]
  }

  /** Position `p` of the sorted lists describes one used entry. */
  ghost predicate Names(lens: seq<nat>, words: seq<nat>, codelist: seq<nat>, index: seq<nat>, lengths: seq<nat>, p: nat)
    requires ValidLengths(lens) && |words| == |lens|
  {
    && p < |codelist| && p < |index| && p < |lengths|
    && index[p] < |lens| && 0 < lens[index[p]] == lengths[p]
    && codelist[p] == Start(words[index[p]], lengths[p])
  }

  /** The codeword at sorted position `p` is short enough for the first table and starts `b`. */
  ghost predicate Short(lens: seq<nat>, words: seq<nat>, index: seq<nat>, tl: nat, b: seq<bool>, p: nat)
    requires |words| == |lens|
  {
    p < |index| && Matches(lens, words, b, index[p]) && lens[index[p]] <= tl
  }

  /** `cell` narrows the search for packets that start with the `tl` bits of `i`, read MSb first. */
  ghost predicate Hints(codelist: seq<nat>, tl: nat, i: nat, cell: nat)
    requires tl <= MAXLEN
  {
    && cell >= HINT
    && var lo, n := ((cell - HINT) / 0x8000) % 0x8000, |codelist|;
       var hi := n - (cell - HINT) % 0x8000;
       && 0 <= lo < hi <= n
       && codelist[lo] <= Start(i, tl)
       && (hi < n ==> End(i, tl) <= codelist[hi])
  }

  /** Cell `v` of the first table: the only short codeword the bits of `v` can start with, or else hints. */
  ghost predicate Cell(lens: seq<nat>, words: seq<nat>, codelist: seq<nat>, index: seq<nat>, tl: nat, v: nat, cell: nat)
    requires |words| == |lens| && tl <= MAXLEN
  {
    if 0 < cell < HINT then Short(lens, words, index, tl, ToBits(v, tl), cell - 1)
    else
      && Hints(codelist, tl, Reverse(v, tl), cell)
      && forall p :: 0 <= p < |index| ==> !Short(lens, words, index, tl, ToBits(v, tl), p)
  }

  ghost predicate FirstTable(lens: seq<nat>, words: seq<nat>, codelist: seq<nat>, index: seq<nat>, tl: nat,
                             table: seq<nat>)
    requires |words| == |lens|
  {
    && 5 <= tl <= 8 && |table| == Pow2(tl)
    && forall v :: 0 <= v < |table| ==> Cell(lens, words, codelist, index, tl, v, table[v])
  }

  /** Position `lo` holds the last codeword at or left of leaf `x`. */
  ghost predicate Floor(codelist: seq<nat>, x: nat, lo: nat)
  {
    lo < |codelist| && codelist[lo] <= x && (lo + 1 < |codelist| ==> x < codelist[lo + 1])
  }

  lemma NotAfterFloor(codelist: seq<nat>, x: nat, lo: nat, p: nat)
    requires Increasing(codelist) && Floor(codelist, x, lo) && p < |codelist| && codelist[p] <= x
    ensures p <= lo
  {
    if lo + 1 < p {
      var next := lo + 1;
    }
  }

  /** In a full tree the codeword at or left of a leaf owns it. */
  lemma FloorOwns(lens: seq<nat>, words: seq<nat>, codelist: seq<nat>, index: seq<nat>, lengths: seq<nat>, x: nat,
                  lo: nat)
    requires Complete(lens, words) && Sorted(lens, words, codelist, index, lengths)
    requires x < WORD && Floor(codelist, x, lo)
    ensures index[lo] < |lens| && Markers.Owns(lens, words, index[lo], x)
  {
    var k := EveryLeafOwned(lens, words, x);
    var p :| 0 <= p < |index| && index[p] == k;
    assert Names(lens, words, codelist, index, lengths, p);
    assert Names(lens, words, codelist, index, lengths, lo);
    if index[p] != index[lo] {
      WordsApart(lens, words, index[p], index[lo]);
      NotAfterFloor(codelist, x, lo, p);
    }
  }

  /** A match owns the leaf that the bits lead to. */
  lemma MatchOwns(lens: seq<nat>, words: seq<nat>, b: seq<bool>, read: nat, i: nat)
    requires Canonical(lens, words) && Matches(lens, words, b, i) && lens[i] <= read <= |b| && read <= MAXLEN
    ensures Markers.Owns(lens, words, i, Leaf(b[..read]))
  {
    assert Leftmost(lens, words, i);
    MatchIffOwner(words[i], lens[i], b, read);
  }

  lemma OwnerUnique(lens: seq<nat>, words: seq<nat>, x: nat, i: nat, j: nat)
    requires Canonical(lens, words) && i < |lens| && j < |lens|
    requires Markers.Owns(lens, words, i, x) && Markers.Owns(lens, words, j, x)
    ensures i == j
  {
    if i != j {
      WordsApart(lens, words, i, j);
    }
  }

  /** The bisection's answer is the prefix match, or shows that there is none. */
  lemma FloorMatches(lens: seq<nat>, words: seq<nat>, codelist: seq<nat>, index: seq<nat>, lengths: seq<nat>,
                     b: seq<bool>, read: nat, lo: nat)
    requires Complete(lens, words) && Sorted(lens, words, codelist, index, lengths)
    requires read <= |b| && read <= MAXLEN && Floor(codelist, Leaf(b[..read]), lo)
    requires forall e :: 0 <= e < |lens| ==> lens[e] <= read || |b| == read
    ensures lengths[lo] <= read ==> Matches(lens, words, b, index[lo])
    ensures lengths[lo] > read ==> forall e :: !Matches(lens, words, b, e)
  {
    var x := Leaf(b[..read]);
    MsbBound(b[..read]);
    InTree(Msb(b[..read]), read);
    FloorOwns(lens, words, codelist, index, lengths, x, lo);
    assert Names(lens, words, codelist, index, lengths, lo);
    assert Leftmost(lens, words, index[lo]);
    if lengths[lo] <= read {
      MatchIffOwner(words[index[lo]], lens[index[lo]], b, read);
    } else {
      forall e | Matches(lens, words, b, e)
        ensures false
      {
        MatchOwns(lens, words, b, read, e);
        OwnerUnique(lens, words, x, index[lo], e);
      }
    }
  }

  /** Without a short match, the leaf lies between the hints, and the longest codeword is long. */
  lemma HintsBracket(lens: seq<nat>, words: seq<nat>, codelist: seq<nat>, index: seq<nat>, lengths: seq<nat>,
                     tl: nat, table: seq<nat>, b: seq<bool>, read: nat)
    requires Complete(lens, words) && Sorted(lens, words, codelist, index, lengths)
    requires FirstTable(lens, words, codelist, index, tl, table)
    requires tl <= |b| && read <= |b| && read <= MAXLEN
    requires forall e :: 0 <= e < |lens| ==> lens[e] <= read || |b| == read
    requires FromBits(b[..tl]) < |table| && !(0 < table[FromBits(b[..tl])] < HINT)
    ensures tl <= read
    ensures Start(Reverse(FromBits(b[..tl]), tl), tl) <= Leaf(b[..read]) < End(Reverse(FromBits(b[..tl]), tl), tl)
  {
    var v := FromBits(b[..tl]);
    ToFromBits(b[..tl]);
    ReverseIsMsb(v, tl);
    assert Cell(lens, words, codelist, index, tl, v, table[v]);
    if read < tl {
      var x := Leaf(b[..tl]);
      MsbBound(b[..tl]);
      InTree(Msb(b[..tl]), tl);
      var k := EveryLeafOwned(lens, words, x);
      var p :| 0 <= p < |index| && index[p] == k;
      assert Leftmost(lens, words, k);
      MatchIffOwner(words[k], lens[k], b[..tl], tl);
      assert b[..tl][..tl] == b[..tl];
      assert Short(lens, words, index, tl, ToBits(v, tl), p);
      assert false;
    }
    LeafInside(b, tl, read);
  }

  /** The first codeword in order is all zeros. */
  lemma FirstIsZero(lens: seq<nat>, words: seq<nat>, codelist: seq<nat>, index: seq<nat>, lengths: seq<nat>)
    requires Complete(lens, words) && Sorted(lens, words, codelist, index, lengths)
    ensures |codelist| > 0 && codelist[0] == 0
  {
    var k := EveryLeafOwned(lens, words, 0);
    var p :| 0 <= p < |index| && index[p] == k;
    assert Names(lens, words, codelist, index, lengths, p);
  }

  /** Bit-reversing the bits looked at gives the leaf they lead to. */
  lemma LookedUpLeaf(s: seq<bool>)
    requires |s| <= MAXLEN
    ensures Reverse(FromBits(s), MAXLEN) == Leaf(s)
  {
    var v := FromBits(s);
    FromBitsBound(s);
    ToFromBits(s);
    hide FromBits, Reverse, Msb, ToBits, Pow2;
    ReverseWide(v, |s|, MAXLEN);
  }

  // ---------------------------------------------------------------------------------------------
  // What a lookup answers
  // ---------------------------------------------------------------------------------------------

  /** Everything the tables of a book with at least one used entry promise. */
  ghost predicate Tables(lens: seq<nat>, words: seq<nat>, codelist: seq<nat>, index: seq<nat>, lengths: seq<nat>,
                         tl: nat, table: seq<nat>, longest: nat)
  {
    && Canonical(lens, words)
    && Sorted(lens, words, codelist, index, lengths) && |codelist| > 0
    && FirstTable(lens, words, codelist, index, tl, table)
    && (|codelist| == 1 || Complete(lens, words))
    && tl == TableBits(|codelist|)
    && 1 <= longest <= MAXLEN && longest in lens
    && forall e :: 0 <= e < |lens| ==> lens[e] <= longest
  }

  /** The first table looks at 5 to 8 bits, four fewer than it takes to count the entries. */
  function TableBits(used: nat): (tl: nat)
    ensures 5 <= tl <= 8
  {
    var bits := ILog(used);
    if bits < 9 then 5 else if bits > 12 then 8 else bits - 4
  }

  /** `packed` (or -1) is the right answer for a packet with `rest` left, and `adv` bits are consumed.
      A full tree answers with the entry whose codeword comes next, and with -1 exactly when no
      codeword fits in what is left. The one-entry book accepts any bits. */
  ghost predicate Answer(lens: seq<nat>, words: seq<nat>, index: seq<nat>, lengths: seq<nat>,
                         rest: seq<bool>, packed: int, adv: int)
    requires ValidLengths(lens) && |words| == |lens| && |index| == |lengths|
  {
    && -1 <= packed < |index| && 0 <= adv <= |rest|
    && (packed >= 0 ==> adv == lengths[packed])
    && (packed == -1 ==> adv == |rest|)
    && (Complete(lens, words) ==>
         if packed >= 0 then Matches(lens, words, rest, index[packed])
         else forall e :: !Matches(lens, words, rest, e))
    && (|index| == 1 ==> (packed == 0 <==> |rest| >= lengths[0]))
  }

  lemma TableShape(lens: seq<nat>, words: seq<nat>, codelist: seq<nat>, index: seq<nat>, lengths: seq<nat>,
                   tl: nat, table: seq<nat>, longest: nat)
    requires Tables(lens, words, codelist, index, lengths, tl, table, longest)
    ensures |codelist| == |index| == |lengths| == Used(lens) && tl <= 8 && |table| == Pow2(tl)
    ensures 1 <= longest <= MAXLEN && Canonical(lens, words)
    ensures Increasing(codelist)
    ensures forall p :: 0 <= p < |lengths| ==> lengths[p] <= longest
  {
    forall p | 0 <= p < |lengths|
      ensures lengths[p] <= longest
    {
      assert Names(lens, words, codelist, index, lengths, p);
    }
  }

  lemma CellShape(lens: seq<nat>, words: seq<nat>, codelist: seq<nat>, index: seq<nat>, lengths: seq<nat>,
                   tl: nat, table: seq<nat>, longest: nat, v: nat)
    requires Tables(lens, words, codelist, index, lengths, tl, table, longest)
    requires v < |table|
    ensures table[v] != 0
    ensures table[v] >= HINT ==> (table[v] - HINT) % 0x8000 <= |codelist|
  {
    assert Cell(lens, words, codelist, index, tl, v, table[v]);
  }

  lemma DirectAnswer(lens: seq<nat>, words: seq<nat>, codelist: seq<nat>, index: seq<nat>, lengths: seq<nat>,
                     tl: nat, table: seq<nat>, longest: nat, rest: seq<bool>)
    requires Tables(lens, words, codelist, index, lengths, tl, table, longest) && tl <= |rest|
    requires var v := FromBits(rest[..tl]); v < |table| && 0 < table[v] < HINT
    ensures var p := table[FromBits(rest[..tl])] - 1;
      p < |lengths| && lengths[p] <= |rest| && Answer(lens, words, index, lengths, rest, p, lengths[p])
  {
    var v := FromBits(rest[..tl]);
    ToFromBits(rest[..tl]);
    assert Cell(lens, words, codelist, index, tl, v, table[v]);
    assert Names(lens, words, codelist, index, lengths, table[v] - 1);
  }

  lemma EmptyAnswer(lens: seq<nat>, words: seq<nat>, codelist: seq<nat>, index: seq<nat>, lengths: seq<nat>,
                    tl: nat, table: seq<nat>, longest: nat)
    requires Tables(lens, words, codelist, index, lengths, tl, table, longest)
    ensures Answer(lens, words, index, lengths, [], -1, 0)
  {
    assert Names(lens, words, codelist, index, lengths, 0);
  }

  /** The bisection starts from the hints, or from the whole list when too few bits are left to look. */
  ghost predicate StartsAt(codelist: seq<nat>, tl: nat, table: seq<nat>, rest: seq<bool>, lo: nat, hi: nat)
  {
    if |rest| < tl then lo == 0 && hi == |codelist|
    else
      var v := FromBits(rest[..tl]);
      && v < |table| && table[v] >= HINT
      && lo == ((table[v] - HINT) / 0x8000) % 0x8000 && hi == |codelist| - (table[v] - HINT) % 0x8000
  }

  /** The bisection starts with the answer between its ends. */
  lemma StartBracket(lens: seq<nat>, words: seq<nat>, codelist: seq<nat>, index: seq<nat>, lengths: seq<nat>,
                     tl: nat, table: seq<nat>, longest: nat, rest: seq<bool>, read: nat, lo: nat, hi: nat)
    requires Tables(lens, words, codelist, index, lengths, tl, table, longest)
    requires 1 <= read <= longest && read <= |rest| && (read < longest ==> |rest| == read)
    requires StartsAt(codelist, tl, table, rest, lo, hi)
    ensures lo < hi <= |codelist|
    ensures Complete(lens, words) ==> codelist[lo] <= Leaf(rest[..read])
    ensures Complete(lens, words) && hi < |codelist| ==> Leaf(rest[..read]) < codelist[hi]
  {
    hide Complete, Sorted, TableBits, Leaf;
    if |rest| < tl {
      if Complete(lens, words) {
        FirstIsZero(lens, words, codelist, index, lengths);
      }
    } else {
      var v := FromBits(rest[..tl]);
      assert Cell(lens, words, codelist, index, tl, v, table[v]);
      if Complete(lens, words) {
        HintsBracket(lens, words, codelist, index, lengths, tl, table, rest, read);
      }
    }
  }

  lemma SearchAnswer(lens: seq<nat>, words: seq<nat>, codelist: seq<nat>, index: seq<nat>, lengths: seq<nat>,
                     tl: nat, table: seq<nat>, longest: nat, rest: seq<bool>, read: nat, lo: nat)
    requires Tables(lens, words, codelist, index, lengths, tl, table, longest)
    requires 1 <= read <= longest && read <= |rest| && (read < longest ==> |rest| == read)
    requires lo < |codelist| && (Complete(lens, words) ==> Floor(codelist, Leaf(rest[..read]), lo))
    ensures lengths[lo] <= read ==> Answer(lens, words, index, lengths, rest, lo, lengths[lo])
    ensures lengths[lo] > read ==> Answer(lens, words, index, lengths, rest, -1, read)
  {
    assert Names(lens, words, codelist, index, lengths, lo);
    if Complete(lens, words) {
      FloorMatches(lens, words, codelist, index, lengths, rest, read, lo);
    }
  }
}
