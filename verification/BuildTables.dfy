/** The steps of `vorbis_book_init_decode`. */
module BuildTables {
  import opened BitMath
  import opened CodeTree
  import opened PrefixMatch
  import opened DecodeTables
  import opened SharedBook
  import opened PointerSort

  // ---------------------------------------------------------------------------------------------
  // Compact positions: used entries in entry order
  // ---------------------------------------------------------------------------------------------

  /** `e` is the used entry with `c` used entries before it. */
  ghost predicate IsEntry(lens: seq<nat>, c: nat, e: nat)
  {
    e < |lens| && lens[e] > 0 && Used(lens[..e]) == c
  }

  lemma {:induction false} EntryExists(lens: seq<nat>, n: nat, c: nat) returns (e: nat)
    requires n <= |lens| && c < Used(lens[..n])
    ensures e < n && IsEntry(lens, c, e)
  {
    UsedStep(lens, n - 1);
    if lens[n - 1] > 0 && c == Used(lens[..n - 1]) {
      e := n - 1;
    } else {
      e := EntryExists(lens, n - 1, c);
    }
  }

  lemma EntryUnique(lens: seq<nat>, c: nat, c': nat, e: nat, e': nat)
    requires IsEntry(lens, c, e) && IsEntry(lens, c', e')
    ensures e == e' <==> c == c'
    ensures c < Used(lens)
  {
    UsedStep(lens, e);
    UsedStep(lens, e');
    UsedMonotone(lens, e + 1, |lens|);
    assert lens[..|lens|] == lens;
    if e < e' {
      UsedMonotone(lens, e + 1, e');
    } else if e' < e {
      UsedMonotone(lens, e' + 1, e);
    }
  }

  /** Left-aligned codewords by compact position. */
  ghost predicate Compact(lens: seq<nat>, words: seq<nat>, codes: seq<nat>)
    requires ValidLengths(lens) && |words| == |lens|
  {
    && |codes| == Used(lens)
    && forall c: nat, e: nat :: IsEntry(lens, c, e) ==> c < |codes| && codes[c] == Start(words[e], lens[e])
  }

  method AlignAll(lens: seq<nat>, codes: array<nat>, ghost words: seq<nat>)
    requires Canonical(lens, words) && codes.Length == Used(lens)
    requires Packed(lens, true, words, |lens|, codes[..])
    modifies codes
    ensures Compact(lens, words, codes[..])
  {
    ghost var was := codes[..];
    var i := 0;
    while i < codes.Length
      invariant 0 <= i <= codes.Length
      invariant forall c :: 0 <= c < i ==> codes[c] == Reverse(was[c], MAXLEN)
      invariant forall c :: i <= c < codes.Length ==> codes[c] == was[c]
    {
      codes[i] := Reverse(codes[i], MAXLEN);
      i := i + 1;
    }
    AlignedIsCompact(lens, was, codes[..], words);
  }

  lemma AlignedIsCompact(lens: seq<nat>, was: seq<nat>, codes: seq<nat>, words: seq<nat>)
    requires Canonical(lens, words) && |codes| == |was| == Used(lens)
    requires Packed(lens, true, words, |lens|, was)
    requires forall c :: 0 <= c < |was| ==> codes[c] == Reverse(was[c], MAXLEN)
    ensures Compact(lens, words, codes)
  {
    forall c: nat, e: nat | IsEntry(lens, c, e)
      ensures c < |codes| && codes[c] == Start(words[e], lens[e])
    {
      EntryUnique(lens, c, c, e, e);
      assert was[Slot(lens, true, e)] == Reverse(words[e], lens[e]);
      assert Leftmost(lens, words, e);
      AlignWord(words[e], lens[e]);
    }
  }

  /** The 32-bit reversal of a packed word is the word, left aligned; and back. */
  lemma AlignWord(w: nat, len: nat)
    requires len <= MAXLEN && w < Pow2(len)
    ensures Reverse(Reverse(w, len), MAXLEN) == Start(w, len)
    ensures Reverse(Start(w, len), MAXLEN) == Reverse(w, len)
  {
    var r := Reverse(w, len);
    ReverseWide(r, len, MAXLEN);
    ReverseBits(w, len);
    MsbMsbBits(w, len);
    Pow2Monotone(len, MAXLEN);
    ReverseTwice(r, MAXLEN);
  }

  lemma DistinctCodes(lens: seq<nat>, words: seq<nat>, codes: seq<nat>, c: nat, c': nat)
    requires Canonical(lens, words) && Compact(lens, words, codes) && c < |codes| && c' < |codes| && c != c'
    ensures codes[c] != codes[c']
  {
    assert lens[..|lens|] == lens;
    var e := EntryExists(lens, |lens|, c);
    var e' := EntryExists(lens, |lens|, c');
    EntryUnique(lens, c, c', e, e');
    WordsApart(lens, words, e, e');
  }

  // ---------------------------------------------------------------------------------------------
  // The sorted lists
  // ---------------------------------------------------------------------------------------------

  /** `list` holds at each used entry's sorted place what `value` gives for that entry. */
  ghost predicate Spread<T>(lens: seq<nat>, place: seq<nat>, list: seq<T>, value: seq<T>, n: nat)
    requires |value| == |lens|
  {
    && |list| == |place| == Used(lens)
    && forall c: nat, e: nat :: IsEntry(lens, c, e) && e < n ==>
         c < |place| && place[c] < |list| && list[place[c]] == value[e]
  }

  /** `list[sortindex[n++]] = value[i]` over the used entries `i`. */
  method SpreadValues(lens: seq<nat>, value: seq<nat>, sortindex: array<nat>, ghost codep: seq<nat>)
      returns (list: array<nat>)
    requires |value| == |lens| && sortindex.Length == Used(lens) && Permutes(codep, sortindex[..])
    ensures fresh(list) && Spread(lens, sortindex[..], list[..], value, |lens|)
  {
    hide Permutes, Spread;
    list := new nat[sortindex.Length](i => 0);
    ghost var place := sortindex[..];
    var i, n := 0, 0;
    SpreadStart(lens, place, list[..], value);
    while i < |lens|
      invariant 0 <= i <= |lens| && n == Used(lens[..i]) && sortindex[..] == place
      invariant fresh(list) && list.Length == |place| && Spread(lens, place, list[..], value, i)
    {
      UsedStep(lens, i);
      ghost var was := list[..];
      SpreadStep(lens, codep, place, was, value, i);
      if lens[i] > 0 {
        list[sortindex[n]] := value[i];
        assert list[..] == was[place[n] := value[i]];
        n := n + 1;
      }
      i := i + 1;
    }
  }

  lemma SpreadStart<T>(lens: seq<nat>, place: seq<nat>, list: seq<T>, value: seq<T>)
    requires |value| == |lens| && |list| == |place| == Used(lens)
    ensures Spread(lens, place, list, value, 0)
  {
  }

  lemma SpreadStep<T>(lens: seq<nat>, codep: seq<nat>, place: seq<nat>, list: seq<T>, value: seq<T>, i: nat)
    requires |value| == |lens| && Permutes(codep, place) && i < |lens| && Spread(lens, place, list, value, i)
    ensures var n := Used(lens[..i]);
      if lens[i] > 0 then
        n < |place| && place[n] < |list| && Spread(lens, place, list[place[n] := value[i]], value, i + 1)
      else Spread(lens, place, list, value, i + 1)
  {
    var n := Used(lens[..i]);
    if lens[i] > 0 {
      assert IsEntry(lens, n, i);
      EntryUnique(lens, n, n, i, i);
      var now := list[place[n] := value[i]];
      forall c: nat, e: nat | IsEntry(lens, c, e) && e < i + 1
        ensures c < |place| && place[c] < |now| && now[place[c]] == value[e]
      {
        EntryUnique(lens, c, n, e, i);
        assert codep[place[c]] == c && codep[place[n]] == n;
      }
    } else {
      forall c: nat, e: nat | IsEntry(lens, c, e) && e < i + 1
        ensures e < i
      {
      }
    }
  }

  /** `codelist` is `codes` in the order given by the pointers. */
  ghost predicate Follows(codelist: seq<nat>, codes: seq<nat>, codep: seq<nat>)
  {
    && |codelist| == |codep| == |codes|
    && forall a :: 0 <= a < |codep| ==> codep[a] < |codes| && codelist[a] == codes[codep[a]]
  }

  /** `codelist[sortindex[i]] = codes[i]`, after inverting the sorted pointers into `sortindex`. */
  method SortCodes(codes: array<nat>, codep: array<nat>, ghost place: seq<nat>)
      returns (sortindex: array<nat>, codelist: array<nat>)
    requires Permutes(codep[..], place) && codep.Length == codes.Length
    ensures fresh(sortindex) && fresh(codelist) && sortindex != codelist && sortindex[..] == place
    ensures Follows(codelist[..], codes[..], codep[..]) && sortindex.Length == codes.Length
  {
    var n := codes.Length;
    sortindex := new nat[n](i => 0);
    codelist := new nat[n](i => 0);
    var i := 0;
    while i < n
      invariant 0 <= i <= n && Permutes(codep[..], place)
      invariant forall a :: 0 <= a < i ==> sortindex[codep[..][a]] == a
    {
      assert codep[..][i] < n && place[codep[..][i]] == i;
      sortindex[codep[i]] := i;
      i := i + 1;
    }
    forall c | 0 <= c < n
      ensures sortindex[c] == place[c]
    {
      assert codep[..][place[c]] == c;
    }
    assert sortindex[..] == place;
    i := 0;
    while i < n
      invariant 0 <= i <= n && sortindex[..] == place && Permutes(codep[..], place)
      invariant forall c :: 0 <= c < i ==> codelist[place[c]] == codes[c]
    {
      assert codep[..][place[i]] == i;
      codelist[sortindex[i]] := codes[i];
      i := i + 1;
    }
    forall a | 0 <= a < n
      ensures codep[..][a] < n && codelist[a] == codes[codep[..][a]]
    {
      assert place[codep[..][a]] == a;
    }
  }

  lemma ArrangedIsSorted(lens: seq<nat>, words: seq<nat>, codes: seq<nat>, codep: seq<nat>, place: seq<nat>,
                         codelist: seq<nat>, index: seq<nat>, lengths: seq<nat>, numbers: seq<nat>)
    requires Canonical(lens, words) && Compact(lens, words, codes)
    requires Permutes(codep, place) && InOrder(codes, codep, |codep|) && Follows(codelist, codes, codep)
    requires |numbers| == |lens| && forall e :: 0 <= e < |lens| ==> numbers[e] == e
    requires Spread(lens, place, index, numbers, |lens|) && Spread(lens, place, lengths, lens, |lens|)
    ensures Sorted(lens, words, codelist, index, lengths)
  {
    assert lens[..|lens|] == lens;
    forall p | 0 <= p < |index|
      ensures Names(lens, words, codelist, index, lengths, p)
    {
      var c := codep[p];
      var e := EntryExists(lens, |lens|, c);
      assert IsEntry(lens, c, e) && place[c] == p;
    }
    forall p, q | 0 <= p < q < |codelist|
      ensures codelist[p] < codelist[q]
    {
      assert place[codep[p]] == p && place[codep[q]] == q;
      DistinctCodes(lens, words, codes, codep[p], codep[q]);
    }
    forall e | 0 <= e < |lens| && lens[e] > 0
      ensures e in index
    {
      var c := Used(lens[..e]);
      assert IsEntry(lens, c, e);
      assert index[place[c]] == numbers[e];
    }
  }

  // ---------------------------------------------------------------------------------------------
  // The first-stage table
  // ---------------------------------------------------------------------------------------------

  /** The table once the codewords at sorted positions below `n` have been entered; 0 is untouched. */
  ghost predicate Filled(lens: seq<nat>, words: seq<nat>, index: seq<nat>, tl: nat, table: seq<nat>, n: nat)
    requires |words| == |lens| && n <= |index|
  {
    && |table| == Pow2(tl)
    && forall v :: 0 <= v < |table| ==> FilledCell(lens, words, index, tl, v, table[v], n)
  }

  ghost predicate FilledCell(lens: seq<nat>, words: seq<nat>, index: seq<nat>, tl: nat, v: nat, cell: nat, n: nat)
    requires |words| == |lens| && n <= |index|
  {
    if cell > 0 then cell <= n && Short(lens, words, index, tl, ToBits(v, tl), cell - 1)
    else forall p :: 0 <= p < n ==> !Short(lens, words, index, tl, ToBits(v, tl), p)
  }

  lemma ToBitsPrefix(v: nat, len: nat, tl: nat)
    requires len <= tl
    ensures ToBits(v, tl)[..len] == ToBits(v % Pow2(len), len) && v % Pow2(len) < Pow2(len)
  {
    hide ToBits, Pow2;
    var r, u := v % Pow2(len), v / Pow2(len);
    DivMod(v, Pow2(len));
    ToBitsConcat(r, u, len, tl - len);
  }

  /** The low bits of a table index are the first bits of the packet. */
  lemma LowBits(v: nat, len: nat, tl: nat, w: nat)
    requires len <= tl && w < Pow2(len)
    ensures MsbBits(w, len) <= ToBits(v, tl) <==> v % Pow2(len) == Reverse(w, len)
  {
    ToBitsPrefix(v, len, tl);
    ReverseBits(w, len);
    FromToBits(v % Pow2(len), len);
    FromToBits(Reverse(w, len), len);
    assert MsbBits(w, len) <= ToBits(v, tl) <==> MsbBits(w, len) == ToBits(v, tl)[..len];
  }

  /** Cell `v` after the first `j` multiples of `step` past `orig` have been set. */
  ghost function SetSoFar(v: nat, step: nat, orig: nat, j: nat, cell: nat, was: nat): nat
    requires step > 0
  {
    if v % step == orig && v / step < j then cell else was
  }

  lemma SetNext(v: nat, step: nat, orig: nat, j: nat, cell: nat, was: nat)
    requires step > 0 && orig < step
    ensures SetSoFar(v, step, orig, j + 1, cell, was)
         == if v == orig + j * step then cell else SetSoFar(v, step, orig, j, cell, was)
  {
    var q, r := v / step, v % step;
    assert v == q * step + r;
    if v == orig + j * step {
      DivModUnique(v, j, step, orig);
    }
  }

  /** `table[orig | (j << length)] = cell` for every `j` that keeps the index in the table. */
  method FillWord(table: array<nat>, tl: nat, orig: nat, length: nat, cell: nat)
    requires table.Length == Pow2(tl) && length <= tl && orig < Pow2(length)
    modifies table
    ensures forall v :: 0 <= v < table.Length ==>
      table[v] == if v % Pow2(length) == orig then cell else old(table[v])
  {
    hide SetSoFar;
    var step, most := Pow2(length), Pow2(tl - length);
    Pow2Add(length, tl - length);
    hide Pow2;
    ghost var was := table[..];
    SetNone(was, step, orig, cell);
    var j := 0;
    while j < most
      invariant 0 <= j <= most
      invariant forall v :: 0 <= v < table.Length ==> table[v] == SetSoFar(v, step, orig, j, cell, was[v])
    {
      TableIndex(orig, j, step, most);
      table[orig + j * step] := cell;
      forall v | 0 <= v < table.Length
        ensures table[v] == SetSoFar(v, step, orig, j + 1, cell, was[v])
      {
        SetNext(v, step, orig, j, cell, was[v]);
      }
      j := j + 1;
    }
    forall v | 0 <= v < table.Length
      ensures table[v] == if v % step == orig then cell else was[v]
    {
      SetAll(v, step, most, orig, cell, was[v]);
    }
  }

  lemma SetNone(was: seq<nat>, step: nat, orig: nat, cell: nat)
    requires step > 0
    ensures forall v :: 0 <= v < |was| ==> was[v] == SetSoFar(v, step, orig, 0, cell, was[v])
  {
  }

  lemma SetAll(v: nat, step: nat, most: nat, orig: nat, cell: nat, was: nat)
    requires step > 0 && v < step * most
    ensures SetSoFar(v, step, orig, most, cell, was) == if v % step == orig then cell else was
  {
    var q, r := v / step, v % step;
    assert v == q * step + r;
    if q >= most {
      MulMonotone(most, q, step);
    }
  }

  lemma TableIndex(orig: nat, j: nat, step: nat, most: nat)
    requires step > 0 && orig < step && j < most
    ensures orig + j * step < step * most
  {
    MulStep(j, most, step);
  }

  lemma FilledStep(lens: seq<nat>, words: seq<nat>, codelist: seq<nat>, index: seq<nat>, lengths: seq<nat>,
                   tl: nat, was: seq<nat>, now: seq<nat>, p: nat)
    requires Canonical(lens, words) && Sorted(lens, words, codelist, index, lengths) && p < |index|
    requires Filled(lens, words, index, tl, was, p) && |now| == |was|
    requires index[p] < |words|
    requires if lengths[p] > tl then now == was else
      forall v :: 0 <= v < |was| ==>
        now[v] == if v % Pow2(lengths[p]) == Reverse(words[index[p]], lengths[p]) then p + 1 else was[v]
    ensures Filled(lens, words, index, tl, now, p + 1)
  {
    assert Names(lens, words, codelist, index, lengths, p);
    assert Leftmost(lens, words, index[p]);
    hide FilledCell, Names, Leftmost, Sorted, Canonical;
    forall v | 0 <= v < |now|
      ensures FilledCell(lens, words, index, tl, v, now[v], p + 1)
    {
      assert FilledCell(lens, words, index, tl, v, was[v], p);
      FilledCellStep(lens, words, index, tl, v, was[v], now[v], p);
    }
  }

  lemma FilledCellStep(lens: seq<nat>, words: seq<nat>, index: seq<nat>, tl: nat, v: nat, was: nat, now: nat, p: nat)
    requires |words| == |lens| && p < |index| && index[p] < |lens| && lens[index[p]] > 0
    requires words[index[p]] < Pow2(lens[index[p]]) && FilledCell(lens, words, index, tl, v, was, p)
    requires var len := lens[index[p]];
      now == if len <= tl && v % Pow2(len) == Reverse(words[index[p]], len) then p + 1 else was
    ensures FilledCell(lens, words, index, tl, v, now, p + 1)
  {
    var len := lens[index[p]];
    if len <= tl {
      LowBits(v, len, tl, words[index[p]]);
    }
  }

  /** Enter every codeword that fits in the first table. */
  method FillShort(lens: seq<nat>, ghost words: seq<nat>, codelist: array<nat>, ghost index: seq<nat>,
                   lengths: array<nat>, tl: nat, table: array<nat>) returns (longest: nat)
    requires Canonical(lens, words) && Sorted(lens, words, codelist[..], index, lengths[..])
    requires table.Length == Pow2(tl) && (forall v :: 0 <= v < table.Length ==> table[v] == 0)
    requires table != codelist && table != lengths && tl <= MAXLEN
    modifies table
    ensures Filled(lens, words, index, tl, table[..], |index|)
    ensures longest <= MAXLEN && forall p :: 0 <= p < lengths.Length ==> lengths[p] <= longest
    ensures lengths.Length > 0 ==> longest in lengths[..]
  {
    hide Canonical, Sorted, Filled, Reverse, Pow2;
    SameCount(lens, words, codelist[..], index, lengths[..]);
    FilledNone(lens, words, index, tl, table[..]);
    longest := 0;
    ghost var codes, sizes, at := codelist[..], lengths[..], 0;
    var i := 0;
    while i < codelist.Length
      invariant 0 <= i <= codelist.Length && codelist[..] == codes && lengths[..] == sizes
      invariant Filled(lens, words, index, tl, table[..], i)
      invariant longest <= MAXLEN && (if i == 0 then longest == 0 else at < i && sizes[at] == longest)
      invariant forall p :: 0 <= p < i ==> sizes[p] <= longest
    {
      EntryAt(lens, words, codes, index, sizes, i);
      assert codes[i] == codelist[i] && sizes[i] == lengths[i];
      if longest < lengths[i] {
        longest, at := lengths[i], i;
      }
      ghost var was := table[..];
      if lengths[i] <= tl {
        AlignWord(words[index[i]], lengths[i]);
        FillWord(table, tl, Reverse(codelist[i], MAXLEN), lengths[i], i + 1);
      }
      FilledStep(lens, words, codes, index, sizes, tl, was, table[..], i);
      i := i + 1;
    }
  }

  lemma EntryAt(lens: seq<nat>, words: seq<nat>, codelist: seq<nat>, index: seq<nat>, lengths: seq<nat>, i: nat)
    requires Canonical(lens, words) && Sorted(lens, words, codelist, index, lengths) && i < |codelist|
    ensures i < |index| == |lengths| && index[i] < |lens| == |words| && 1 <= lengths[i] <= MAXLEN
    ensures words[index[i]] < Pow2(lengths[i])
    ensures codelist[i] == Start(words[index[i]], lengths[i])
  {
    assert Names(lens, words, codelist, index, lengths, i);
    assert Leftmost(lens, words, index[i]);
    hide Sorted, Canonical, Reverse;
  }

  lemma FilledNone(lens: seq<nat>, words: seq<nat>, index: seq<nat>, tl: nat, table: seq<nat>)
    requires |words| == |lens| && |table| == Pow2(tl) && forall v :: 0 <= v < |table| ==> table[v] == 0
    ensures Filled(lens, words, index, tl, table, 0)
  {
  }

  /** The table while hints are being added: cells up to the packet bits `i`, read MSb first, are done. */
  ghost predicate Hinted(lens: seq<nat>, words: seq<nat>, codelist: seq<nat>, index: seq<nat>, tl: nat, table: seq<nat>,
                         i: nat)
    requires |words| == |lens| && tl <= MAXLEN
  {
    && |table| == Pow2(tl)
    && forall v :: 0 <= v < |table| ==> HintedCell(lens, words, codelist, index, tl, v, table[v], i)
  }

  ghost predicate HintedCell(lens: seq<nat>, words: seq<nat>, codelist: seq<nat>, index: seq<nat>, tl: nat,
                             v: nat, cell: nat, i: nat)
    requires |words| == |lens| && tl <= MAXLEN
  {
    if Reverse(v, tl) < i then Cell(lens, words, codelist, index, tl, v, cell)
    else FilledCell(lens, words, index, tl, v, cell, |index|)
  }

  /** Two 15-bit hints, each clamped so that it can only widen the search. */
  function HintCell(lo: nat, fromEnd: nat): (cell: nat)
  {
    var loval := if lo > HINTMAX then HINTMAX else lo;
    var hival := if fromEnd > HINTMAX then HINTMAX else fromEnd;
    HINT + loval * 0x8000 + hival
  }

  /** The code at or left of `word`, and the code at or beyond the end of its span, are good hints. */
  lemma HintsAreGood(codelist: seq<nat>, tl: nat, i: nat, lo: nat, hi: nat)
    requires 5 <= tl <= 8 && Increasing(codelist) && i < Pow2(tl)
    requires lo < |codelist| && codelist[lo] <= Start(i, tl) && hi <= |codelist|
    requires hi < |codelist| ==> Start(i, tl) < (codelist[hi] / Span(tl)) * Span(tl)
    ensures Hints(codelist, tl, i, HintCell(lo, |codelist| - hi))
  {
    hide Span, Start, End, Hints;
    var loval := if lo > HINTMAX then HINTMAX else lo;
    var hival := if |codelist| - hi > HINTMAX then HINTMAX else |codelist| - hi;
    OrderKeeps(codelist, loval, lo);
    if hi < |codelist| {
      PastSpan(i, tl, codelist[hi]);
      OrderKeeps(codelist, hi, |codelist| - hival);
      OrderReflects(codelist, loval, |codelist| - hival);
    }
    HintsFrom(codelist, tl, i, loval, hival);
  }

  lemma HintsFrom(codelist: seq<nat>, tl: nat, i: nat, loval: nat, hival: nat)
    requires tl <= MAXLEN && loval <= HINTMAX && hival <= HINTMAX && loval < |codelist| - hival <= |codelist|
    requires codelist[loval] <= Start(i, tl)
    requires hival > 0 ==> End(i, tl) <= codelist[|codelist| - hival]
    ensures Hints(codelist, tl, i, HINT + loval * 0x8000 + hival)
  {
    hide Span, Start, End;
    HintParts(loval, hival);
  }

  lemma HintParts(loval: nat, hival: nat)
    requires loval <= HINTMAX && hival <= HINTMAX
    ensures ((loval * 0x8000 + hival) / 0x8000) % 0x8000 == loval && (loval * 0x8000 + hival) % 0x8000 == hival
  {
    DivModUnique(loval * 0x8000 + hival, loval, 0x8000, hival);
    DivModUnique(loval, 0, 0x8000, loval);
  }

  lemma OrderKeeps(codelist: seq<nat>, p: nat, q: nat)
    requires Increasing(codelist) && p <= q < |codelist|
    ensures codelist[p] <= codelist[q]
  {
  }

  lemma PastSpan(i: nat, tl: nat, c: nat)
    requires tl <= MAXLEN && Start(i, tl) < (c / Span(tl)) * Span(tl)
    ensures Start(i, tl) < End(i, tl) <= c
  {
    NextSpan(i, c, Span(tl));
  }

  lemma OrderReflects(codelist: seq<nat>, p: nat, q: nat)
    requires Increasing(codelist) && p < |codelist| && q < |codelist| && codelist[p] < codelist[q]
    ensures p < q
  {
  }

  lemma NextSpan(i: nat, c: nat, span: nat)
    requires span > 0 && i * span < (c / span) * span
    ensures i * span + span <= c
  {
    if i >= c / span {
      MulMonotone(c / span, i, span);
    } else {
      MulStep(i, c / span, span);
    }
    assert (c / span) * span <= c;
  }

  /** Cell index and packet bits determine each other. */
  lemma CellIndex(i: nat, tl: nat)
    requires tl <= MAXLEN && i < Pow2(tl)
    ensures Reverse(Start(i, tl), MAXLEN) == Reverse(i, tl) && Reverse(Reverse(i, tl), tl) == i
  {
    AlignWord(i, tl);
    ReverseTwice(i, tl);
  }

  lemma HintedStep(lens: seq<nat>, words: seq<nat>, codelist: seq<nat>, index: seq<nat>, tl: nat, was: seq<nat>, i: nat,
                   cell: nat)
    requires Canonical(lens, words) && tl <= MAXLEN && i < Pow2(tl) && |index| < HINT
    requires Hinted(lens, words, codelist, index, tl, was, i)
    requires was[Reverse(i, tl)] == 0 ==> Hints(codelist, tl, i, cell)
    ensures var v := Reverse(i, tl);
      Hinted(lens, words, codelist, index, tl, if was[v] == 0 then was[v := cell] else was, i + 1)
  {
    hide HintedCell, Hints;
    var v := Reverse(i, tl);
    var now := if was[v] == 0 then was[v := cell] else was;
    forall u | 0 <= u < |now|
      ensures HintedCell(lens, words, codelist, index, tl, u, now[u], i + 1)
    {
      HintedCellStep(lens, words, codelist, index, tl, u, was[u], now[u], i);
    }
  }

  lemma HintedCellStep(lens: seq<nat>, words: seq<nat>, codelist: seq<nat>, index: seq<nat>, tl: nat,
                       u: nat, was: nat, now: nat, i: nat)
    requires Canonical(lens, words) && tl <= MAXLEN && i < Pow2(tl) && u < Pow2(tl) && |index| < HINT
    requires HintedCell(lens, words, codelist, index, tl, u, was, i)
    requires if u == Reverse(i, tl) && was == 0 then Hints(codelist, tl, i, now) else now == was
    ensures HintedCell(lens, words, codelist, index, tl, u, now, i + 1)
  {
    hide Cell, FilledCell, Hints, Canonical;
    ReverseTwice(i, tl);
    ReverseTwice(u, tl);
    hide Reverse;
    if u == Reverse(i, tl) {
      CellDone(lens, words, codelist, index, tl, u, was, now);
    }
  }

  /** Filled cells stay as they are; empty ones need hints. */
  lemma CellDone(lens: seq<nat>, words: seq<nat>, codelist: seq<nat>, index: seq<nat>, tl: nat, v: nat, was: nat,
                 now: nat)
    requires Canonical(lens, words) && tl <= MAXLEN && |index| < HINT
    requires FilledCell(lens, words, index, tl, v, was, |index|)
    requires if was == 0 then Hints(codelist, tl, Reverse(v, tl), now) else now == was
    ensures Cell(lens, words, codelist, index, tl, v, now)
  {
    hide Reverse;
  }

  /** Give every cell without a direct hit the best search bounds for the packets that land on it. */
  method FillHints(lens: seq<nat>, ghost words: seq<nat>, codelist: array<nat>, ghost index: seq<nat>,
                   ghost lengths: seq<nat>, tl: nat, table: array<nat>)
    requires Canonical(lens, words) && |words| == |lens|
    requires Sorted(lens, words, codelist[..], index, lengths) && codelist.Length > 0 && codelist[0] == 0
    requires 5 <= tl <= 8 && table != codelist
    requires Filled(lens, words, index, tl, table[..], |index|)
    modifies table
    ensures FirstTable(lens, words, codelist[..], index, tl, table[..])
  {
    hide Cell, FilledCell, Hints, Sorted, Hinted, HintCell, Canonical, Reverse, FirstTable, Start, Pow2, Increasing;
    ghost var codes := codelist[..];
    var n := codelist.Length;
    HintsStart(lens, words, codes, index, lengths, tl, table[..]);
    var lo, hi, i := 0, 0, 0;
    while i < Pow2(tl)
      invariant 0 <= i <= Pow2(tl) && table.Length == Pow2(tl)
      invariant 0 <= lo < n && 0 <= hi <= n && (i < Pow2(tl) ==> codelist[lo] <= Start(i, tl))
      invariant Hinted(lens, words, codes, index, tl, table[..], i)
    {
      lo, hi := FillHint(lens, words, codelist, index, tl, table, i, lo, hi);
      StartMonotone(i, i + 1, tl);
      i := i + 1;
    }
    HintsDone(lens, words, codes, index, tl, table[..]);
  }

  /** The cell for packets that start with the bits of `i`. */
  method FillHint(lens: seq<nat>, ghost words: seq<nat>, codelist: array<nat>, ghost index: seq<nat>, tl: nat,
                  table: array<nat>, i: nat, lo0: nat, hi0: nat) returns (lo: nat, hi: nat)
    requires Canonical(lens, words) && |words| == |lens| && Increasing(codelist[..]) && |index| < HINT
    requires 5 <= tl <= 8 && table != codelist && i < Pow2(tl) == table.Length
    requires Hinted(lens, words, codelist[..], index, tl, table[..], i)
    requires lo0 < codelist.Length && hi0 <= codelist.Length && codelist[lo0] <= Start(i, tl)
    modifies table
    ensures lo < codelist.Length && hi <= codelist.Length && codelist[lo] <= Start(i, tl)
    ensures Hinted(lens, words, codelist[..], index, tl, table[..], i + 1)
  {
    hide Cell, FilledCell, Hints, Sorted, Hinted, HintCell, Canonical, Reverse, Start, Span, Increasing;
    ghost var codes := codelist[..];
    var word := Start(i, tl);
    CellIndex(i, tl);
    var v := Reverse(word, MAXLEN);
    ghost var was, cell := table[..], 0;
    lo, hi := lo0, hi0;
    if table[v] == 0 {
      lo, hi := AdvanceHints(codelist, lo, hi, word, Span(tl));
      HintsAreGood(codes, tl, i, lo, hi);
      table[v] := HintCell(lo, codelist.Length - hi);
      cell := table[v];
      assert table[..] == was[v := cell];
    }
    HintedStep(lens, words, codes, index, tl, was, i, cell);
    assert table[..] == if was[v] == 0 then was[v := cell] else was;
  }

  /** Move the lower hint to the last code at or left of `word`, and the upper hint past codes that
      agree with `word` in the bits the first table looks at. */
  method AdvanceHints(codelist: array<nat>, lo0: nat, hi0: nat, word: nat, span: nat) returns (lo: nat, hi: nat)
    requires lo0 < codelist.Length && hi0 <= codelist.Length && codelist[lo0] <= word && span > 0
    ensures lo0 <= lo < codelist.Length && codelist[lo] <= word
    ensures hi <= codelist.Length && (hi < codelist.Length ==> word < (codelist[hi] / span) * span)
  {
    lo, hi := lo0, hi0;
    while lo + 1 < codelist.Length && codelist[lo + 1] <= word
      invariant lo0 <= lo < codelist.Length && codelist[lo] <= word
    {
      lo := lo + 1;
    }
    while hi < codelist.Length && word >= (codelist[hi] / span) * span
      invariant 0 <= hi <= codelist.Length
    {
      hi := hi + 1;
    }
  }

  lemma HintsStart(lens: seq<nat>, words: seq<nat>, codelist: seq<nat>, index: seq<nat>, lengths: seq<nat>, tl: nat,
                   table: seq<nat>)
    requires Canonical(lens, words) && Sorted(lens, words, codelist, index, lengths) && tl <= MAXLEN
    requires Filled(lens, words, index, tl, table, |index|)
    ensures Hinted(lens, words, codelist, index, tl, table, 0) && Increasing(codelist)
    ensures |index| < HINT
  {
    assert lens[..0] == [] && lens[..|lens|] == lens;
    UsedMonotone(lens, 0, |lens|);
  }

  lemma HintsDone(lens: seq<nat>, words: seq<nat>, codelist: seq<nat>, index: seq<nat>, tl: nat, table: seq<nat>)
    requires |words| == |lens| && 5 <= tl <= 8 && Hinted(lens, words, codelist, index, tl, table, Pow2(tl))
    ensures FirstTable(lens, words, codelist, index, tl, table)
  {
    forall v | 0 <= v < |table|
      ensures Cell(lens, words, codelist, index, tl, v, table[v])
    {
      assert Reverse(v, tl) < Pow2(tl);
    }
  }

  /** The codeword of the first used entry is all zeros, so it sorts first. */
  lemma FirstCodeZero(lens: seq<nat>, words: seq<nat>, codelist: seq<nat>, index: seq<nat>, lengths: seq<nat>)
    requires Canonical(lens, words) && Sorted(lens, words, codelist, index, lengths) && |codelist| > 0
    ensures codelist[0] == 0
  {
    assert lens[..|lens|] == lens;
    var e := EntryExists(lens, |lens|, 0);
    assert Leftmost(lens, words, e);
    assert Free(lens, words, e, 0, lens[e]) by {
      forall k | 0 <= k < e
        ensures lens[k] == 0
      {
        UsedStep(lens, k);
        UsedMonotone(lens, k + 1, e);
      }
    }
    var p :| 0 <= p < |index| && index[p] == e;
    assert Names(lens, words, codelist, index, lengths, p);
    FirstIsLeast(codelist, p);
  }

  lemma FirstIsLeast(codelist: seq<nat>, p: nat)
    requires Increasing(codelist) && p < |codelist|
    ensures codelist[0] <= codelist[p]
  {
  }

  lemma SlotsAreUsed(lens: seq<nat>)
    ensures Slot(lens, true, |lens|) == Used(lens)
  {
    assert lens[..|lens|] == lens;
  }

  lemma NoUsedEntry(lens: seq<nat>)
    requires Used(lens) == 0
    ensures forall e :: 0 <= e < |lens| ==> lens[e] == 0
  {
    assert lens[..|lens|] == lens;
    forall e | 0 <= e < |lens|
      ensures lens[e] == 0
    {
      UsedStep(lens, e);
      UsedMonotone(lens, e + 1, |lens|);
    }
  }

  lemma AllTables(lens: seq<nat>, words: seq<nat>, codelist: seq<nat>, index: seq<nat>, lengths: seq<nat>,
                  tl: nat, table: seq<nat>, longest: nat)
    requires Canonical(lens, words) && (Used(lens) == 1 || Kraft(lens, |lens|) == WORD) && Used(lens) > 0
    requires Sorted(lens, words, codelist, index, lengths) && FirstTable(lens, words, codelist, index, tl, table)
    requires longest <= MAXLEN && longest in lengths && forall p :: 0 <= p < |lengths| ==> lengths[p] <= longest
    requires tl == TableBits(|codelist|)
    ensures Tables(lens, words, codelist, index, lengths, tl, table, longest)
  {
    assert Names(lens, words, codelist, index, lengths, 0);
    var q :| 0 <= q < |lengths| && lengths[q] == longest;
    assert Names(lens, words, codelist, index, lengths, q);
    forall e | 0 <= e < |lens|
      ensures lens[e] <= longest
    {
      if lens[e] > 0 {
        var p :| 0 <= p < |index| && index[p] == e;
        assert Names(lens, words, codelist, index, lengths, p);
      }
    }
  }

  /** Sort the packed words into the decode order and carry entry numbers and lengths along. */
  function Numbers(n: nat): (r: seq<nat>)
    ensures |r| == n && forall e :: 0 <= e < n ==> r[e] == e
  {
    seq(n, i => i)
  }

  /** `place` gives each used entry its sorted place, and `index` the entry that belongs there. */
  ghost predicate Sorting(lens: seq<nat>, order: seq<nat>, place: seq<nat>, index: seq<nat>)
  {
    Permutes(order, place) && Spread(lens, place, index, Numbers(|lens|), |lens|)
  }

  method SortEntries(lens: seq<nat>, codes: array<nat>, ghost words: seq<nat>)
      returns (codelist: array<nat>, index: array<nat>, lengths: array<nat>, sortindex: array<nat>,
               ghost order: seq<nat>)
    requires Canonical(lens, words) && codes.Length == Used(lens) && Packed(lens, true, words, |lens|, codes[..])
    modifies codes
    ensures fresh(codelist) && fresh(index) && fresh(lengths) && fresh(sortindex)
    ensures Sorted(lens, words, codelist[..], index[..], lengths[..])
    ensures Sorting(lens, order, sortindex[..], index[..])
  {
    hide Canonical, Packed, Compact, Permutes, InOrder, Spread, Sorted, Follows;
    AlignAll(lens, codes, words);
    ghost var aligned := codes[..];
    var codep;
    ghost var place;
    codep, place := SortPointers(codes);
    sortindex, codelist := SortCodes(codes, codep, place);
    order := codep[..];
    var numbers := Numbers(|lens|);
    index := SpreadValues(lens, numbers, sortindex, order);
    lengths := SpreadValues(lens, lens, sortindex, order);
    ArrangedIsSorted(lens, words, aligned, order, place, codelist[..], index[..], lengths[..], numbers);
  }

  /** The first-stage table: codewords that fit, then search hints everywhere else. */
  method BuildFirstTable(lens: seq<nat>, ghost words: seq<nat>, codelist: array<nat>, ghost index: seq<nat>,
                         lengths: array<nat>)
      returns (tl: nat, table: array<nat>, longest: nat)
    requires Canonical(lens, words) && |words| == |lens|
    requires Sorted(lens, words, codelist[..], index, lengths[..]) && codelist.Length > 0
    ensures fresh(table) && FirstTable(lens, words, codelist[..], index, tl, table[..])
    ensures longest <= MAXLEN && longest in lengths[..] && forall p :: 0 <= p < lengths.Length ==> lengths[p] <= longest
    ensures tl == TableBits(codelist.Length)
  {
    hide Canonical, Sorted, Filled, FirstTable, TableBits;
    SameCount(lens, words, codelist[..], index, lengths[..]);
    tl := TableBits(codelist.Length);
    table := new nat[Pow2(tl)](i => 0);
    longest := FillShort(lens, words, codelist, index, lengths, tl, table);
    FirstCodeZero(lens, words, codelist[..], index, lengths[..]);
    FillHints(lens, words, codelist, index, lengths[..], tl, table);
  }

  lemma SameCount(lens: seq<nat>, words: seq<nat>, codelist: seq<nat>, index: seq<nat>, lengths: seq<nat>)
    requires Canonical(lens, words) && Sorted(lens, words, codelist, index, lengths)
    ensures |words| == |lens| && |codelist| == |lengths| == |index|
  {
  }

  /** Words, sorted lists and first table; not `ok` when the lengths describe no tree. */
  method BuildAll(lens: seq<nat>, n: nat)
      returns (ok: bool, codelist: array<nat>, index: array<nat>, lengths: array<nat>,
               tl: nat, table: array<nat>, longest: nat, sortindex: array<nat>, ghost order: seq<nat>,
               ghost words: seq<nat>)
    requires ValidLengths(lens) && n == Used(lens) > 0
    ensures fresh(codelist) && fresh(index) && fresh(lengths) && fresh(table) && fresh(sortindex)
    ensures ok <==> n == 1 || Kraft(lens, |lens|) == WORD
    ensures ok ==>
      && Tables(lens, words, codelist[..], index[..], lengths[..], tl, table[..], longest)
      && Sorting(lens, order, sortindex[..], index[..])
  {
    hide Sorting, Canonical, Tables, Sorted, FirstTable, Packed, Kraft, Used;
    var codes;
    codes, words := MakeWords(lens, n);
    if codes == null {
      ok, tl, longest := false, 0, 0;
      codelist, index, lengths, table := new nat[0], new nat[0], new nat[0], new nat[0];
      sortindex, order := new nat[0], [];
      return;
    }
    SlotsAreUsed(lens);
    CanonicalShape(lens, words);
    codelist, index, lengths, sortindex, order := SortEntries(lens, codes, words);
    SortedShape(lens, words, codelist[..], index[..], lengths[..]);
    tl, table, longest := BuildFirstTable(lens, words, codelist, index[..], lengths);
    AllTables(lens, words, codelist[..], index[..], lengths[..], tl, table[..], longest);
    ok := true;
  }

  lemma CanonicalShape(lens: seq<nat>, words: seq<nat>)
    requires Canonical(lens, words)
    ensures |words| == |lens|
  {
  }

  lemma SortedShape(lens: seq<nat>, words: seq<nat>, codelist: seq<nat>, index: seq<nat>, lengths: seq<nat>)
    requires ValidLengths(lens) && |words| == |lens| && Sorted(lens, words, codelist, index, lengths)
    ensures |codelist| == |index| == |lengths| == Used(lens)
  {
  }
}
