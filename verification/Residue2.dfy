/** Residue type 2: all channels interleaved into one vector on the way out, and taken apart again
    while decoding. */
module Residue2 {
  import opened BitMath
  import opened BitBuffer
  import opened Codebook
  import opened Phrases
  import opened Lattice
  import opened PartitionWords
  import opened Residue

  /** Sample `q` of the interleaved vector is sample `q / ch` of channel `q % ch`. */
  ghost predicate Interleaves(work: seq<int>, rows: seq<seq<int>>, len: nat)
  {
    && |rows| > 0 && |work| == len * |rows| && (forall c :: 0 <= c < |rows| ==> |rows[c]| == len)
    && forall c, t :: 0 <= c < |rows| && 0 <= t < len ==> Mirrors(work, rows, c, t)
  }

  ghost predicate Mirrors(work: seq<int>, rows: seq<seq<int>>, c: nat, t: nat)
  {
    c < |rows| && t < |rows[c]| && t * |rows| + c < |work| && work[t * |rows| + c] == rows[c][t]
  }

  lemma Inside(ch: nat, len: nat, c: nat, t: nat)
    requires c < ch && t < len
    ensures t * ch + c < len * ch
  {
    MulStep(t, len, ch);
  }

  /** Different samples have different places. */
  lemma PlacesApart(ch: nat, c: nat, t: nat, c': nat, t': nat)
    requires c < ch && c' < ch && t * ch + c == t' * ch + c'
    ensures c == c' && t == t'
  {
    DivModUnique(t * ch + c, t, ch, c);
    DivModUnique(t' * ch + c', t', ch, c');
  }

  /** The first `i` channels are in their places. */
  ghost predicate Laid(work: seq<int>, rows: seq<seq<int>>, len: nat, i: nat)
  {
    forall c, t :: 0 <= c < i && 0 <= t < len ==> Mirrors(work, rows, c, t)
  }

  lemma NoneOrAllLaid(work: seq<int>, rows: seq<seq<int>>, len: nat)
    requires |rows| > 0 && |work| == len * |rows| && forall c :: 0 <= c < |rows| ==> |rows[c]| == len
    ensures Laid(work, rows, len, 0) && (Laid(work, rows, len, |rows|) ==> Interleaves(work, rows, len))
  {
    hide Mirrors;
  }

  /** Reshape the channels into one working vector. */
  method Interleave(chans: seq<array<int>>, len: nat) returns (work: array<int>)
    requires |chans| > 0 && forall c :: 0 <= c < |chans| ==> chans[c].Length == len
    ensures fresh(work) && Interleaves(work[..], RowsOf(chans), len)
  {
    hide Mirrors, Laid, Interleaves;
    ghost var rows := RowsOf(chans);
    work := new int[len * |chans|](i => 0);
    NoneOrAllLaid(work[..], rows, len);
    for i := 0 to |chans|
      invariant work.Length == len * |chans| && RowsOf(chans) == rows
      invariant Laid(work[..], rows, len, i)
    {
      Spread(chans[i], |chans|, i, work, rows, len);
    }
    NoneOrAllLaid(work[..], rows, len);
  }

  /** Channel `i` to its places. */
  method Spread(chan: array<int>, ch: nat, i: nat, work: array<int>, ghost rows: seq<seq<int>>, ghost len: nat)
    requires i < ch == |rows| && chan[..] == rows[i] && chan.Length == len && work.Length == len * ch && work != chan
    requires forall c :: 0 <= c < ch ==> |rows[c]| == len
    requires Laid(work[..], rows, len, i)
    modifies work
    ensures Laid(work[..], rows, len, i + 1)
  {
    hide Mirrors;
    var k := i;
    for j := 0 to chan.Length
      invariant k == j * ch + i
      invariant forall t :: 0 <= t < j ==> Mirrors(work[..], rows, i, t)
      invariant Laid(work[..], rows, len, i)
    {
      Inside(ch, len, i, j);
      ghost var was := work[..];
      work[k] := chan[j];
      Kept(was, work[..], rows, len, i, j);
      k := k + ch;
    }
  }

  /** Writing one place leaves the others' samples where they were. */
  lemma Kept(was: seq<int>, now: seq<int>, rows: seq<seq<int>>, len: nat, i: nat, j: nat)
    requires i < |rows| && j < len && |was| == |now| == len * |rows| && forall c :: 0 <= c < |rows| ==> |rows[c]| == len
    requires j * |rows| + i < |was| && now == was[j * |rows| + i := rows[i][j]]
    ensures Mirrors(now, rows, i, j)
    ensures forall c, t :: 0 <= c < |rows| && 0 <= t < len && Mirrors(was, rows, c, t) ==> Mirrors(now, rows, c, t)
  {
    forall c, t | 0 <= c < |rows| && 0 <= t < len && Mirrors(was, rows, c, t)
      ensures Mirrors(now, rows, c, t)
    {
      if t * |rows| + c == j * |rows| + i {
        PlacesApart(|rows|, c, t, i, j);
      }
    }
  }

  /** The reading position: channel and sample of interleaved place `q`. */
  ghost predicate AtPlace(ch: nat, q: nat, i: nat, chptr: nat)
  {
    chptr < ch && q == i * ch + chptr
  }

  /** The first value goes to place `offset` exactly when that place belongs to channel 0. */
  lemma StartsAtPlace(ch: nat, offset: nat)
    requires ch > 0
    ensures AtPlace(ch, offset, offset / ch, 0) <==> offset % ch == 0
  {
    DivMod(offset, ch);
  }

  /** One value into its channel is one value into the interleaved vector. */
  lemma BothChanged(work: seq<int>, rows: seq<seq<int>>, len: nat, i: nat, chptr: nat, q: nat, v: int)
    requires Interleaves(work, rows, len) && AtPlace(|rows|, q, i, chptr) && q < |work|
    ensures i < len && work[q] == rows[chptr][i]
    ensures Interleaves(work[q := work[q] + v], rows[chptr := rows[chptr][i := rows[chptr][i] + v]], len)
  {
    hide Mirrors;
    SampleInside(|rows|, len, i, chptr);
    MirrorsIs(work, rows, chptr, i);
    var work', rows' := work[q := work[q] + v], rows[chptr := rows[chptr][i := rows[chptr][i] + v]];
    forall c, t | 0 <= c < |rows| && 0 <= t < len
      ensures Mirrors(work', rows', c, t)
    {
      assert Mirrors(work, rows, c, t);
      Inside(|rows|, len, c, t);
      if t * |rows| + c == q {
        PlacesApart(|rows|, c, t, chptr, i);
      }
      MirrorsIs(work, rows, c, t);
      MirrorsStill(work', rows', c, t);
    }
  }

  lemma MirrorsIs(work: seq<int>, rows: seq<seq<int>>, c: nat, t: nat)
    requires Mirrors(work, rows, c, t)
    ensures c < |rows| && t < |rows[c]| && t * |rows| + c < |work| && work[t * |rows| + c] == rows[c][t]
  {
  }

  lemma MirrorsStill(work: seq<int>, rows: seq<seq<int>>, c: nat, t: nat)
    requires c < |rows| && t < |rows[c]| && t * |rows| + c < |work| && work[t * |rows| + c] == rows[c][t]
    ensures Mirrors(work, rows, c, t)
  {
  }

  lemma SampleInside(ch: nat, len: nat, i: nat, chptr: nat)
    requires i * ch + chptr < len * ch
    ensures i < len
  {
    if i >= len {
      MulMonotone(len, i, ch);
    }
  }

  /** Add one value at interleaved place `q`, and move on to the next. */
  method AddValue(chans: seq<array<int>>, len: nat, i: nat, chptr: nat, v: int, ghost work: seq<int>, ghost q: nat)
      returns (i': nat, chptr': nat, ghost work': seq<int>)
    requires Interleaves(work, RowsOf(chans), len) && Distinct(chans) && AtPlace(|chans|, q, i, chptr) && q < |work|
    modifies chans
    ensures work' == work[q := work[q] + v] && Interleaves(work', RowsOf(chans), len)
    ensures AtPlace(|chans|, q + 1, i', chptr')
  {
    hide Interleaves;
    ghost var rows := RowsOf(chans);
    BothChanged(work, rows, len, i, chptr, q, v);
    LengthsAre(work, rows, len);
    chans[chptr][i] := chans[chptr][i] + v;
    assert RowsOf(chans) == rows[chptr := rows[chptr][i := rows[chptr][i] + v]];
    work' := work[q := work[q] + v];
    i', chptr' := i, chptr + 1;
    if chptr' == |chans| {
      chptr' := 0;
      i' := i + 1;
    }
  }

  /** Add a vector into the channels from interleaved place `q` on. */
  method AddAcross(chans: seq<array<int>>, len: nat, i: nat, chptr: nat, t: seq<int>, ghost work: seq<int>,
                   ghost q: nat)
      returns (i': nat, chptr': nat, ghost work': seq<int>)
    requires Interleaves(work, RowsOf(chans), len) && Distinct(chans) && AtPlace(|chans|, q, i, chptr)
    requires q + |t| <= |work|
    modifies chans
    ensures Interleaves(work', RowsOf(chans), len) && AtPlace(|chans|, q + |t|, i', chptr')
    ensures work' == Plus(work, q, t)
  {
    hide Interleaves, AtPlace, Distinct;
    i', chptr', work' := i, chptr, work;
    var j := 0;
    while j < |t|
      invariant 0 <= j <= |t| && |work'| == |work|
      invariant Interleaves(work', RowsOf(chans), len) && AtPlace(|chans|, q + j, i', chptr')
      invariant forall k :: 0 <= k < |work| ==> work'[k] == work[k] + if q <= k < q + j then t[k - q] else 0
    {
      i', chptr', work' := AddValue(chans, len, i', chptr', t[j], work', q + j);
      j := j + 1;
    }
  }

  lemma LengthsAre(work: seq<int>, rows: seq<seq<int>>, len: nat)
    requires Interleaves(work, rows, len)
    ensures forall c :: 0 <= c < |rows| ==> |rows[c]| == len
  {
  }

  /** The interleaved place where reading starts. */
  function First(ch: nat, offset: nat): nat
    requires ch > 0
  {
    offset / ch * ch
  }

  /** How many places are read for `n` from `offset` on: whole samples of all channels. */
  function Places(ch: nat, offset: nat, n: nat): nat
    requires ch > 0
  {
    DivMonotone(offset, offset + n, ch);
    ((offset + n) / ch - offset / ch) * ch
  }

  lemma PlacesEnd(ch: nat, offset: nat, n: nat)
    requires ch > 0
    ensures First(ch, offset) + Places(ch, offset, n) == (offset + n) / ch * ch <= offset + n
  {
    DivMod(offset + n, ch);
    DivMonotone(offset, offset + n, ch);
    var a, b := offset / ch, (offset + n) / ch;
    assert a * ch + (b - a) * ch == b * ch;
  }

  /** They are the places asked for exactly where both ends lie on channel 0. */
  lemma PlacesAsked(ch: nat, offset: nat, n: nat)
    requires ch > 0
    ensures First(ch, offset) == offset && Places(ch, offset, n) == n <==> offset % ch == 0 && (offset + n) % ch == 0
    ensures offset % ch == 0 && n % ch == 0 ==> First(ch, offset) == offset && Places(ch, offset, n) == n
  {
    PlacesEnd(ch, offset, n);
    DivMod(offset, ch);
    DivMod(offset + n, ch);
    if offset % ch == 0 && n % ch == 0 {
      EndOnBoundary(ch, offset, n);
    }
  }

  /** The loop's test on samples is a test on places. */
  lemma MoreToRead(ch: nat, q: nat, i: nat, chptr: nat, bound: nat)
    requires AtPlace(ch, q, i, chptr)
    ensures i < bound <==> q < bound * ch
  {
    if i < bound {
      MulStep(i, bound, ch);
    } else {
      MulMonotone(bound, i, ch);
    }
  }

  /** Read vectors for a partition of the interleaved vector and add them in across the channels: all that are
      to come, or as many as the packet holds. */
  method DecodeAcross(c: Book, b: nat, chans: seq<array<int>>, len: nat, offset: nat, n: nat, books: seq<DecodeBook>,
                      opb: OggPackBuffer, ghost work: seq<int>, ghost known: bool, ghost ahead: seq<nat>,
                      ghost rest: seq<Token>, ghost shelf: Shelf, ghost tail: seq<bool>)
      returns (ok: bool, ghost es: seq<nat>, ghost work': seq<int>)
    requires Decoders(books, shelf) && opb.Valid() && b < |shelf.lens| && c.Decodable(|shelf.lens[b]|)
    requires Interleaves(work, RowsOf(chans), len) && Distinct(chans) && |chans| > 0
    requires var first, count := First(|chans|, offset), Places(|chans|, offset, n);
      && first <= |work| && (shelf.Empty(b) || first + Span(count, c.dim) <= |work|)
      && (known ==> |ahead| == Reads(count, c.dim) && VectorsComing(shelf, b, ahead, rest, opb.Rest(), tail))
    modifies opb, chans
    ensures Decoders(books, shelf) && opb.Valid() && opb.bits == old(opb.bits) && Interleaves(work', RowsOf(chans), len)
    ensures var first, count := First(|chans|, offset), Places(|chans|, offset, n);
      && DigitsBelow(|c.valuelist|, es) && |es| <= Reads(count, c.dim) && first + |es| * c.dim <= |work|
      && work' == Added(c, work, first, es)
      && (forall k :: 0 <= k < |work| && !(first <= k < first + Span(count, c.dim)) ==> work'[k] == work[k])
      && if ok then |es| == if shelf.Empty(b) then 0 else Reads(count, c.dim) else opb.Rest() == []
    ensures HeardUpTo(shelf, b, es, old(opb.Rest()), opb.Rest(), ok)
    ensures known ==> ok && es == ahead && Coming(shelf, rest, opb.Rest(), tail)
  {
    hide Decoders, Coming, VectorsComing, Shelf.Valid, Shelf.Empty, Reads, Plus, Added, Interleaves, AtPlace, Distinct;
    hide Mirrors, Places, Heard, HeardAll;
    ghost var ch, start := |chans|, opb.Rest();
    ghost var first, count := First(ch, offset), Places(ch, offset, n);
    es, work' := [], work;
    assert known ==> ahead[0..] == ahead;
    AddedNone(c, work, first);
    NoneHeard(shelf, b, start);
    var some := HasEntries(books, b, shelf);
    if some {
      var i: nat, chptr: nat, bound := offset / |chans|, 0, (offset + n) / |chans|;
      PlacesEnd(ch, offset, n);
      StartPlace(ch, first, i);
      StillToRead(ch, first, count, c.dim, |es|, i, chptr, bound);
      while i < bound
        invariant Decoders(books, shelf) && opb.Valid() && opb.bits == old(opb.bits)
        invariant |es| <= Reads(count, c.dim) && DigitsBelow(|c.valuelist|, es) && first + |es| * c.dim <= |work|
        invariant AtPlace(ch, first + |es| * c.dim, i, chptr) && (i < bound <==> |es| < Reads(count, c.dim))
        invariant Interleaves(work', RowsOf(chans), len) && work' == Added(c, work, first, es)
        invariant HeardAll(shelf, b, es, start, opb.Rest())
        invariant known ==> es == ahead[..|es|] && VectorsComing(shelf, b, ahead[|es|..], rest, opb.Rest(), tail)
        decreases Reads(count, c.dim) - |es|
      {
        MulStep(|es|, Reads(count, c.dim), c.dim);
        ghost var mid := opb.Rest();
        var entry := GetEntry(b, books, opb, known, if known then ahead[|es|..] else [], rest, shelf, tail);
        if entry == -1 {
          OnlyInside(c, work, first, es, count);
          return false, es, work';
        }
        HeardMore(shelf, b, es, entry, start, mid, opb.Rest());
        i, chptr, work' := AddAcross(chans, len, i, chptr, c.valuelist[entry], work', first + |es| * c.dim);
        AddedNext(c, work, first, es, entry);
        es := es + [entry];
        StillToRead(ch, first, count, c.dim, |es|, i, chptr, bound);
      }
    } else if known && ahead != [] {
      ComingIsUsed(shelf, b, ahead, rest, opb.Rest(), tail);
    }
    OnlyInside(c, work, first, es, count);
    NoneComing(shelf, b, rest, opb.Rest(), tail);
    ok := true;
  }

  lemma StartPlace(ch: nat, first: nat, i: nat)
    requires ch > 0 && first == i * ch
    ensures AtPlace(ch, first, i, 0)
  {
  }

  lemma StillToRead(ch: nat, first: nat, count: nat, dim: nat, m: nat, i: nat, chptr: nat, bound: nat)
    requires dim > 0 && first + count == bound * ch && AtPlace(ch, first + m * dim, i, chptr)
    ensures i < bound <==> m < Reads(count, dim)
  {
    hide Reads;
    MoreToRead(ch, first + m * dim, i, chptr, bound);
    ReadsEnough(count, dim, m);
  }

  lemma EndOnBoundary(ch: nat, offset: nat, n: nat)
    requires ch > 0 && offset % ch == 0 && n % ch == 0
    ensures (offset + n) % ch == 0
  {
    DivMod(offset, ch);
    DivMod(n, ch);
    assert offset + n == (offset / ch + n / ch) * ch;
    DivModUnique(offset + n, offset / ch + n / ch, ch, 0);
  }
}
