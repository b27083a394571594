/** Decoding a residue: the same steps in the same order as the encoder's, either channel by channel or
    into the channels of one interleaved vector. */
module ResidueInverse {
  import opened BitMath
  import opened BitBuffer
  import opened Codebook
  import opened Phrases
  import opened Lattice
  import opened PartitionWords
  import opened Residue
  import opened Residue2
  import opened ResidueLayout

  /** What the encoder is known to have done, if anything: the classes, the samples, the steps, and what
      stands in the packet after them. */
  datatype Script = Script(known: bool, shelf: Shelf, partword: seq<seq<nat>>, rows: seq<seq<int>>, all: seq<Slot>,
                           start: seq<seq<int>>, tail: seq<bool>)
  {
    /** After `n` steps the rest of the packet is what the encoder wrote in the steps still to come, and the
        vectors have gained what it had taken off by then. */
    ghost predicate Decoding(look: Look, n: nat, vals: seq<seq<int>>, rest: seq<bool>)
    {
      && Job(look, shelf, partword, rows) && SlotsOk(look, partword, all) && n <= |all|
      && SlotsOk(look, partword, all[..n])
      && var run, whole := RunOf(look, shelf, partword, rows, all[..n]), RunOf(look, shelf, partword, rows, all);
      && AllBalanced(vals, run.rows, start, rows)
      && run.tokens <= whole.tokens && whole.exact && Coming(shelf, whole.tokens[|run.tokens|..], rest, tail)
    }
  }

  /** The decoder at work on these vectors. */
  ghost function PlayOf(layout: Layout, look: Look, g: Script, vecs: seq<array<int>>): Play
  {
    Play(layout, look, g.shelf, |vecs|)
  }

  /** What the decoder relies on; it can only follow an encoder that it is in step with. */
  ghost predicate Ready(layout: Layout, look: Look, vecs: seq<array<int>>, g: Script)
  {
    && look.Readable(g.shelf) && Distinct(vecs) && layout.Fits(look, g.shelf, vecs)
    && (g.known ==> look.InStep() && layout.Aligned(look, |vecs|))
  }

  // ---------------------------------------------------------------------------------------------
  // Room
  // ---------------------------------------------------------------------------------------------

  /** What book `b` reads for partition `i` ends with the partition. */
  ghost predicate EndsWith(look: Look, i: nat, b: int)
  {
    0 <= b < |look.books| && look.books[b].dim > 0 ==>
      look.At(i) + Span(look.grouping, look.books[b].dim) <= look.At(i) + look.grouping
  }

  /** The decoder stays inside its partitions exactly if the vectors of every stage book fill one. */
  lemma StaysInside(look: Look, shelf: Shelf)
    requires look.Readable(shelf) && look.begin <= look.end && look.Partvals() > 0
    ensures (forall i, class_: nat, s: nat :: 0 <= i < look.Partvals() ==> EndsWith(look, i, look.BookOf(class_, s)))
       <==> look.Tiled()
  {
    hide Book.Decodable, Look.Partvals, Span, Shelf.Valid;
    if look.Tiled() {
      forall i, class_: nat, s: nat | 0 <= i < look.Partvals()
        ensures EndsWith(look, i, look.BookOf(class_, s))
      {
        var b := look.BookOf(class_, s);
        if 0 <= b < |look.books| {
          assert Tiles(look.books[look.partbooks[class_][s]], look.grouping);
          ReadsIsFill(look.grouping, look.books[b].dim);
        }
      }
    }
    if forall i, class_: nat, s: nat :: 0 <= i < look.Partvals() ==> EndsWith(look, i, look.BookOf(class_, s)) {
      forall c, s |
        0 <= c < |look.partbooks| && 0 <= s < |look.partbooks[c]| && 0 <= look.partbooks[c][s] < |look.books|
        ensures Tiles(look.books[look.partbooks[c][s]], look.grouping)
      {
        var b := look.partbooks[c][s];
        assert look.BookReadable(shelf, b);
        DecodableDim(look.books[b], |shelf.lens[b]|);
        assert EndsWith(look, 0, look.BookOf(c, s));
        ReadsIsFill(look.grouping, look.books[b].dim);
      }
    }
  }

  lemma DecodableDim(c: Book, n: nat)
    requires c.Decodable(n)
    ensures c.dim > 0
  {
  }

  /** Where a partition is decoded to, if its vectors fill it and it starts on channel 0. */
  lemma TiledPlace(layout: Layout, look: Look, ch: nat, i: nat, class_: nat, s: nat)
    requires look.grouping > 0 && look.begin <= look.end && look.Tiled() && layout.Aligned(look, ch)
    requires i < look.Partvals() && 0 <= look.BookOf(class_, s) < |look.books|
    ensures var c := look.books[look.BookOf(class_, s)];
      && c.dim > 0 && layout.From(ch, look.At(i)) == look.At(i) && look.At(i) + look.grouping <= look.end
      && Span(layout.Count(ch, look.At(i), look.grouping), c.dim) <= look.grouping
  {
    hide Span;
    var c := look.books[look.partbooks[class_][s]];
    assert Tiles(c, look.grouping);
    ReadsIsFill(look.grouping, c.dim);
    PartitionFits(look, i);
    if layout.Across? && ch > 0 {
      OnChannelZero(ch, look.begin, i, look.grouping);
      PlacesAsked(ch, look.At(i), look.grouping);
    }
  }

  /** Then the channels only have to reach as far as the residue, and nothing outside the residue changes. */
  lemma TilesFit(layout: Layout, look: Look, shelf: Shelf, vecs: seq<array<int>>)
    requires look.grouping > 0 && look.begin <= look.end && look.Tiled() && layout.Aligned(look, |vecs|)
    requires layout.Across? ==> |vecs| > 0
    requires forall j: nat :: j < layout.Vectors(vecs) ==> look.end <= layout.Size(vecs, j)
    ensures layout.Fits(look, shelf, vecs)
    ensures forall k :: k < look.begin || look.end <= k ==> layout.Outside(look, |vecs|, k)
  {
    hide Look.Tiled, Look.Partvals, Span, Layout.From, Layout.Count, Layout.Size, Look.BookOf;
    forall i, j, class_: nat, s: nat | 0 <= i < look.Partvals() && 0 <= j < layout.Vectors(vecs)
      ensures layout.RoomFor(look, shelf, vecs, i, look.BookOf(class_, s), j)
    {
      if 0 <= look.BookOf(class_, s) < |look.books| {
        TiledPlace(layout, look, |vecs|, i, class_, s);
      }
    }
    forall k, i, class_: nat, s: nat | (k < look.begin || look.end <= k) && 0 <= i < look.Partvals()
      ensures !layout.Hits(look, |vecs|, i, look.BookOf(class_, s), k)
    {
      if 0 <= look.BookOf(class_, s) < |look.books| {
        TiledPlace(layout, look, |vecs|, i, class_, s);
      }
    }
  }

  // ---------------------------------------------------------------------------------------------
  // One step
  // ---------------------------------------------------------------------------------------------

  /** What decoding a partition with book `b` relies on. */
  lemma PartReady(layout: Layout, look: Look, vecs: seq<array<int>>, g: Script, class_: nat, s: nat, i: nat, j: nat)
    requires Ready(layout, look, vecs, g) && look.grouping > 0 && look.begin <= look.end && i < look.Partvals()
    requires j < layout.Vectors(vecs) && look.BookOf(class_, s) >= 0
    ensures var b := look.BookOf(class_, s);
      && g.shelf.Valid() && |look.books| == |g.shelf.lens| && b < |look.books|
      && look.books[b].Decodable(|g.shelf.lens[b]|) && look.books[b].dim > 0
      && layout.RoomFor(look, g.shelf, vecs, i, b, j)
      && (layout.Across? ==> |vecs| > 0)
      && (g.known ==>
            && Tiles(look.books[b], look.grouping) && look.books[b].ListsGrid()
            && layout.From(|vecs|, look.At(i)) == look.At(i)
            && layout.Count(|vecs|, look.At(i), look.grouping) == look.grouping)
  {
    hide Layout.RoomFor, Book.ListsGrid;
    assert look.BookReadable(g.shelf, look.partbooks[class_][s]);
    assert layout.RoomFor(look, g.shelf, vecs, i, look.BookOf(class_, s), j);
    var c := look.books[look.partbooks[class_][s]];
    assert g.known ==> Tiles(c, look.grouping) && c.ListsGrid();
    if g.known && layout.Across? {
      OnChannelZero(|vecs|, look.begin, i, look.grouping);
      PlacesAsked(|vecs|, look.At(i), look.grouping);
    }
  }

  lemma OnChannelZero(ch: nat, begin: nat, i: nat, grouping: nat)
    requires ch > 0 && begin % ch == 0 && grouping % ch == 0
    ensures (begin + i * grouping) % ch == 0
  {
    DivMod(grouping, ch);
    MulAssoc(i, grouping / ch, ch);
    DivModUnique(i * grouping, i * (grouping / ch), ch, 0);
    EndOnBoundary(ch, begin, i * grouping);
  }

  /** One partition, into its channel or across all of them. */
  method AddPart(layout: Layout, c: Book, b: nat, at: nat, n: nat, j: nat, vecs: seq<array<int>>,
                 books: seq<DecodeBook>, opb: OggPackBuffer, ghost known: bool, ghost vals: seq<seq<int>>,
                 ghost ahead: seq<nat>, ghost rest: seq<Token>, ghost shelf: Shelf, ghost tail: seq<bool>)
      returns (ok: bool, ghost es: seq<nat>, ghost vals': seq<seq<int>>)
    requires Decoders(books, shelf) && opb.Valid() && b < |shelf.lens| && c.Decodable(|shelf.lens[b]|)
    requires Distinct(vecs) && layout.Holding(vecs, vals) && j < layout.Vectors(vecs) && (layout.Across? ==> |vecs| > 0)
    requires var from, count := layout.From(|vecs|, at), layout.Count(|vecs|, at, n);
      && from <= layout.Size(vecs, j) && (shelf.Empty(b) || from + Span(count, c.dim) <= layout.Size(vecs, j))
      && (known ==> |ahead| == Reads(count, c.dim) && VectorsComing(shelf, b, ahead, rest, opb.Rest(), tail))
    modifies opb, vecs
    ensures Decoders(books, shelf) && opb.Valid() && opb.bits == old(opb.bits) && layout.Holding(vecs, vals')
    ensures |vals'| == |vals| == layout.Vectors(vecs) && forall k :: 0 <= k < |vals| && k != j ==> vals'[k] == vals[k]
    ensures Read(c, vals[j], vals'[j], layout.From(|vecs|, at), layout.Count(|vecs|, at, n), es)
    ensures HeardUpTo(shelf, b, es, old(opb.Rest()), opb.Rest(), ok)
    ensures ok ==> |es| == if shelf.Empty(b) then 0 else Reads(layout.Count(|vecs|, at, n), c.dim)
    ensures known ==> ok && es == ahead && Coming(shelf, rest, opb.Rest(), tail)
  {
    hide Decoders, Coming, VectorsComing, Shelf.Valid, Shelf.Empty, Reads, Added, Interleaves, Places, First;
    hide HeardUpTo;
    if layout.PerChannel? {
      ok, es := DecodePart(c, b, vecs[j], at, n, books, opb, known, ahead, rest, shelf, tail);
      vals' := vals[j := vecs[j][..]];
      assert RowsOf(vecs) == vals';
    } else {
      WorkLength(vals[0], RowsOf(vecs), layout.len);
      ghost var work;
      ok, es, work := DecodeAcross(c, b, vecs, layout.len, at, n, books, opb, vals[0], known, ahead, rest, shelf,
                                   tail);
      vals' := [work];
    }
  }

  lemma WorkLength(work: seq<int>, rows: seq<seq<int>>, len: nat)
    requires Interleaves(work, rows, len)
    ensures |work| == len * |rows|
  {
  }

  /** A partition that is read changes nothing outside. */
  lemma PartKept(layout: Layout, look: Look, ch: nat, class_: nat, s: nat, i: nat, j: nat, vals: seq<seq<int>>,
                 vals': seq<seq<int>>, es: seq<nat>)
    requires look.grouping > 0 && look.begin <= look.end && i < look.Partvals()
    requires 0 <= look.BookOf(class_, s) < |look.books| && look.books[look.BookOf(class_, s)].dim > 0
    requires |vals'| == |vals| && j < |vals| && forall k :: 0 <= k < |vals| && k != j ==> vals'[k] == vals[k]
    requires Read(look.books[look.BookOf(class_, s)], vals[j], vals'[j], layout.From(ch, look.At(i)),
                  layout.Count(ch, look.At(i), look.grouping), es)
    ensures layout.Kept(look, ch, vals, vals')
  {
    hide Added, Layout.From, Layout.Count, Span, Look.BookOf;
    forall k | 0 <= k < |vals[j]| && layout.Outside(look, ch, k)
      ensures vals'[j][k] == vals[j][k]
    {
      assert !layout.Hits(look, ch, i, look.BookOf(class_, s), k);
    }
  }

  /** The entries that the encoder wrote for a partition are those that the decoder reads, and give back what was
      taken off. */
  lemma PartBack(look: Look, shelf: Shelf, b: int, run: Run, at: nat, j: nat, vals: seq<seq<int>>,
                 vals0: seq<seq<int>>, rows0: seq<seq<int>>)
    requires j < |run.rows| && PartOk(look, shelf, b, run.rows[j], at) && Tiles(look.books[b], look.grouping)
    requires look.books[b].ListsGrid() && look.books[b].Decodable(|shelf.lens[b]|)
    requires AllBalanced(vals, run.rows, vals0, rows0)
    requires CodeVectors(look.books[b], run.rows[j], at, Fill(look.grouping, look.books[b].dim)).exact
    ensures var c := look.books[b];
      var done := CodeVectors(c, run.rows[j], at, Fill(look.grouping, c.dim));
      && |done.entries| == Reads(look.grouping, c.dim) && DigitsBelow(|c.valuelist|, done.entries)
      && at + |done.entries| * c.dim <= |vals[j]|
      && Balanced(Added(c, vals[j], at, done.entries), done.row, vals0[j], rows0[j])
  {
    hide CodeVectors, Added, Balanced, Book.Centred, Searchable, Fill, Reads, Book.ListsGrid;
    var c := look.books[b];
    ReadsIsFill(look.grouping, c.dim);
    assert Balanced(vals[j], run.rows[j], vals0[j], rows0[j]);
    AddedBalances(c, run.rows[j], at, Fill(look.grouping, c.dim), vals[j], vals0[j], rows0[j]);
  }

  lemma RoomIs(layout: Layout, look: Look, shelf: Shelf, vecs: seq<array<int>>, i: nat, b: int, j: nat)
    requires j < layout.Vectors(vecs) && layout.RoomFor(look, shelf, vecs, i, b, j)
    requires 0 <= b < |look.books| && look.books[b].dim > 0
    ensures var from, count := layout.From(|vecs|, look.At(i)), layout.Count(|vecs|, look.At(i), look.grouping);
      from <= layout.Size(vecs, j) && (shelf.Empty(b) || from + Span(count, look.books[b].dim) <= layout.Size(vecs, j))
  {
  }

  /** Step `n` codes a partition with book `b`: its entries, and the tokens after them. */
  ghost predicate PartNext(look: Look, g: Script, n: nat, i: nat, j: nat, b: int, ahead: seq<nat>, left: seq<Token>)
  {
    && Job(look, g.shelf, g.partword, g.rows) && SlotsOk(look, g.partword, g.all) && n < |g.all|
    && SlotsOk(look, g.partword, g.all[..n]) && SlotsOk(look, g.partword, g.all[..n + 1])
    && var run, next, whole := RunOf(look, g.shelf, g.partword, g.rows, g.all[..n]),
                               RunOf(look, g.shelf, g.partword, g.rows, g.all[..n + 1]),
                               RunOf(look, g.shelf, g.partword, g.rows, g.all);
    && j < |run.rows| && PartOk(look, g.shelf, b, run.rows[j], look.At(i))
    && var done := CodeVectors(look.books[b], run.rows[j], look.At(i), Fill(look.grouping, look.books[b].dim));
    && done.exact && ahead == done.entries && next.rows == run.rows[j := done.row]
    && run.tokens <= next.tokens <= whole.tokens && left == whole.tokens[|next.tokens|..]
    && whole.tokens[|run.tokens|..] == VectorTokens(b, ahead) + left
  }

  lemma PartComing(look: Look, g: Script, n: nat, s: nat, i: nat, j: nat, vals: seq<seq<int>>, rest: seq<bool>)
      returns (ahead: seq<nat>, left: seq<Token>)
    requires g.Decoding(look, n, vals, rest) && n < |g.all| && g.all[n] == Part(s, i, j)
    requires look.grouping > 0 && look.begin <= look.end && j < |g.partword| && i < |g.partword[j]|
    requires var b := look.BookOf(g.partword[j][i], s);
      0 <= b < |look.books| && Tiles(look.books[b], look.grouping)
    ensures var b := look.BookOf(g.partword[j][i], s);
      && PartNext(look, g, n, i, j, b, ahead, left) && |ahead| == Reads(look.grouping, look.books[b].dim)
      && VectorsComing(g.shelf, b, ahead, left, rest, g.tail)
  {
    hide RunOf, CodeVectors, Look.StageBookOk, Job, SlotsOk, Book.Centred, Coming, AllBalanced, Fill, Reads, Searchable;
    hide Book.ListsGrid, VectorTokens;
    PartAhead(look, g.shelf, g.partword, g.rows, g.all, n, s, i, j);
    var b := look.BookOf(g.partword[j][i], s);
    var run := RunOf(look, g.shelf, g.partword, g.rows, g.all[..n]);
    var next := RunOf(look, g.shelf, g.partword, g.rows, g.all[..n + 1]);
    ReadsIsFill(look.grouping, look.books[b].dim);
    JobRows(look, g.shelf, g.partword, run.rows);
    ahead := CodeVectors(look.books[b], run.rows[j], look.At(i), Fill(look.grouping, look.books[b].dim)).entries;
    left := RunOf(look, g.shelf, g.partword, g.rows, g.all).tokens[|next.tokens|..];
  }

  lemma JobRows(look: Look, shelf: Shelf, partword: seq<seq<nat>>, rows: seq<seq<int>>)
    requires Job(look, shelf, partword, rows)
    ensures |rows| == |partword|
  {
  }

  /** Reading those entries is decoding that step. */
  lemma PartDecoded(look: Look, g: Script, n: nat, i: nat, j: nat, b: int, ahead: seq<nat>, left: seq<Token>,
                    vals: seq<seq<int>>, vals': seq<seq<int>>, rest0: seq<bool>, rest: seq<bool>)
    requires g.Decoding(look, n, vals, rest0) && PartNext(look, g, n, i, j, b, ahead, left)
    requires look.grouping > 0 && Tiles(look.books[b], look.grouping) && look.books[b].ListsGrid()
    requires |look.books| == |g.shelf.lens| && look.books[b].Decodable(|g.shelf.lens[b]|)
    requires |vals'| == |vals| && j < |vals| && forall k :: 0 <= k < |vals| && k != j ==> vals'[k] == vals[k]
    requires Read(look.books[b], vals[j], vals'[j], look.At(i), look.grouping, ahead)
    requires Coming(g.shelf, left, rest, g.tail)
    ensures g.Decoding(look, n + 1, vals', rest)
  {
    hide RunOf, CodeVectors, Job, SlotsOk, Coming, Added, Fill, Tiles, Balanced, PartOk, Book.Decodable;
    var run := RunOf(look, g.shelf, g.partword, g.rows, g.all[..n]);
    var next := RunOf(look, g.shelf, g.partword, g.rows, g.all[..n + 1]);
    PartBack(look, g.shelf, b, run, look.At(i), j, vals, g.start, g.rows);
    BalanceOthers(vals, vals', run.rows, next.rows, g.start, g.rows, j);
  }

  /** The partition step. */
  method GetPart(layout: Layout, look: Look, s: nat, i: nat, j: nat, class_: nat, vecs: seq<array<int>>,
                 books: seq<DecodeBook>, opb: OggPackBuffer, ghost g: Script, ghost n: nat, ghost vals: seq<seq<int>>,
                 ghost entries: map<Slot, nat>)
      returns (ok: bool, ghost vals': seq<seq<int>>)
    requires Decoders(books, g.shelf) && opb.Valid()
    requires Ready(layout, look, vecs, g) && Distinct(vecs) && layout.Holding(vecs, vals)
    requires look.grouping > 0 && look.begin <= look.end && i < look.Partvals() && j < layout.Vectors(vecs)
    requires look.partitions > 0 && look.wordDim > 0 && Word(i - i % look.wordDim, j) in entries
    requires class_ == PlayOf(layout, look, g, vecs).ClassOf(entries, i, j)
    requires g.known ==>
      && g.Decoding(look, n, vals, opb.Rest()) && n < |g.all| && g.all[n] == Part(s, i, j)
      && |g.partword| == layout.Vectors(vecs) && i < |g.partword[j]| && class_ == g.partword[j][i]
    modifies opb, vecs
    ensures Decoders(books, g.shelf) && opb.Valid() && opb.bits == old(opb.bits)
    ensures layout.Moved(look, vecs, vals, vals')
    ensures PlayOf(layout, look, g, vecs).Step(Part(s, i, j), Moment(vals, old(opb.Rest()), entries),
                                               Moment(vals', opb.Rest(), entries), ok)
    ensures g.known ==> ok && g.Decoding(look, n + 1, vals', opb.Rest())
  {
    hide Play.ClassOf, HeardUpTo;
    hide Decoders, Coming, RunOf, CodeVectors, Look.StageBookOk, Balanced, Job, SlotsOk, Shelf.Valid, Book.Centred;
    hide Look.BookOf, Ready, Layout.Holding, Layout.Kept, Layout.RoomFor, Layout.From, Layout.Count, Read, Added;
    hide PartOk;
    hide Book.Decodable, Book.ListsGrid, Tiles, Fill, Reads, Span, PartNext;
    ghost var rest0 := opb.Rest();
    var b := look.BookOf(class_, s);
    ok, vals' := true, vals;
    KeptSame(layout, look, |vecs|, vals);
    ghost var ahead, left := [], [];
    if g.known {
      PartAhead(look, g.shelf, g.partword, g.rows, g.all, n, s, i, j);
    }
    if b >= 0 {
      PartReady(layout, look, vecs, g, class_, s, i, j);
      if g.known {
        ahead, left := PartComing(look, g, n, s, i, j, vals, opb.Rest());
      }
      RoomIs(layout, look, g.shelf, vecs, i, b, j);
      ghost var es;
      ok, es, vals' := AddPart(layout, look.books[b], b, look.At(i), look.grouping, j, vecs, books, opb, g.known, vals,
                               ahead, left, g.shelf, g.tail);
      PartKept(layout, look, |vecs|, class_, s, i, j, vals, vals', es);
      assert PlayOf(layout, look, g, vecs).VectorsRead(i, j, b, es, Moment(vals, rest0, entries),
                                                       Moment(vals', opb.Rest(), entries), ok);
      if g.known {
        PartDecoded(look, g, n, i, j, b, ahead, left, vals, vals', rest0, opb.Rest());
      }
    }
  }

  lemma BalanceOthers(vals: seq<seq<int>>, vals': seq<seq<int>>, rows: seq<seq<int>>, rows': seq<seq<int>>,
                      vals0: seq<seq<int>>, rows0: seq<seq<int>>, j: nat)
    requires AllBalanced(vals, rows, vals0, rows0) && |vals'| == |vals| && |rows'| == |rows| && j < |vals|
    requires Balanced(vals'[j], rows'[j], vals0[j], rows0[j])
    requires forall k :: 0 <= k < |vals| && k != j ==> vals'[k] == vals[k] && rows'[k] == rows[k]
    ensures AllBalanced(vals', rows', vals0, rows0)
  {
    hide Balanced;
    forall k | 0 <= k < |vals|
      ensures Balanced(vals'[k], rows'[k], vals0[k], rows0[k])
    {
      if k != j {
        assert Balanced(vals[k], rows[k], vals0[k], rows0[k]);
      }
    }
  }

  /** `classes` are the digits of the entry `e`, first partition highest. */
  ghost predicate Tells(look: Look, classes: seq<nat>, e: nat)
  {
    look.partitions > 0 && |classes| == look.wordDim
    && forall k :: 0 <= k < look.wordDim ==> classes[k] == DigitAt(look.partitions, look.wordDim, e, k)
  }

  /** The words of the first `ch` vectors at partition `i` tell the entries that were read. */
  ghost predicate WordsTold(look: Look, entries: map<Slot, nat>, words: seq<seq<nat>>, i: nat, ch: nat)
  {
    |words| == ch && forall j :: 0 <= j < ch ==> Word(i, j) in entries && Tells(look, words[j], entries[Word(i, j)])
  }

  /** The words at other partitions are as they were. */
  ghost predicate OthersKept(entries: map<Slot, nat>, entries': map<Slot, nat>, i: nat)
  {
    forall m: nat, j: nat :: m != i && Word(m, j) in entries ==>
      Word(m, j) in entries' && entries'[Word(m, j)] == entries[Word(m, j)]
  }

  /** The phrase word step: the classes of `wordDim` partitions of one vector. */
  method GetWord(look: Look, i: nat, j: nat, decodemap: seq<seq<nat>>, books: seq<DecodeBook>, opb: OggPackBuffer,
                 ghost g: Script, ghost n: nat, ghost vals: seq<seq<int>>, ghost p: Play,
                 ghost entries: map<Slot, nat>)
      returns (ok: bool, classes: seq<nat>, ghost entries': map<Slot, nat>)
    requires Decoders(books, g.shelf) && opb.Valid() && p.look == look && p.shelf == g.shelf && p.Set()
    requires Decodes(decodemap, look.partitions, look.wordDim) && look.groupbook < |g.shelf.lens|
    requires g.known ==>
      g.Decoding(look, n, vals, opb.Rest()) && n < |g.all| && g.all[n] == Word(i, j) && j < |g.partword|
    modifies opb
    ensures Decoders(books, g.shelf) && opb.Valid() && opb.bits == old(opb.bits)
    ensures p.Step(Word(i, j), Moment(vals, old(opb.Rest()), entries), Moment(vals, opb.Rest(), entries'), ok)
    ensures ok ==> Word(i, j) in entries' && Tells(look, classes, entries'[Word(i, j)])
    ensures g.known ==>
      ok && classes == WordDigits(g.partword[j], i, look.wordDim) && g.Decoding(look, n + 1, vals, opb.Rest())
  {
    hide Decoders, Coming, RunOf, Look.StageBookOk, AllBalanced, Job, SlotsOk, Shelf.Valid, Horner, DigitsBelow;
    hide WordDigits, Heard, Power, Shelf.Empty, Stopped, DigitAt;
    ghost var ahead := [];
    if g.known {
      WordAhead(look, g.shelf, g.partword, g.rows, g.all, n, i, j);
      ghost var run := RunOf(look, g.shelf, g.partword, g.rows, g.all[..n]);
      ghost var whole := RunOf(look, g.shelf, g.partword, g.rows, g.all);
      ghost var next := RunOf(look, g.shelf, g.partword, g.rows, g.all[..n + 1]);
      DecodesIt(decodemap, look.partitions, look.wordDim, WordDigits(g.partword[j], i, look.wordDim));
      ahead := whole.tokens[|run.tokens|..];
      assert ahead[1..] == whole.tokens[|next.tokens|..];
    }
    entries' := entries;
    var temp := Get(books, g.shelf, look.groupbook, opb, g.known, ahead, g.tail);
    if temp == -1 || temp >= |decodemap| {
      return false, [], entries';
    }
    MapDigits(decodemap, look.partitions, look.wordDim, temp);
    entries' := entries[Word(i, j) := temp];
    return true, decodemap[temp], entries';
  }

  // ---------------------------------------------------------------------------------------------
  // The loops
  // ---------------------------------------------------------------------------------------------

  ghost predicate WordKnown(look: Look, partword: seq<seq<nat>>, words: seq<seq<nat>>, i: nat)
  {
    |words| == |partword| && forall j :: 0 <= j < |words| ==> words[j] == WordDigits(partword[j], i, look.wordDim)
  }

  /** The words known so far, vector by vector within each. */
  ghost predicate WordsKnown(look: Look, partword: seq<seq<nat>>, known: seq<seq<seq<nat>>>, n: nat)
  {
    n <= |known| && forall l :: 0 <= l < n ==> WordKnown(look, partword, known[l], l * look.wordDim)
  }

  /** All words read so far tell their entries. */
  ghost predicate AllTold(look: Look, entries: map<Slot, nat>, words: seq<seq<seq<nat>>>, n: nat, ch: nat)
  {
    n <= |words| && forall l :: 0 <= l < n ==> WordsTold(look, entries, words[l], l * look.wordDim, ch)
  }

  lemma ToldMore(look: Look, entries: map<Slot, nat>, entries': map<Slot, nat>, words: seq<seq<nat>>,
                 classes: seq<nat>, i: nat, j: nat)
    requires WordsTold(look, entries, words, i, j)
    requires Word(i, j) in entries' && entries' == entries[Word(i, j) := entries'[Word(i, j)]]
    requires Tells(look, classes, entries'[Word(i, j)])
    ensures WordsTold(look, entries', words + [classes], i, j + 1)
  {
    hide Tells;
  }

  lemma KeptOthers(entries: map<Slot, nat>, mid: map<Slot, nat>, entries': map<Slot, nat>, i: nat, j: nat)
    requires OthersKept(entries, mid, i)
    requires entries' == mid || (Word(i, j) in entries' && entries' == mid[Word(i, j) := entries'[Word(i, j)]])
    ensures OthersKept(entries, entries', i)
  {
  }

  /** What a word step does to the entries. */
  lemma WordStepIs(p: Play, i: nat, j: nat, a: Moment, z: Moment, ok: bool)
    requires p.Step(Word(i, j), a, z, ok)
    ensures z.vals == a.vals && (!ok ==> z.entries == a.entries)
    ensures ok ==> Word(i, j) in z.entries && z.entries == a.entries[Word(i, j) := z.entries[Word(i, j)]]
  {
  }

  /** The words of all vectors at partition `i`. */
  method GetWords(look: Look, i: nat, ch: nat, decodemap: seq<seq<nat>>, books: seq<DecodeBook>, opb: OggPackBuffer,
                  ghost g: Script, ghost n: nat, ghost vals: seq<seq<int>>, ghost p: Play,
                  ghost entries: map<Slot, nat>)
      returns (ok: bool, words: seq<seq<nat>>, ghost entries': map<Slot, nat>)
    requires Decoders(books, g.shelf) && opb.Valid() && p.look == look && p.shelf == g.shelf && p.Set()
    requires Decodes(decodemap, look.partitions, look.wordDim) && look.groupbook < |g.shelf.lens|
    requires g.known ==>
      g.Decoding(look, n, vals, opb.Rest()) && ch == |g.partword| && Ahead(g.all, n, WordSlots(i, ch))
    modifies opb
    ensures Decoders(books, g.shelf) && opb.Valid() && opb.bits == old(opb.bits)
    ensures p.Runs(WordSlots(i, ch), Moment(vals, old(opb.Rest()), entries), Moment(vals, opb.Rest(), entries'), ok)
    ensures OthersKept(entries, entries', i) && (ok ==> WordsTold(look, entries', words, i, ch))
    ensures g.known ==>
      ok && WordKnown(look, g.partword, words, i) && g.Decoding(look, n + |WordSlots(i, ch)|, vals, opb.Rest())
  {
    hide Decoders, Script.Decoding, Decodes, WordDigits, WordSlots, Play.Step, Play.Replay, Play.Runs, Play.Set, Tells;
    words, entries' := [], entries;
    WordsLength(i, ch);
    ghost var start := Moment(vals, opb.Rest(), entries);
    NoWordSlots(i);
    NothingReplayed(p, start);
    for j := 0 to ch
      invariant Decoders(books, g.shelf) && opb.Valid() && opb.bits == old(opb.bits)
      invariant p.Replay(WordSlots(i, j), start, Moment(vals, opb.Rest(), entries'))
      invariant OthersKept(entries, entries', i) && WordsTold(look, entries', words, i, j)
      invariant g.known ==> forall k :: 0 <= k < j ==> words[k] == WordDigits(g.partword[k], i, look.wordDim)
      invariant g.known ==> g.Decoding(look, n + j, vals, opb.Rest())
    {
      if g.known {
        WordSlotsAre(i, ch, j);
        assert g.all[n + j] == g.all[n..n + ch][j];
      }
      ghost var mid := Moment(vals, opb.Rest(), entries');
      var classes;
      ghost var e;
      ok, classes, e := GetWord(look, i, j, decodemap, books, opb, g, n + j, vals, p, entries');
      ghost var now := Moment(vals, opb.Rest(), e);
      WordStepIs(p, i, j, mid, now, ok);
      KeptOthers(entries, entries', e, i, j);
      NextWordSlot(p, i, j, ch, start, mid, now, ok);
      if !ok {
        return false, [], e;
      }
      ToldMore(look, entries', e, words, classes, i, j);
      words, entries' := words + [classes], e;
    }
    ok := true;
    RunsWhole(p, WordSlots(i, ch), start, Moment(vals, opb.Rest(), entries'));
  }

  lemma NoWordSlots(i: nat)
    ensures WordSlots(i, 0) == []
  {
  }

  lemma RunsWhole(p: Play, slots: seq<Slot>, a: Moment, z: Moment)
    requires p.Replay(slots, a, z)
    ensures p.Runs(slots, a, z, true)
  {
  }

  lemma ReplayOf(p: Play, slots: seq<Slot>, a: Moment, z: Moment)
    requires p.Runs(slots, a, z, true)
    ensures p.Replay(slots, a, z)
  {
  }

  lemma {:induction false} WordPrefix(i: nat, j: nat, ch: nat)
    requires j <= ch
    ensures WordSlots(i, j) <= WordSlots(i, ch)
    decreases ch
  {
    if j < ch {
      WordPrefix(i, j, ch - 1);
    }
  }

  lemma {:induction false} PartPrefix(s: nat, i: nat, j: nat, ch: nat)
    requires j <= ch
    ensures PartSlots(s, i, j) <= PartSlots(s, i, ch)
    decreases ch
  {
    if j < ch {
      PartPrefix(s, i, j, ch - 1);
    }
  }

  /** From the steps of `x` on to those of `x + y`, or to a stop on the way through `slots`. */
  lemma RunOn(p: Play, x: seq<Slot>, y: seq<Slot>, slots: seq<Slot>, a: Moment, mid: Moment, z: Moment, ok: bool)
    requires p.Replay(x, a, mid) && p.Runs(y, mid, z, ok) && x + y <= slots
    ensures ok ==> p.Replay(x + y, a, z)
    ensures !ok ==> p.Runs(slots, a, z, false)
  {
    hide Play.Step, Play.Replay, Play.Runs;
    RunsThen(p, x, y, a, mid, z, ok);
    if ok {
      ReplayOf(p, x + y, a, z);
    } else {
      StopsEarly(p, x + y, slots, a, z);
    }
  }

  lemma NextWordSlot(p: Play, i: nat, j: nat, ch: nat, a: Moment, mid: Moment, z: Moment, ok: bool)
    requires p.Replay(WordSlots(i, j), a, mid) && p.Step(Word(i, j), mid, z, ok) && j < ch
    ensures ok ==> p.Replay(WordSlots(i, j + 1), a, z)
    ensures !ok ==> p.Runs(WordSlots(i, ch), a, z, false)
  {
    hide Play.Step, Play.Replay, Play.Runs;
    RunsOne(p, Word(i, j), mid, z, ok);
    WordPrefix(i, j + 1, ch);
    RunOn(p, WordSlots(i, j), [Word(i, j)], WordSlots(i, ch), a, mid, z, ok);
  }

  lemma NextPartSlot(p: Play, s: nat, i: nat, j: nat, ch: nat, a: Moment, mid: Moment, z: Moment, ok: bool)
    requires p.Replay(PartSlots(s, i, j), a, mid) && p.Step(Part(s, i, j), mid, z, ok) && j < ch
    ensures ok ==> p.Replay(PartSlots(s, i, j + 1), a, z)
    ensures !ok ==> p.Runs(PartSlots(s, i, ch), a, z, false)
  {
    hide Play.Step, Play.Replay, Play.Runs;
    RunsOne(p, Part(s, i, j), mid, z, ok);
    PartPrefix(s, i, j + 1, ch);
    RunOn(p, PartSlots(s, i, j), [Part(s, i, j)], PartSlots(s, i, ch), a, mid, z, ok);
  }

  /** The class told for a partition is the one its word's entry has at its place. */
  lemma ClassTold(p: Play, entries: map<Slot, nat>, words: seq<seq<nat>>, i: nat, j: nat, ch: nat)
    requires p.Set() && WordsTold(p.look, entries, words, i - i % p.look.wordDim, ch) && j < ch
    ensures Word(i - i % p.look.wordDim, j) in entries && |words[j]| == p.look.wordDim
    ensures words[j][i % p.look.wordDim] == p.ClassOf(entries, i, j)
  {
    hide DigitAt;
  }

  /** One partition of all vectors. */
  method GetParts(layout: Layout, look: Look, s: nat, i: nat, k: nat, words: seq<seq<nat>>, vecs: seq<array<int>>,
                  books: seq<DecodeBook>, opb: OggPackBuffer, ghost g: Script, ghost n: nat, ghost vals: seq<seq<int>>,
                  ghost entries: map<Slot, nat>)
      returns (ok: bool, ghost vals': seq<seq<int>>)
    requires Decoders(books, g.shelf) && opb.Valid()
    requires Ready(layout, look, vecs, g) && Distinct(vecs) && layout.Holding(vecs, vals)
    requires look.grouping > 0 && look.begin <= look.end && i < look.Partvals()
    requires look.partitions > 0 && look.wordDim > 0 && k == i % look.wordDim
    requires WordsTold(look, entries, words, i - k, layout.Vectors(vecs))
    requires g.known ==>
      && g.Decoding(look, n, vals, opb.Rest()) && |words| == |g.partword| && Ahead(g.all, n, PartSlots(s, i, |words|))
      && forall j :: 0 <= j < |words| ==> i < |g.partword[j]| && |words[j]| > k && words[j][k] == g.partword[j][i]
    modifies opb, vecs
    ensures Decoders(books, g.shelf) && opb.Valid() && opb.bits == old(opb.bits)
    ensures layout.Moved(look, vecs, vals, vals')
    ensures PlayOf(layout, look, g, vecs).Runs(PartSlots(s, i, |words|), Moment(vals, old(opb.Rest()), entries),
                                               Moment(vals', opb.Rest(), entries), ok)
    ensures g.known ==> ok && g.Decoding(look, n + |PartSlots(s, i, |words|)|, vals', opb.Rest())
  {
    hide Decoders, Script.Decoding, Ready, PartSlots, Distinct, Layout.Holding, Layout.Kept, Look.Partvals;
    hide Play.Step, Play.Replay, Play.Runs, Play.ClassOf, WordsTold;
    ghost var p, start := PlayOf(layout, look, g, vecs), Moment(vals, opb.Rest(), entries);
    PartsLength(s, i, |words|);
    vals' := vals;
    KeptSame(layout, look, |vecs|, vals);
    PartsLength(s, i, 0);
    NothingReplayed(p, start);
    ToldLength(look, entries, words, i - k, layout.Vectors(vecs));
    for j := 0 to |words|
      invariant Decoders(books, g.shelf) && opb.Valid() && opb.bits == old(opb.bits)
      invariant layout.Moved(look, vecs, vals, vals')
      invariant p.Replay(PartSlots(s, i, j), start, Moment(vals', opb.Rest(), entries))
      invariant g.known ==> g.Decoding(look, n + j, vals', opb.Rest())
    {
      if g.known {
        PartSlotsAre(s, i, |words|, j);
        assert g.all[n + j] == g.all[n..n + |words|][j];
      }
      ClassTold(p, entries, words, i, j, layout.Vectors(vecs));
      ghost var mid, now := vals', Moment(vals', opb.Rest(), entries);
      ok, vals' := GetPart(layout, look, s, i, j, words[j][k], vecs, books, opb, g, n + j, mid, entries);
      KeptMore(layout, look, |vecs|, vals, mid, vals');
      NextPartSlot(p, s, i, j, |words|, start, now, Moment(vals', opb.Rest(), entries), ok);
      if !ok {
        return false, vals';
      }
    }
    ok := true;
    RunsWhole(p, PartSlots(s, i, |words|), start, Moment(vals', opb.Rest(), entries));
  }

  lemma ToldLength(look: Look, entries: map<Slot, nat>, words: seq<seq<nat>>, i: nat, ch: nat)
    requires WordsTold(look, entries, words, i, ch)
    ensures |words| == ch && forall j :: 0 <= j < ch ==> |words[j]| == look.wordDim
  {
  }

  lemma NextPartSlots(p: Play, s: nat, from: nat, i: nat, upto: nat, ch: nat, a: Moment, mid: Moment, z: Moment,
                      ok: bool)
    requires from <= i < upto && p.Replay(GroupSlots(s, from, i, ch), a, mid)
    requires p.Runs(PartSlots(s, i, ch), mid, z, ok)
    ensures ok ==> p.Replay(GroupSlots(s, from, i + 1, ch), a, z)
    ensures !ok ==> p.Runs(GroupSlots(s, from, upto, ch), a, z, false)
  {
    hide Play.Step, Play.Replay, Play.Runs, PartSlots;
    GroupPrefix(s, from, i + 1, upto, ch);
    RunOn(p, GroupSlots(s, from, i, ch), PartSlots(s, i, ch), GroupSlots(s, from, upto, ch), a, mid, z, ok);
  }

  /** Partitions from a word's first on take its digits in turn. */
  lemma PlaceInWord(from: nat, i: nat, dim: nat)
    requires dim > 0 && from % dim == 0 && from <= i < from + dim
    ensures i % dim == i - from
  {
    DivMod(from, dim);
    DivModUnique(i, from / dim, dim, i - from);
  }

  /** So partition `from + k` is read as what digit `k` of the word at `from` says, the first partition's digit the
      highest. */
  lemma DigitDecides(p: Play, entries: map<Slot, nat>, from: nat, k: nat, j: nat)
    requires p.Set() && from % p.look.wordDim == 0 && k < p.look.wordDim && Word(from, j) in entries
    ensures (from + k) - (from + k) % p.look.wordDim == from && Power(p.look.partitions, p.look.wordDim - 1 - k) > 0
    ensures p.ClassOf(entries, from + k, j)
         == entries[Word(from, j)] / Power(p.look.partitions, p.look.wordDim - 1 - k) % p.look.partitions
  {
    PlaceInWord(from, from + k, p.look.wordDim);
  }

  /** The partitions of one word. */
  method GetGroup(layout: Layout, look: Look, s: nat, from: nat, upto: nat, words: seq<seq<nat>>, vecs: seq<array<int>>,
                  books: seq<DecodeBook>, opb: OggPackBuffer, ghost g: Script, ghost n: nat, ghost vals: seq<seq<int>>,
                  ghost entries: map<Slot, nat>)
      returns (ok: bool, ghost vals': seq<seq<int>>)
    requires Decoders(books, g.shelf) && opb.Valid()
    requires Ready(layout, look, vecs, g) && Distinct(vecs) && layout.Holding(vecs, vals)
    requires look.grouping > 0 && look.begin <= look.end && look.partitions > 0 && look.wordDim > 0
    requires from <= upto <= from + look.wordDim && upto <= look.Partvals() && from % look.wordDim == 0
    requires WordsTold(look, entries, words, from, layout.Vectors(vecs))
    requires g.known ==>
      && g.Decoding(look, n, vals, opb.Rest()) && (forall j :: 0 <= j < |g.partword| ==> upto <= |g.partword[j]|)
      && WordKnown(look, g.partword, words, from) && Ahead(g.all, n, GroupSlots(s, from, upto, |words|))
    modifies opb, vecs
    ensures Decoders(books, g.shelf) && opb.Valid() && opb.bits == old(opb.bits)
    ensures layout.Moved(look, vecs, vals, vals')
    ensures PlayOf(layout, look, g, vecs).Runs(GroupSlots(s, from, upto, |words|),
                                               Moment(vals, old(opb.Rest()), entries),
                                               Moment(vals', opb.Rest(), entries), ok)
    ensures g.known ==> ok && g.Decoding(look, n + |GroupSlots(s, from, upto, |words|)|, vals', opb.Rest())
  {
    hide Decoders, Script.Decoding, Ready, PartSlots, Distinct, Ahead, Look.Partvals, Layout.Holding, Layout.Kept;
    hide Play.Step, Play.Replay, Play.Runs, WordsTold;
    ghost var p, start := PlayOf(layout, look, g, vecs), Moment(vals, opb.Rest(), entries);
    vals' := vals;
    KeptSame(layout, look, |vecs|, vals);
    NothingReplayed(p, start);
    ToldLength(look, entries, words, from, layout.Vectors(vecs));
    for i := from to upto
      invariant Decoders(books, g.shelf) && opb.Valid() && opb.bits == old(opb.bits)
      invariant layout.Moved(look, vecs, vals, vals')
      invariant p.Replay(GroupSlots(s, from, i, |words|), start, Moment(vals', opb.Rest(), entries))
      invariant g.known ==> g.Decoding(look, n + |GroupSlots(s, from, i, |words|)|, vals', opb.Rest())
    {
      PlaceInWord(from, i, look.wordDim);
      if g.known {
        GroupPrefix(s, from, i + 1, upto, |words|);
        AheadPart(g.all, n, GroupSlots(s, from, upto, |words|), GroupSlots(s, from, i, |words|),
                  PartSlots(s, i, |words|));
      }
      ghost var now := n + |GroupSlots(s, from, i, |words|)|;
      ghost var mid, at := vals', Moment(vals', opb.Rest(), entries);
      ok, vals' := GetParts(layout, look, s, i, i - from, words, vecs, books, opb, g, now, mid, entries);
      KeptMore(layout, look, |vecs|, vals, mid, vals');
      NextPartSlots(p, s, from, i, upto, |words|, start, at, Moment(vals', opb.Rest(), entries), ok);
      if !ok {
        return false, vals';
      }
    }
    ok := true;
    RunsWhole(p, GroupSlots(s, from, upto, |words|), start, Moment(vals', opb.Rest(), entries));
  }

  /** One turn of a stage's loop: in the first stage fetch the words, then decode their partitions. */
  method GetWordAndGroup(layout: Layout, look: Look, s: nat, i: nat, upto: nat, decodemap: seq<seq<nat>>,
                         before: seq<seq<nat>>,
                         vecs: seq<array<int>>, books: seq<DecodeBook>, opb: OggPackBuffer, ghost g: Script,
                         ghost n: nat, ghost vals: seq<seq<int>>, ghost entries: map<Slot, nat>)
      returns (ok: bool, words: seq<seq<nat>>, ghost vals': seq<seq<int>>, ghost entries': map<Slot, nat>)
    requires Decoders(books, g.shelf) && opb.Valid()
    requires Ready(layout, look, vecs, g) && Distinct(vecs) && layout.Holding(vecs, vals)
    requires look.grouping > 0 && look.begin <= look.end && i <= upto <= i + look.wordDim && upto <= look.Partvals()
    requires look.partitions > 0 && look.wordDim > 0 && i % look.wordDim == 0
    requires Decodes(decodemap, look.partitions, look.wordDim) && look.groupbook < |g.shelf.lens|
    requires s > 0 ==> WordsTold(look, entries, before, i, layout.Vectors(vecs))
    requires g.known ==>
      && g.Decoding(look, n, vals, opb.Rest()) && layout.Vectors(vecs) == |g.partword|
      && (forall j :: 0 <= j < |g.partword| ==> upto <= |g.partword[j]|)
      && Ahead(g.all, n, WordAndGroup(s, i, upto, |g.partword|)) && (s > 0 ==> WordKnown(look, g.partword, before, i))
    modifies opb, vecs
    ensures Decoders(books, g.shelf) && opb.Valid() && opb.bits == old(opb.bits)
    ensures layout.Moved(look, vecs, vals, vals')
    ensures OthersKept(entries, entries', i) && (s > 0 ==> entries' == entries)
    ensures ok ==> WordsTold(look, entries', words, i, layout.Vectors(vecs)) && (s > 0 ==> words == before)
    ensures PlayOf(layout, look, g, vecs).Runs(WordAndGroup(s, i, upto, layout.Vectors(vecs)),
                                               Moment(vals, old(opb.Rest()), entries),
                                               Moment(vals', opb.Rest(), entries'), ok)
    ensures g.known ==>
      && ok && WordKnown(look, g.partword, words, i)
      && g.Decoding(look, n + |WordAndGroup(s, i, upto, |g.partword|)|, vals', opb.Rest())
  {
    hide Decoders, Script.Decoding, Ready, Distinct, Ahead, WordSlots, GroupSlots, Decodes, WordsTold, Look.Partvals;
    hide Layout.Holding, Layout.Kept, Play.Step, Play.Replay, Play.Runs;
    ghost var p, start := PlayOf(layout, look, g, vecs), Moment(vals, opb.Rest(), entries);
    ok, words, vals', entries' := true, before, vals, entries;
    KeptSame(layout, look, |vecs|, vals);
    ghost var ch := layout.Vectors(vecs);
    ghost var first, second := if s == 0 then WordSlots(i, ch) else [], GroupSlots(s, i, upto, ch);
    assert first + second == WordAndGroup(s, i, upto, ch);
    NothingReplayed(p, start);
    if g.known {
      AheadPart(g.all, n, WordAndGroup(s, i, upto, ch), first, second);
    }
    if s == 0 {
      ok, words, entries' := GetWords(look, i, layout.Vectors(vecs), decodemap, books, opb, g, n, vals, p, entries);
      if !ok {
        StopsEarly(p, first, first + second, start, Moment(vals, opb.Rest(), entries'));
        return false, [], vals, entries';
      }
      ReplayOf(p, first, start, Moment(vals, opb.Rest(), entries'));
    }
    ToldLength(look, entries', words, i, ch);
    ghost var mid := Moment(vals, opb.Rest(), entries');
    ok, vals' := GetGroup(layout, look, s, i, upto, words, vecs, books, opb, g, n + |first|, vals, entries');
    RunsThen(p, first, second, start, mid, Moment(vals', opb.Rest(), entries'), ok);
  }

  /** The words of another partition stay told. */
  lemma ToldStill(look: Look, entries: map<Slot, nat>, entries': map<Slot, nat>, words: seq<seq<seq<nat>>>, l: nat,
                  ch: nat, w: seq<seq<nat>>)
    requires AllTold(look, entries, words, l, ch) && l < |words| && look.wordDim > 0
    requires OthersKept(entries, entries', l * look.wordDim) && WordsTold(look, entries', w, l * look.wordDim, ch)
    ensures AllTold(look, entries', words[l := w], l + 1, ch)
  {
    hide Tells;
    forall m | 0 <= m < l + 1
      ensures WordsTold(look, entries', words[l := w][m], m * look.wordDim, ch)
    {
      if m < l {
        assert WordsTold(look, entries, words[m], m * look.wordDim, ch);
        MulStep(m, l, look.wordDim);
      }
    }
  }

  lemma ToldAt(look: Look, entries: map<Slot, nat>, words: seq<seq<seq<nat>>>, n: nat, l: nat, ch: nat)
    requires AllTold(look, entries, words, n, ch) && l < n
    ensures WordsTold(look, entries, words[l], l * look.wordDim, ch)
  {
  }

  lemma NextGroup(p: Play, s: nat, l: nat, m: nat, dim: nat, partvals: nat, ch: nat, a: Moment, mid: Moment, z: Moment,
                  ok: bool)
    requires l < m && p.Replay(StageSlots(s, l, dim, partvals, ch), a, mid)
    requires WordStart(l, dim, partvals) <= WordStart(l + 1, dim, partvals)
    requires p.Runs(WordAndGroup(s, WordStart(l, dim, partvals), WordStart(l + 1, dim, partvals), ch), mid, z, ok)
    ensures ok ==> p.Replay(StageSlots(s, l + 1, dim, partvals, ch), a, z)
    ensures !ok ==> p.Runs(StageSlots(s, m, dim, partvals, ch), a, z, false)
  {
    hide Play.Step, Play.Replay, Play.Runs, WordAndGroup, WordStart;
    StagePrefix(s, l + 1, m, dim, partvals, ch);
    RunOn(p, StageSlots(s, l, dim, partvals, ch),
          WordAndGroup(s, WordStart(l, dim, partvals), WordStart(l + 1, dim, partvals), ch),
          StageSlots(s, m, dim, partvals, ch), a, mid, z, ok);
  }

  lemma NextStage(p: Play, s: nat, t: nat, dim: nat, partvals: nat, ch: nat, a: Moment, mid: Moment, z: Moment,
                  ok: bool)
    requires s < t && dim > 0 && p.Replay(AllSlots(s, dim, partvals, ch), a, mid)
    requires p.Runs(StageSlots(s, Words(dim, partvals), dim, partvals, ch), mid, z, ok)
    ensures ok ==> p.Replay(AllSlots(s + 1, dim, partvals, ch), a, z)
    ensures !ok ==> p.Runs(AllSlots(t, dim, partvals, ch), a, z, false)
  {
    hide Play.Step, Play.Replay, Play.Runs, StageSlots, Words;
    AllPrefix(s + 1, t, dim, partvals, ch);
    RunOn(p, AllSlots(s, dim, partvals, ch), StageSlots(s, Words(dim, partvals), dim, partvals, ch),
          AllSlots(t, dim, partvals, ch), a, mid, z, ok);
  }

  method GetStage(layout: Layout, look: Look, s: nat, partvals: nat, decodemap: seq<seq<nat>>,
                  words: seq<seq<seq<nat>>>, vecs: seq<array<int>>, books: seq<DecodeBook>, opb: OggPackBuffer,
                  ghost g: Script, ghost n: nat, ghost vals: seq<seq<int>>, ghost entries: map<Slot, nat>)
      returns (ok: bool, words': seq<seq<seq<nat>>>, ghost vals': seq<seq<int>>, ghost entries': map<Slot, nat>)
    requires Decoders(books, g.shelf) && opb.Valid()
    requires Ready(layout, look, vecs, g) && Distinct(vecs) && layout.Holding(vecs, vals)
    requires look.grouping > 0 && look.begin <= look.end && look.wordDim > 0 && partvals == look.Partvals()
    requires look.partitions > 0
    requires Decodes(decodemap, look.partitions, look.wordDim) && look.groupbook < |g.shelf.lens|
    requires |words| == Words(look.wordDim, partvals)
    requires s > 0 ==> AllTold(look, entries, words, |words|, layout.Vectors(vecs))
    requires g.known ==>
      && g.Decoding(look, n, vals, opb.Rest()) && layout.Vectors(vecs) == |g.partword|
      && (forall j :: 0 <= j < |g.partword| ==> partvals == |g.partword[j]|)
      && (s > 0 ==> WordsKnown(look, g.partword, words, |words|))
      && Ahead(g.all, n, StageSlots(s, |words|, look.wordDim, partvals, |g.partword|))
    modifies opb, vecs
    ensures Decoders(books, g.shelf) && opb.Valid() && opb.bits == old(opb.bits)
    ensures layout.Moved(look, vecs, vals, vals')
    ensures |words'| == |words|
    ensures ok ==> AllTold(look, entries', words', |words|, layout.Vectors(vecs))
    ensures PlayOf(layout, look, g, vecs).Runs(
      StageSlots(s, |words|, look.wordDim, partvals, layout.Vectors(vecs)),
      Moment(vals, old(opb.Rest()), entries), Moment(vals', opb.Rest(), entries'), ok)
    ensures g.known ==>
      && ok && WordsKnown(look, g.partword, words', |words|)
      && g.Decoding(look, n + |StageSlots(s, |words|, look.wordDim, partvals, |g.partword|)|, vals', opb.Rest())
  {
    hide Decoders, Script.Decoding, Ready, Distinct, Ahead, WordAndGroup, Decodes, Words, WordStart, WordKnown;
    hide Look.Partvals, Layout.Holding, Layout.Kept, Play.Step, Play.Replay, Play.Runs, WordsTold, OthersKept, AllTold;
    ghost var dim, ch := look.wordDim, layout.Vectors(vecs);
    ghost var p, start := PlayOf(layout, look, g, vecs), Moment(vals, opb.Rest(), entries);
    words', vals', entries' := words, vals, entries;
    KeptSame(layout, look, |vecs|, vals);
    NothingReplayed(p, start);
    NoneTold(look, entries, words, ch);
    WordStartUp(0, look.wordDim, partvals);
    WordsCover(look.wordDim, partvals);
    var i, l := 0, 0;
    while i < partvals
      invariant 0 <= l <= |words| == |words'| && i == WordStart(l, dim, partvals) <= partvals
      invariant Decoders(books, g.shelf) && opb.Valid() && opb.bits == old(opb.bits)
      invariant layout.Moved(look, vecs, vals, vals')
      invariant AllTold(look, entries', words', if s > 0 then |words| else l, ch)
      invariant p.Replay(StageSlots(s, l, dim, partvals, ch), start, Moment(vals', opb.Rest(), entries'))
      invariant g.known ==> WordsKnown(look, g.partword, words', if s > 0 then |words| else l)
      invariant g.known ==> g.Decoding(look, n + |StageSlots(s, l, dim, partvals, ch)|, vals', opb.Rest())
      decreases partvals - i
    {
      WordBegins(l, look.wordDim, partvals);
      StartOfWord(l, look.wordDim);
      var upto := if i + look.wordDim < partvals then i + look.wordDim else partvals;
      ghost var now := n + |StageSlots(s, l, dim, partvals, ch)|;
      if g.known {
        StageAhead(g.all, n, s, l, |words|, dim, partvals, ch);
      }
      if s > 0 {
        ToldAt(look, entries', words', |words|, l, ch);
      }
      var w;
      ghost var mid, at, e := vals', Moment(vals', opb.Rest(), entries'), entries';
      ok, w, vals', entries' := GetWordAndGroup(layout, look, s, i, upto, decodemap, words'[l], vecs, books, opb, g,
                                                now, mid, e);
      KeptMore(layout, look, |vecs|, vals, mid, vals');
      WordStartUp(l, dim, partvals);
      NextGroup(p, s, l, |words|, dim, partvals, ch, start, at, Moment(vals', opb.Rest(), entries'), ok);
      if !ok {
        return false, words', vals', entries';
      }
      if s == 0 {
        ToldStill(look, e, entries', words', l, ch, w);
      } else {
        assert words'[l := w] == words';
      }
      words' := words'[l := w];
      i, l := upto, l + 1;
    }
    AllWords(l, look.wordDim, partvals);
    ok := true;
    RunsWhole(p, StageSlots(s, l, dim, partvals, ch), start, Moment(vals', opb.Rest(), entries'));
  }

  lemma NoneTold(look: Look, entries: map<Slot, nat>, words: seq<seq<seq<nat>>>, ch: nat)
    ensures AllTold(look, entries, words, 0, ch)
  {
  }

  lemma StartOfWord(l: nat, dim: nat)
    requires dim > 0
    ensures (l * dim) % dim == 0
  {
    DivModUnique(l * dim, l, dim, 0);
  }

  // ---------------------------------------------------------------------------------------------
  // The whole block
  // ---------------------------------------------------------------------------------------------

  /** The packet continues with what the encoder wrote for this job, every entry of it exact. */
  ghost predicate Sent(look: Look, shelf: Shelf, partword: seq<seq<nat>>, rows: seq<seq<int>>, opb: OggPackBuffer,
                       tail: seq<bool>)
    requires Job(look, shelf, partword, rows)
    reads opb
  {
    && AllSlotsOk(look, partword)
    && var whole := RunOf(look, shelf, partword, rows, Schedule(look, |partword|));
    && whole.exact && opb.Valid() && Coming(shelf, whole.tokens, opb.Rest(), tail)
  }

  /** What the encoder's stages leave of the samples. */
  ghost function Left(look: Look, shelf: Shelf, partword: seq<seq<nat>>, rows: seq<seq<int>>): (r: seq<seq<int>>)
    requires Job(look, shelf, partword, rows) && AllSlotsOk(look, partword)
  {
    RunOf(look, shelf, partword, rows, Schedule(look, |partword|)).rows
  }

  /** The steps of the schedule, all of them or as many as the packet allows, lead from what the vectors held to what
      they hold. */
  ghost predicate Played(p: Play, vectors: nat, vals: seq<seq<int>>, bits: seq<bool>, vals': seq<seq<int>>,
                         bits': seq<bool>, entries: map<Slot, nat>, ok: bool)
  {
    && p.look.grouping > 0 && p.look.begin <= p.look.end && p.look.wordDim > 0
    && p.Runs(Schedule(p.look, vectors), Moment(vals, bits, map[]), Moment(vals', bits', entries), ok)
  }

  /** Decode a block as far as the packet goes, inside the channels whatever it holds. */
  method InverseAny(layout: Layout, look: Look, decodemap: seq<seq<nat>>, vecs: seq<array<int>>, books: seq<DecodeBook>,
                    opb: OggPackBuffer, ghost known: bool, ghost partword: seq<seq<nat>>, ghost shelf: Shelf,
                    ghost rows: seq<seq<int>>, ghost tail: seq<bool>, ghost vals: seq<seq<int>>)
      returns (ok: bool, ghost vals': seq<seq<int>>, ghost entries: map<Slot, nat>)
    requires Decoders(books, shelf) && opb.Valid() && layout.Holding(vecs, vals)
    requires look.Readable(shelf) && Distinct(vecs) && layout.Fits(look, shelf, vecs)
    requires Decodes(decodemap, look.partitions, look.wordDim)
    requires known ==>
      && look.InStep() && layout.Aligned(look, |vecs|)
      && layout.Vectors(vecs) == |partword| && Job(look, shelf, partword, rows)
      && Sent(look, shelf, partword, rows, opb, tail)
      && |vals| == |rows| && forall j :: 0 <= j < |vals| ==> |vals[j]| == |rows[j]|
    modifies opb, vecs
    ensures Decoders(books, shelf) && opb.Valid() && opb.bits == old(opb.bits) && layout.Moved(look, vecs, vals, vals')
    ensures Played(Play(layout, look, shelf, |vecs|), layout.Vectors(vecs), vals, old(opb.Rest()), vals', opb.Rest(),
                   entries, ok)
    ensures known ==>
      && ok && opb.Rest() == tail && AllSlotsOk(look, partword)
      && AllBalanced(vals', Left(look, shelf, partword, rows), vals, rows)
  {
    hide Decoders, Script.Decoding, Ready, Distinct, StageSlots, AllSlots, Words, Decodes, WordsKnown, RunOf, Job;
    hide SlotsOk, Look.Partvals, Coming, Schedule, AllTold, Layout.Holding, Layout.Kept;
    hide Look.Readable, Layout.Fits, Look.InStep, Play.Replay, Play.Runs, Play.Step;
    ReadableFacts(layout, look, shelf, vecs);
    var ch := layout.Vectors(vecs);
    ghost var g := Script(known, shelf, partword, rows, Schedule(look, ch), vals, tail);
    ghost var p, start := Play(layout, look, shelf, |vecs|), Moment(vals, opb.Rest(), map[]);
    MakeReady(layout, look, vecs, g);
    if known {
      JobFacts(look, shelf, partword, rows);
      StartDecoding(look, g, opb);
    }
    vals', entries := vals, map[];
    KeptSame(layout, look, |vecs|, vals);
    NoSlots(look, ch);
    NothingReplayed(p, start);
    ScheduleIs(look, ch);
    var partvals := look.Partvals();
    var words: seq<seq<seq<nat>>> := seq(Words(look.wordDim, partvals), l => []);
    for s := 0 to look.stages
      invariant Decoders(books, shelf) && opb.Valid() && opb.bits == old(opb.bits)
      invariant layout.Moved(look, vecs, vals, vals')
      invariant |words| == Words(look.wordDim, partvals)
      invariant s > 0 ==> AllTold(look, entries, words, |words|, ch)
      invariant p.Replay(AllSlots(s, look.wordDim, partvals, ch), start, Moment(vals', opb.Rest(), entries))
      invariant known && s > 0 ==> WordsKnown(look, partword, words, |words|)
      invariant known ==> g.Decoding(look, |AllSlots(s, look.wordDim, partvals, ch)|, vals', opb.Rest())
    {
      StagesAhead(look, s, ch);
      ghost var mid, at, e := vals', Moment(vals', opb.Rest(), entries), entries;
      ok, words, vals', entries := GetStage(layout, look, s, partvals, decodemap, words, vecs, books, opb, g,
                                            |AllSlots(s, look.wordDim, partvals, ch)|, mid, e);
      KeptMore(layout, look, |vecs|, vals, mid, vals');
      NextStage(p, s, look.stages, look.wordDim, partvals, ch, start, at, Moment(vals', opb.Rest(), entries), ok);
      if !ok {
        return false, vals', entries;
      }
    }
    if known {
      EndDecoding(look, g, vals', opb.Rest());
    }
    ok := true;
    RunsWhole(p, Schedule(look, ch), start, Moment(vals', opb.Rest(), entries));
  }

  lemma ReadableFacts(layout: Layout, look: Look, shelf: Shelf, vecs: seq<array<int>>)
    requires look.Readable(shelf) && layout.Fits(look, shelf, vecs)
    ensures shelf.Valid() && look.groupbook < |shelf.lens|
    ensures look.grouping > 0 && look.begin <= look.end && look.wordDim > 0 && look.partitions > 0
  {
  }

  lemma MakeReady(layout: Layout, look: Look, vecs: seq<array<int>>, g: Script)
    requires look.Readable(g.shelf) && Distinct(vecs) && layout.Fits(look, g.shelf, vecs) && look.grouping > 0
    requires g.known ==> look.InStep() && layout.Aligned(look, |vecs|)
    ensures Ready(layout, look, vecs, g)
  {
  }

  lemma StartDecoding(look: Look, g: Script, opb: OggPackBuffer)
    requires Job(look, g.shelf, g.partword, g.rows) && Sent(look, g.shelf, g.partword, g.rows, opb, g.tail)
    requires g.all == Schedule(look, |g.partword|) && |g.start| == |g.partword| == |g.rows|
    requires forall j :: 0 <= j < |g.start| ==> |g.start[j]| == |g.rows[j]|
    ensures opb.Valid() && g.Decoding(look, 0, g.start, opb.Rest())
  {
    hide Job, SlotOk, Schedule;
    assert g.all[..0] == [];
    var whole := RunOf(look, g.shelf, g.partword, g.rows, g.all);
    assert whole.tokens[0..] == whole.tokens;
  }

  lemma EndDecoding(look: Look, g: Script, vals: seq<seq<int>>, rest: seq<bool>)
    requires Job(look, g.shelf, g.partword, g.rows) && AllSlotsOk(look, g.partword)
    requires g.all == Schedule(look, |g.partword|)
    requires g.Decoding(look, |g.all|, vals, rest)
    ensures rest == g.tail && AllBalanced(vals, Left(look, g.shelf, g.partword, g.rows), g.start, g.rows)
  {
    hide Job, SlotsOk, Schedule, AllBalanced;
    assert g.all[..|g.all|] == g.all;
    var whole := RunOf(look, g.shelf, g.partword, g.rows, g.all);
    assert whole.tokens[|whole.tokens|..] == [];
    NothingComing(g.shelf, rest, g.tail);
  }

  /** A residue that ends where it begins takes no bits and changes nothing. */
  lemma NothingSent(look: Look, shelf: Shelf, partword: seq<seq<nat>>, rows: seq<seq<int>>, opb: OggPackBuffer,
                    tail: seq<bool>, vals: seq<seq<int>>)
    requires Job(look, shelf, partword, rows) && Sent(look, shelf, partword, rows, opb, tail) && look.begin == look.end
    requires |vals| == |rows| && forall j :: 0 <= j < |vals| ==> |vals[j]| == |rows[j]|
    ensures opb.Rest() == tail && AllSlotsOk(look, partword)
    ensures AllBalanced(vals, Left(look, shelf, partword, rows), vals, rows)
  {
    hide Job, SlotsOk, Schedule;
    NoPartitions(look, |partword|);
    NothingComing(shelf, opb.Rest(), tail);
  }

  /** The part of the residue that lies inside a block of `half` samples. */
  function Cut(look: Look, half: nat): (cut: Look)
    ensures cut.end <= half && cut.end <= look.end
  {
    look.(end := if look.end < half then look.end else half)
  }

  lemma CutReadable(look: Look, shelf: Shelf, half: nat)
    requires look.Readable(shelf)
    ensures Cut(look, half).Readable(shelf)
  {
    hide Book.Decodable;
    var cut := Cut(look, half);
    forall c, s | 0 <= c < |cut.partbooks| && 0 <= s < |cut.partbooks[c]|
      ensures cut.BookReadable(shelf, cut.partbooks[c][s])
    {
      assert look.BookReadable(shelf, look.partbooks[c][s]);
    }
  }

  /** Type 1, channel by channel. Whatever the packet holds, no sample outside the partitions changes; from what
      an encoder in step wrote, every sample gains exactly what the encoder's stages took off it, and the packet
      is read exactly as far as it was written. */
  method Inverse(look: Look, half: nat, decodemap: seq<seq<nat>>, vecs: seq<array<int>>, books: seq<DecodeBook>,
                 opb: OggPackBuffer, ghost known: bool, ghost partword: seq<seq<nat>>, ghost shelf: Shelf,
                 ghost rows: seq<seq<int>>, ghost tail: seq<bool>) returns (ok: bool, ghost entries: map<Slot, nat>)
    requires Decoders(books, shelf) && opb.Valid() && look.Readable(shelf) && Distinct(vecs)
    requires Decodes(decodemap, look.partitions, look.wordDim)
    requires look.begin < Cut(look, half).end ==> PerChannel.Fits(Cut(look, half), shelf, vecs)
    requires known ==>
      && look.end <= half && |vecs| == |partword| && Job(look, shelf, partword, rows)
      && look.InStep() && Sent(look, shelf, partword, rows, opb, tail)
      && |vecs| == |rows| && forall j :: 0 <= j < |vecs| ==> vecs[j].Length == |rows[j]|
    modifies opb, vecs
    ensures Decoders(books, shelf) && opb.Valid() && opb.bits == old(opb.bits)
    ensures if look.begin < Cut(look, half).end
      then
        && look.grouping > 0 && PerChannel.Kept(Cut(look, half), |vecs|, old(RowsOf(vecs)), RowsOf(vecs))
        && Played(Play(PerChannel, Cut(look, half), shelf, |vecs|), |vecs|, old(RowsOf(vecs)), old(opb.Rest()),
                  RowsOf(vecs), opb.Rest(), entries, ok)
      else RowsOf(vecs) == old(RowsOf(vecs)) && opb.Rest() == old(opb.Rest())
    ensures known ==>
      && ok && opb.Rest() == tail && AllSlotsOk(look, partword)
      && AllBalanced(RowsOf(vecs), Left(look, shelf, partword, rows), old(RowsOf(vecs)), rows)
  {
    hide Decoders, Decodes, Look.Valid, Look.Readable, Look.InStep, Distinct, Job, Sent, AllBalanced, Left, AllSlotsOk;
    hide Layout.Fits, Layout.Kept, Played;
    entries := map[];
    var end := if look.end < half then look.end else half;
    if known {
      EndsAfter(look, shelf, partword, rows);
    }
    if end > look.begin {
      var cut := look.(end := end);
      CutReadable(look, shelf, half);
      ReadableFacts(PerChannel, cut, shelf, vecs);
      assert known ==> cut == look;
      ghost var vals;
      ok, vals, entries := InverseAny(PerChannel, cut, decodemap, vecs, books, opb, known, partword, shelf, rows, tail,
                                      RowsOf(vecs));
    } else {
      if known {
        NothingSent(look, shelf, partword, rows, opb, tail, RowsOf(vecs));
      }
      ok := true;
    }
  }

  lemma EndsAfter(look: Look, shelf: Shelf, partword: seq<seq<nat>>, rows: seq<seq<int>>)
    requires Job(look, shelf, partword, rows)
    ensures look.begin <= look.end && look.grouping > 0
  {
    hide Look.StageBookOk;
  }

  /** The interleaving of the channels. */
  ghost function Mixed(rows: seq<seq<int>>, len: nat): (work: seq<int>)
    requires |rows| > 0 && forall c :: 0 <= c < |rows| ==> |rows[c]| == len
    ensures Interleaves(work, rows, len)
  {
    var work := seq(len * |rows|, q requires 0 <= q < len * |rows| => MixedAt(rows, len, q));
    MixedInterleaves(rows, len, work);
    work
  }

  ghost function MixedAt(rows: seq<seq<int>>, len: nat, q: nat): int
    requires |rows| > 0 && (forall c :: 0 <= c < |rows| ==> |rows[c]| == len) && q < len * |rows|
  {
    DivMod(q, |rows|);
    SampleInside(|rows|, len, q / |rows|, q % |rows|);
    rows[q % |rows|][q / |rows|]
  }

  lemma MixedInterleaves(rows: seq<seq<int>>, len: nat, work: seq<int>)
    requires |rows| > 0 && (forall c :: 0 <= c < |rows| ==> |rows[c]| == len)
    requires |work| == len * |rows| && forall q :: 0 <= q < |work| ==> work[q] == MixedAt(rows, len, q)
    ensures Interleaves(work, rows, len)
  {
    forall c, t | 0 <= c < |rows| && 0 <= t < len
      ensures Mirrors(work, rows, c, t)
    {
      Inside(|rows|, len, c, t);
      DivModUnique(t * |rows| + c, t, |rows|, c);
    }
  }

  /** One vector holds the interleaving of the channels; there is only one such. */
  lemma OneMixture(a: seq<int>, b: seq<int>, rows: seq<seq<int>>, len: nat)
    requires Interleaves(a, rows, len) && Interleaves(b, rows, len)
    ensures a == b
  {
    forall q | 0 <= q < |a|
      ensures a[q] == b[q]
    {
      var c, t := q % |rows|, q / |rows|;
      DivMod(q, |rows|);
      SampleInside(|rows|, len, t, c);
      assert Mirrors(a, rows, c, t) && Mirrors(b, rows, c, t);
    }
  }

  /** Type 2, across the channels. Whatever the packet holds, no sample outside the partitions changes; from what
      an encoder in step wrote, each sample gains exactly what the encoder's stages took off its place in the
      interleaved vector `row`, where begin and grouping are multiples of the channel count. */
  method InverseAcross(look: Look, half: nat, len: nat, decodemap: seq<seq<nat>>, chans: seq<array<int>>,
                       nonzero: seq<bool>, books: seq<DecodeBook>, opb: OggPackBuffer, ghost known: bool,
                       ghost classes: seq<nat>, ghost shelf: Shelf, ghost row: seq<int>, ghost tail: seq<bool>)
      returns (ok: bool, ghost entries: map<Slot, nat>)
    requires Decoders(books, shelf) && opb.Valid() && look.Readable(shelf) && Distinct(chans)
    requires Decodes(decodemap, look.partitions, look.wordDim)
    requires |chans| > 0 && |nonzero| == |chans| && (forall c :: 0 <= c < |chans| ==> chans[c].Length == len)
    requires look.begin < Cut(look, half).end && true in nonzero ==> Across(len).Fits(Cut(look, half), shelf, chans)
    requires known && true in nonzero ==>
      && look.end <= half && Job(look, shelf, [classes], [row]) && Sent(look, shelf, [classes], [row], opb, tail)
      && |row| == len * |chans| && look.InStep() && look.begin % |chans| == 0 && look.grouping % |chans| == 0
    requires known && true !in nonzero ==> opb.Rest() == tail
    modifies opb, chans
    ensures Decoders(books, shelf) && opb.Valid() && opb.bits == old(opb.bits)
    ensures if look.begin < Cut(look, half).end && true in nonzero
      then
        && look.grouping > 0 && KeptAcross(Cut(look, half), len, old(RowsOf(chans)), RowsOf(chans))
        && (forall c :: 0 <= c < |chans| ==> |old(RowsOf(chans))[c]| == |RowsOf(chans)[c]| == len)
        && Played(Play(Across(len), Cut(look, half), shelf, |chans|), 1, [Mixed(old(RowsOf(chans)), len)],
                  old(opb.Rest()), [Mixed(RowsOf(chans), len)], opb.Rest(), entries, ok)
      else RowsOf(chans) == old(RowsOf(chans)) && opb.Rest() == old(opb.Rest())
    ensures known ==> ok && opb.Rest() == tail
    ensures known && true in nonzero ==>
      AllSlotsOk(look, [classes])
      && forall c, t :: 0 <= c < |chans| && 0 <= t < len ==>
           Gains(RowsOf(chans)[c][t], Left(look, shelf, [classes], [row])[0], old(RowsOf(chans))[c][t], row,
                 t * |chans| + c)
  {
    hide Decoders, Decodes, Look.Valid, Look.Readable, Look.InStep, Distinct, Job, Sent, AllBalanced, Left, AllSlotsOk;
    hide Interleaves, Gains, Mixed, Layout.Fits, Layout.Kept, KeptAcross, Played;
    entries := map[];
    if !AnyNonzero(nonzero) {
      return true, entries;
    }
    ghost var work := Mixed(RowsOf(chans), len);
    WorkLength(work, RowsOf(chans), len);
    ghost var rows0, vals := RowsOf(chans), [work];
    if known {
      EndsAfter(look, shelf, [classes], [row]);
    }
    var end := if look.end < half then look.end else half;
    if end > look.begin {
      var cut := look.(end := end);
      CutReadable(look, shelf, half);
      ReadableFacts(Across(len), cut, shelf, chans);
      assert known ==> cut == look;
      ok, vals, entries := InverseAny(Across(len), cut, decodemap, chans, books, opb, known, [classes], shelf, [row],
                                      tail, [work]);
      EachKept(cut, work, vals, rows0, RowsOf(chans), len);
      OneMixture(vals[0], Mixed(RowsOf(chans), len), RowsOf(chans), len);
      assert vals == [Mixed(RowsOf(chans), len)];
    } else {
      if known {
        NothingSent(look, shelf, [classes], [row], opb, tail, vals);
      }
      ok := true;
    }
    if known {
      EachGains(work, vals[0], rows0, RowsOf(chans), len, Left(look, shelf, [classes], [row]), vals, row);
    }
  }

  /** The samples whose interleaved places are outside the partitions are as they were. */
  ghost predicate KeptAcross(look: Look, len: nat, rows: seq<seq<int>>, rows': seq<seq<int>>)
    requires look.grouping > 0 && look.begin <= look.end
  {
    && |rows'| == |rows| && (forall c :: 0 <= c < |rows| ==> |rows[c]| == |rows'[c]| == len)
    && forall c, t :: 0 <= c < |rows| && 0 <= t < len && Across(len).Outside(look, |rows|, t * |rows| + c) ==>
         rows'[c][t] == rows[c][t]
  }

  lemma EachKept(look: Look, work: seq<int>, vals: seq<seq<int>>, rows: seq<seq<int>>, rows': seq<seq<int>>, len: nat)
    requires look.grouping > 0 && look.begin <= look.end && |vals| == 1 && |rows| == |rows'|
    requires Interleaves(work, rows, len) && Interleaves(vals[0], rows', len)
    requires Across(len).Kept(look, |rows|, [work], vals)
    ensures KeptAcross(look, len, rows, rows')
  {
    hide Layout.Outside, Mirrors;
    assert Across(len).KeptOne(look, |rows|, [work][0], vals[0]);
    LengthsAre(work, rows, len);
    LengthsAre(vals[0], rows', len);
    forall c, t | 0 <= c < |rows| && 0 <= t < len && Across(len).Outside(look, |rows|, t * |rows| + c)
      ensures rows'[c][t] == rows[c][t]
    {
      assert Mirrors(work, rows, c, t) && Mirrors(vals[0], rows', c, t);
      MirrorsIs(work, rows, c, t);
      MirrorsIs(vals[0], rows', c, t);
    }
  }

  predicate AnyNonzero(nonzero: seq<bool>)
    ensures AnyNonzero(nonzero) <==> true in nonzero
  {
    exists i :: 0 <= i < |nonzero| && nonzero[i]
  }

  /** A sample gained what place `q` of the interleaved vector lost. */
  ghost predicate Gains(now: int, left: seq<int>, before: int, row: seq<int>, q: int)
  {
    0 <= q < |left| == |row| && now - before == row[q] - left[q]
  }

  lemma EachGains(work: seq<int>, work': seq<int>, rows: seq<seq<int>>, rows': seq<seq<int>>, len: nat,
                  left: seq<seq<int>>, vals: seq<seq<int>>, row: seq<int>)
    requires |rows| > 0 && Interleaves(work, rows, len) && Interleaves(work', rows', len) && |rows'| == |rows|
    requires vals == [work'] && AllBalanced(vals, left, [work], [row])
    ensures |left| == 1 && forall c :: 0 <= c < |rows| ==> |rows[c]| == |rows'[c]| == len
    ensures forall c, t :: 0 <= c < |rows| && 0 <= t < len ==>
      Gains(rows'[c][t], left[0], rows[c][t], row, t * |rows| + c)
  {
    assert Balanced(vals[0], left[0], [work][0], [row][0]);
    forall c, t | 0 <= c < |rows| && 0 <= t < len
      ensures Gains(rows'[c][t], left[0], rows[c][t], row, t * |rows| + c)
    {
      Inside(|rows|, len, c, t);
      assert Mirrors(work, rows, c, t) && Mirrors(work', rows', c, t);
    }
  }
}
