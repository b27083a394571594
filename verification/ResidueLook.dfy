/** Preparing a residue from its setup: which book serves a class in which stage, and what an accepted setup
    gives the decoder. */
module ResidueLook {
  import opened BitMath
  import opened Lattice
  import opened Phrases
  import PartitionWords
  import opened Residue
  import opened ResidueLayout
  import opened ResidueInverse
  import opened ResidueSetup
  import opened ValueList
  import StaticBook

  // ---------------------------------------------------------------------------------------------
  // Which book
  // ---------------------------------------------------------------------------------------------

  /** The number of ones among the `k` lowest bits. */
  function LowOnes(v: nat, k: nat): nat
  {
    if k == 0 then 0 else LowOnes(v, k - 1) + Bit(v, k - 1)
  }

  lemma {:induction false} LowOnesShift(v: nat, k: nat)
    requires k > 0
    ensures LowOnes(v, k) == v % 2 + LowOnes(v / 2, k - 1)
  {
    if k == 1 {
      assert LowOnes(v, 0) == 0 && Pow2(0) == 1;
    } else {
      LowOnesShift(v, k - 1);
      DivDiv(v, 2, Pow2(k - 2));
    }
  }

  /** As many bits as the number has hold all its ones. */
  lemma {:induction false} AllOnes(v: nat)
    ensures LowOnes(v, ILog(v)) == Ones(v)
  {
    if v > 0 {
      AllOnes(v / 2);
      LowOnesShift(v, ILog(v));
    }
  }

  /** Which of the listed books serves class `j` in stage `k`: the books are listed class by class, and for each
      class stage by stage. */
  ghost function Serving(r: Info, j: nat, k: nat): nat
    requires j < |r.secondstages|
  {
    Listed(r.secondstages[..j]) + LowOnes(r.secondstages[j], k)
  }

  /** The book of class `j` in stage `k`, -1 for none. */
  ghost function StageBook(r: Info, j: nat, k: nat): int
    requires j < |r.secondstages|
  {
    if Bit(r.secondstages[j], k) == 1 && Serving(r, j, k) < |r.booklist| then r.booklist[Serving(r, j, k)] else -1
  }

  lemma {:induction false} LowOnesUp(v: nat, k: nat, n: nat)
    requires k <= n
    ensures LowOnes(v, k) <= LowOnes(v, n)
    decreases n
  {
    if k < n {
      LowOnesUp(v, k, n - 1);
    }
  }

  lemma {:induction false} ListedUp(list: seq<nat>, i: nat, j: nat)
    requires i <= j <= |list|
    ensures Listed(list[..i]) <= Listed(list[..j])
    decreases j
  {
    if i < j {
      ListedUp(list, i, j - 1);
      ListedNext(list, j - 1);
    }
  }

  /** There is a book in the list for every stage a class has. */
  lemma ServingListed(r: Info, j: nat, k: nat)
    requires j < |r.secondstages| && |r.booklist| == Listed(r.secondstages)
    requires k < ILog(r.secondstages[j]) && Bit(r.secondstages[j], k) == 1
    ensures Serving(r, j, k) < |r.booklist|
  {
    hide Bit, ILog;
    AllOnes(r.secondstages[j]);
    LowOnesUp(r.secondstages[j], k + 1, ILog(r.secondstages[j]));
    ListedNext(r.secondstages, j);
    ListedUp(r.secondstages, j + 1, |r.secondstages|);
    assert r.secondstages[..|r.secondstages|] == r.secondstages;
  }

  /** Different stages have different places in the list, later ones further on. */
  lemma ServingApart(r: Info, j: nat, k: nat, j': nat, k': nat)
    requires j < |r.secondstages| && j' < |r.secondstages| && (j < j' || (j == j' && k < k'))
    requires k < ILog(r.secondstages[j]) && Bit(r.secondstages[j], k) == 1
    ensures Serving(r, j, k) < Serving(r, j', k')
  {
    hide Bit, ILog;
    if j == j' {
      LowOnesUp(r.secondstages[j], k + 1, k');
    } else {
      AllOnes(r.secondstages[j]);
      LowOnesUp(r.secondstages[j], k + 1, ILog(r.secondstages[j]));
      ListedNext(r.secondstages, j);
      ListedUp(r.secondstages, j + 1, j');
    }
  }

  /** Class `j` with its books in all stages. */
  ghost predicate Served(r: Info, j: nat, stages: seq<int>)
    requires j < |r.secondstages|
  {
    |stages| == ILog(r.secondstages[j]) && forall k :: 0 <= k < |stages| ==> stages[k] == StageBook(r, j, k)
  }

  /** The books of one class, from place `acc` of the list on. */
  method LookClass(r: Info, j: nat, acc: nat) returns (stages: seq<int>, acc': nat)
    requires j < |r.secondstages| && |r.booklist| == Listed(r.secondstages) && acc == Listed(r.secondstages[..j])
    ensures Served(r, j, stages) && acc' == Listed(r.secondstages[..j + 1])
  {
    hide Bit, ILog, Listed, LowOnes;
    acc', stages := acc, [];
    var n := ILog(r.secondstages[j]);
    NoOnes(r.secondstages[j]);
    for k := 0 to n
      invariant |stages| == k && acc' == Serving(r, j, k)
      invariant forall i :: 0 <= i < k ==> stages[i] == StageBook(r, j, i)
    {
      OneMoreBit(r.secondstages[j], k);
      if Bit(r.secondstages[j], k) == 1 {
        ServingListed(r, j, k);
        stages := stages + [r.booklist[acc']];
        acc' := acc' + 1;
      } else {
        stages := stages + [-1];
      }
    }
    AllOnes(r.secondstages[j]);
    ListedNext(r.secondstages, j);
  }

  lemma NoOnes(v: nat)
    ensures LowOnes(v, 0) == 0
  {
  }

  lemma OneMoreBit(v: nat, k: nat)
    ensures LowOnes(v, k + 1) == LowOnes(v, k) + Bit(v, k) && Bit(v, k) <= 1
  {
  }

  // ---------------------------------------------------------------------------------------------
  // Every listed book serves
  // ---------------------------------------------------------------------------------------------

  lemma {:induction false} OneAt(v: nat, n: nat, d: nat) returns (k: nat)
    requires d < LowOnes(v, n)
    ensures k < n && Bit(v, k) == 1 && LowOnes(v, k) == d
  {
    if d < LowOnes(v, n - 1) {
      k := OneAt(v, n - 1, d);
    } else {
      k := n - 1;
    }
  }

  lemma SomeListed(list: seq<nat>, n: nat)
    requires n <= |list| && ResidueSetup.Listed(list[..n]) > 0
    ensures n > 0
  {
  }

  lemma {:induction false} ServesPlace(r: Info, n: nat, m: nat) returns (j: nat, k: nat)
    requires n <= |r.secondstages| && m < ResidueSetup.Listed(r.secondstages[..n])
    ensures j < n && k < ILog(r.secondstages[j]) && Bit(r.secondstages[j], k) == 1 && Serving(r, j, k) == m
  {
    hide Bit, ILog;
    SomeListed(r.secondstages, n);
    ListedNext(r.secondstages, n - 1);
    if m < ResidueSetup.Listed(r.secondstages[..n - 1]) {
      j, k := ServesPlace(r, n - 1, m);
    } else {
      j := n - 1;
      AllOnes(r.secondstages[j]);
      k := OneAt(r.secondstages[j], ILog(r.secondstages[j]), m - ResidueSetup.Listed(r.secondstages[..j]));
    }
  }

  // ---------------------------------------------------------------------------------------------
  // The prepared residue
  // ---------------------------------------------------------------------------------------------

  /** `look` is prepared from the setup `r`: each class has its books, and there are as many stages as the class
      with most of them has. */
  ghost predicate LooksUp(r: Info, books: seq<StaticBook.Book>, look: Look)
  {
    && look.begin == r.begin && look.end == r.end && look.grouping == r.grouping && look.partitions == r.partitions
    && look.groupbook == r.groupbook < |books| && look.wordDim == books[r.groupbook].dim
    && |look.partbooks| == |r.secondstages| == r.partitions
    && (forall j :: 0 <= j < r.partitions ==> Served(r, j, look.partbooks[j]) && |look.partbooks[j]| <= look.stages)
    && (look.stages > 0 ==> exists j :: 0 <= j < r.partitions && |look.partbooks[j]| == look.stages)
    && |look.books| == |books| && forall b :: 0 <= b < |books| ==> look.books[b].dim == books[b].dim
  }

  /** Prepare a residue, and the map from partition words to classes. */
  method Prepare(r: Info, books: seq<StaticBook.Book>, decoded: seq<Book>)
      returns (look: Look, decodemap: seq<seq<nat>>)
    requires r.Valid(books) && |decoded| == |books| && forall b :: 0 <= b < |books| ==> decoded[b].dim == books[b].dim
    ensures LooksUp(r, books, look) && look.books == decoded
    ensures PartitionWords.Decodes(decodemap, r.partitions, look.wordDim) && |decodemap| == r.partvals
  {
    hide ResidueSetup.Listed, ILog, Power, StageBook, PartitionWords.Horner, Codes;
    var partbooks, acc: nat, maxstage: nat := [], 0, 0;
    ListedNone();
    assert r.secondstages[..0] == [];
    for j := 0 to r.partitions
      invariant |partbooks| == j && acc == ResidueSetup.Listed(r.secondstages[..j])
      invariant forall i :: 0 <= i < j ==> Served(r, i, partbooks[i]) && |partbooks[i]| <= maxstage
      invariant maxstage > 0 ==> exists i :: 0 <= i < j && |partbooks[i]| == maxstage
    {
      var stages;
      stages, acc := LookClass(r, j, acc);
      if |stages| > maxstage {
        maxstage := |stages|;
      }
      ghost var was := partbooks;
      partbooks := partbooks + [stages];
      assert forall i :: 0 <= i < j ==> partbooks[i] == was[i];
      assert partbooks[j] == stages;
    }
    var partvals;
    partvals, decodemap := PartitionWords.BuildDecodemap(r.partitions, books[r.groupbook].dim);
    look := Look(r.begin, r.end, r.grouping, r.partitions, r.groupbook, books[r.groupbook].dim, maxstage, partbooks,
                 decoded);
  }

  lemma ServedBook(r: Info, books: seq<StaticBook.Book>, look: Look, j: nat, k: nat)
    requires r.Valid(books) && LooksUp(r, books, look) && j < |look.partbooks| && k < |look.partbooks[j]|
    ensures var b := look.partbooks[j][k];
      b == -1 || (b in r.booklist && 0 <= b < |books| && books[b].mapping.Mapping?)
  {
    hide ResidueSetup.Listed, ILog, Power, Bit, Serving;
    assert Served(r, j, look.partbooks[j]);
    var b := StageBook(r, j, k);
    if b >= 0 {
      assert Codes(books, r.booklist[Serving(r, j, k)]);
    }
  }

  /** `c` is the header's book `s` with its values in a list. */
  ghost predicate DecodedFrom(s: StaticBook.Book, c: Book)
  {
    && c.dim == s.dim
    && (s.mapping.Mapping? && s.dim >= 1 ==> exists minval, del :: ListsValues(s, c, minval, del))
  }

  ghost predicate ListsValues(s: StaticBook.Book, c: Book, minval: int, del: int)
    requires s.mapping.Mapping?
  {
    var q := QuantisedOf(s, minval, del);
    q.Serves(|s.lengthlist|) && c.valuelist == q.Vectors(|s.lengthlist|)
  }

  /** The decoder's form of a book, with the minimum and the step that its floats stand for. */
  lemma Decoded(s: StaticBook.Book, c: Book, minval: int, del: int)
    requires StaticBook.Readable(s) && s.mapping.Mapping? && s.dim >= 1 && c.dim == s.dim
    ensures QuantisedOf(s, minval, del).Serves(|s.lengthlist|)
    ensures c.valuelist == QuantisedOf(s, minval, del).Vectors(|s.lengthlist|) ==>
      DecodedFrom(s, c) && c.Decodable(|s.lengthlist|)
  {
    hide StaticBook.Readable, Quantised.Serves, Quantised.Vector;
    AcceptedServes(s, minval, del);
    assert c.valuelist == QuantisedOf(s, minval, del).Vectors(|s.lengthlist|) ==> ListsValues(s, c, minval, del);
  }

  lemma DecodedDecodable(s: StaticBook.Book, c: Book)
    requires DecodedFrom(s, c) && s.mapping.Mapping? && s.dim >= 1
    ensures c.Decodable(|s.lengthlist|)
  {
    hide Quantised.Serves, Quantised.Vector;
    var minval, del :| ListsValues(s, c, minval, del);
  }

  /** An accepted setup is all that the decoder asks for, if the vectors of its books have at least one component. */
  lemma AcceptedIsReadable(r: Info, books: seq<StaticBook.Book>, look: Look, shelf: Shelf)
    requires r.Valid(books) && LooksUp(r, books, look) && shelf.Valid() && |shelf.lens| == |books|
    requires forall b :: 0 <= b < |books| ==>
      shelf.lens[b] == books[b].lengthlist && DecodedFrom(books[b], look.books[b])
    requires forall b :: 0 <= b < |books| && b in r.booklist ==> books[b].dim > 0
    ensures look.Readable(shelf)
  {
    hide ResidueSetup.Listed, ILog, Power, Book.Decodable, Served, Codes, DecodedFrom;
    forall c, s | 0 <= c < |look.partbooks| && 0 <= s < |look.partbooks[c]|
      ensures look.BookReadable(shelf, look.partbooks[c][s])
    {
      ServedBook(r, books, look, c, s);
      var b := look.partbooks[c][s];
      if b >= 0 {
        DecodedDecodable(books[b], look.books[b]);
      }
    }
  }

  /** The vectors of the book at place `m` of the list fill a partition. */
  ghost predicate ListedTiles(r: Info, books: seq<StaticBook.Book>, look: Look, m: nat)
  {
    && m < |r.booklist| && Codes(books, r.booklist[m]) && r.booklist[m] < |look.books|
    && Tiles(look.books[r.booklist[m]], r.grouping)
  }

  /** But nothing was checked of what keeps the decoder inside its partitions: it stays there exactly if the
      dimension of each listed book divides their size. */
  lemma AcceptedTiles(r: Info, books: seq<StaticBook.Book>, look: Look)
    requires r.Valid(books) && LooksUp(r, books, look)
    requires forall b :: 0 <= b < |books| && b in r.booklist ==> books[b].dim > 0
    ensures look.Tiled()
       <==> forall m :: 0 <= m < |r.booklist| ==> ListedTiles(r, books, look, m)
  {
    hide ResidueSetup.Listed, ILog, Power, Bit, Served, Tiles;
    if look.Tiled() {
      forall m | 0 <= m < |r.booklist|
        ensures ListedTiles(r, books, look, m)
      {
        assert r.secondstages[..|r.secondstages|] == r.secondstages;
        var j, k := ServesPlace(r, |r.secondstages|, m);
        ServesIt(r, look.partbooks[j], j, k);
        assert Tiles(look.books[look.partbooks[j][k]], look.grouping);
      }
    }
    if forall m :: 0 <= m < |r.booklist| ==> ListedTiles(r, books, look, m) {
      forall c, s |
        0 <= c < |look.partbooks| && 0 <= s < |look.partbooks[c]| && 0 <= look.partbooks[c][s] < |look.books|
        ensures Tiles(look.books[look.partbooks[c][s]], look.grouping)
      {
        ServedBook(r, books, look, c, s);
        var m :| 0 <= m < |r.booklist| && r.booklist[m] == look.partbooks[c][s];
        assert ListedTiles(r, books, look, m);
      }
    }
  }

  /** Then a block's channels have room for all that the decoder may read, and it changes nothing outside the
      residue's part of the block. */
  lemma AcceptedFits(layout: Layout, r: Info, books: seq<StaticBook.Book>, look: Look, shelf: Shelf, half: nat,
                     vecs: seq<array<int>>)
    requires r.Valid(books) && LooksUp(r, books, look) && look.begin < Cut(look, half).end
    requires forall b :: 0 <= b < |books| && b in r.booklist ==> books[b].dim > 0
    requires forall m :: 0 <= m < |r.booklist| ==> ListedTiles(r, books, look, m)
    requires layout.Aligned(look, |vecs|) && (layout.Across? ==> |vecs| > 0)
    requires forall j: nat :: j < layout.Vectors(vecs) ==> half <= layout.Size(vecs, j)
    ensures layout.Fits(Cut(look, half), shelf, vecs)
    ensures forall k :: k < look.begin || Cut(look, half).end <= k ==>
      layout.Outside(Cut(look, half), |vecs|, k)
  {
    hide ResidueSetup.Listed, ILog, Power, Codes, Layout.Fits, Layout.Outside, Layout.Size, Served, Tiles;
    AcceptedTiles(r, books, look);
    CutTiled(look, half);
    TilesFit(layout, Cut(look, half), shelf, vecs);
  }

  lemma CutTiled(look: Look, half: nat)
    requires look.Tiled()
    ensures Cut(look, half).Tiled()
  {
    hide Tiles;
    var cut := Cut(look, half);
    forall c, s | 0 <= c < |cut.partbooks| && 0 <= s < |cut.partbooks[c]| && 0 <= cut.partbooks[c][s] < |cut.books|
      ensures Tiles(cut.books[cut.partbooks[c][s]], cut.grouping)
    {
      assert Tiles(look.books[look.partbooks[c][s]], look.grouping);
    }
  }

  lemma ServesIt(r: Info, stages: seq<int>, j: nat, k: nat)
    requires j < |r.secondstages| && Served(r, j, stages) && k < ILog(r.secondstages[j])
    requires Bit(r.secondstages[j], k) == 1 && Serving(r, j, k) < |r.booklist|
    ensures k < |stages| && stages[k] == r.booklist[Serving(r, j, k)]
  {
    hide Bit, ILog, Serving;
  }

  // ---------------------------------------------------------------------------------------------
  // A setup that overruns
  // ---------------------------------------------------------------------------------------------

  /** One class, one stage, partitions of four samples, and a stage book of dimension three. */
  const ODD: Info := Info(0, 4, 4, 1, 0, [1], [1], 1)

  const ODD_BOOKS: seq<StaticBook.Book> :=
    [StaticBook.Book(1, [1, 1], StaticBook.NoMapping),
     StaticBook.Book(3, [1, 1], StaticBook.Mapping(true, 0, 0, 1, false, [0, 0, 0, 1, 1, 1]))]

  lemma OddIsAccepted()
    ensures ODD.Valid(ODD_BOOKS) && forall b :: 0 <= b < |ODD_BOOKS| ==> StaticBook.Readable(ODD_BOOKS[b])
  {
    assert [1][..0] == [];
    assert ResidueSetup.Listed([1]) == 1;
    assert Power(1, 1) == 1;
    assert Codes(ODD_BOOKS, 1);
    assert Pow2(1) == 2;
    assert ILog(1) == 1 && ILog(2) == 2 && ILog(3) == 2;
  }

  /** The header reader accepts it. The encoder writes one vector for the partition, the decoder reads two, which
      are six samples, and a channel of four has no room for them. */
  lemma OddOverruns(look: Look, shelf: Shelf, vec: array<int>)
    requires LooksUp(ODD, ODD_BOOKS, look) && shelf.lens == [[1, 1], [1, 1]] && vec.Length == look.end
    ensures ODD.Valid(ODD_BOOKS) && forall b :: 0 <= b < |ODD_BOOKS| ==> StaticBook.Readable(ODD_BOOKS[b])
    ensures Fill(4, 3) == 1 && Reads(4, 3) == 2 && Span(4, 3) == 6
    ensures !PerChannel.Fits(look, shelf, [vec])
  {
    OddIsAccepted();
    OddStage(look);
    assert [1, 1][..1] == [1] && [1][..0] == [];
    assert !PerChannel.RoomFor(look, shelf, [vec], 0, look.BookOf(0, 0), 0);
  }

  lemma OddStage(look: Look)
    requires LooksUp(ODD, ODD_BOOKS, look)
    ensures look.BookOf(0, 0) == 1 && look.books[1].dim == 3 && look.Partvals() == 1
  {
    hide Bit;
    assert Served(ODD, 0, look.partbooks[0]);
    assert ILog(1) == 1;
    assert [1][..0] == [];
    assert Pow2(0) == 1;
    FirstBit();
  }

  lemma FirstBit()
    ensures Bit(1, 0) == 1
  {
    assert Pow2(0) == 1;
  }
}
