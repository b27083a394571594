/** Residue coding: partition words, then the vectors of each partition stage by stage, read back
    through the same books in the same order (section 8.6 of the Vorbis I specification). */
module Residue {
  import opened BitMath
  import opened BitBuffer
  import opened Codebook
  import opened Phrases
  import opened Lattice
  import opened PartitionWords
  import CodeTree
  import BuildTables
  import PrefixMatch
  import DecodeTables

  /** What both ends look up. `partbooks[c][s]` is the book of class `c` in stage `s`, -1 for none. */
  datatype Look = Look(begin: nat, end: nat, grouping: nat, partitions: nat, groupbook: nat, wordDim: nat, stages: nat,
                       partbooks: seq<seq<int>>, books: seq<Book>)
  {
    /** What the decoder makes sure of, or takes for granted: books there are, and vectors for their entries. */
    ghost predicate Readable(shelf: Shelf)
    {
      && shelf.Valid() && |books| == |shelf.lens| && groupbook < |books|
      && grouping > 0 && partitions > 0 && wordDim > 0 && |partbooks| == partitions
      && forall c, s :: 0 <= c < |partbooks| && 0 <= s < |partbooks[c]| ==> BookReadable(shelf, partbooks[c][s])
    }

    ghost predicate BookReadable(shelf: Shelf, b: int)
      requires |books| == |shelf.lens|
    {
      -1 <= b < |books| && (b >= 0 ==> books[b].Decodable(|shelf.lens[b]|))
    }

    /** What the encoder relies on: its stage books are grids that it can search. */
    ghost predicate Valid(shelf: Shelf)
    {
      && shelf.Valid() && |books| == |shelf.lens| && groupbook < |books|
      && grouping > 0 && partitions > 0 && wordDim > 0 && begin <= end && |partbooks| == partitions
      && forall c, s :: 0 <= c < |partbooks| && 0 <= s < |partbooks[c]| ==> StageBookOk(shelf, partbooks[c][s])
    }

    ghost predicate StageBookOk(shelf: Shelf, b: int)
      requires |books| == |shelf.lens|
    {
      -1 <= b < |books| && (b >= 0 ==>
        && books[b].Centred() && Searchable(books[b])
        && books[b].lengthlist == shelf.lens[b] && exists i :: Used(books[b], i))
    }

    /** The vectors of every stage book fill a partition. */
    ghost predicate Tiled()
    {
      forall c, s :: 0 <= c < |partbooks| && 0 <= s < |partbooks[c]| && 0 <= partbooks[c][s] < |books| ==>
        Tiles(books[partbooks[c][s]], grouping)
    }

    /** Then the two ends keep in step, if the decoder has the values that the encoder works with. */
    ghost predicate InStep()
    {
      && Tiled()
      && forall c, s :: 0 <= c < |partbooks| && 0 <= s < |partbooks[c]| && 0 <= partbooks[c][s] < |books| ==>
           books[partbooks[c][s]].ListsGrid()
    }

    function BookOf(c: nat, s: nat): int
    {
      if c < |partbooks| && s < |partbooks[c]| then partbooks[c][s] else -1
    }

    function Partvals(): nat
      requires grouping > 0 && begin <= end
    {
      (end - begin) / grouping
    }

    function At(i: nat): nat
    {
      begin + i * grouping
    }
  }

  /** Vectors of this book fill `n` samples. */
  predicate Tiles(c: Book, n: nat)
  {
    c.dim > 0 && n % c.dim == 0
  }

  lemma BookGood(look: Look, shelf: Shelf, c: nat, s: nat)
    requires look.Valid(shelf)
    ensures look.StageBookOk(shelf, look.BookOf(c, s))
  {
  }

  // ---------------------------------------------------------------------------------------------
  // One partition
  // ---------------------------------------------------------------------------------------------

  /** A row of samples being coded: what is left of it, the entries so far, and whether every entry
      accounts for exactly what was taken off. */
  datatype Coded = Coded(row: seq<int>, entries: seq<nat>, exact: bool)

  function Splice(row: seq<int>, at: nat, part: seq<int>): (r: seq<int>)
    requires at + |part| <= |row|
    ensures |r| == |row|
  {
    row[..at] + part + row[at + |part|..]
  }

  /** Code the vector at `from`. */
  ghost function CodeVector(c: Book, was: Coded, from: nat): (r: Coded)
    requires c.Centred() && (exists i :: Used(c, i)) && from + c.dim <= |was.row|
    ensures |r.row| == |was.row| && |r.entries| == |was.entries| + 1
  {
    var v := was.row[from..from + c.dim];
    TakenIsVector(c, v);
    Coded(Splice(was.row, from, Minus(v, Taken(c, v))), was.entries + [Best(c, v)],
          was.exact && Taken(c, v) == c.Vector(Best(c, v)))
  }

  /** Code `m` vectors from `at` on. */
  ghost function CodeVectors(c: Book, row: seq<int>, at: nat, m: nat): (r: Coded)
    requires c.Centred() && (exists i :: Used(c, i)) && at + m * c.dim <= |row|
    ensures |r.row| == |row| && |r.entries| == m
    decreases m
  {
    if m == 0 then Coded(row, [], true)
    else
      BeforeLast(m, c.dim);
      CodeVector(c, CodeVectors(c, row, at, m - 1), at + (m - 1) * c.dim)
  }

  lemma BeforeLast(m: nat, d: nat)
    requires m > 0
    ensures 0 <= (m - 1) * d && (m - 1) * d + d == m * d
  {
  }

  /** The steps both coders go through, in their order. */
  datatype Slot = Word(i: nat, j: nat) | Part(s: nat, i: nat, j: nat)

  /** The classes in the word that starts at partition `i`. */
  function WordDigits(classes: seq<nat>, i: nat, dim: nat): (ds: seq<nat>)
    ensures |ds| == dim
  {
    seq(dim, k requires 0 <= k < dim => if i + k < |classes| then classes[i + k] else 0)
  }

  datatype Run = Run(rows: seq<seq<int>>, tokens: seq<Token>, exact: bool)

  ghost predicate Classed(look: Look, partword: seq<seq<nat>>, ch: nat)
    requires look.grouping > 0 && look.begin <= look.end
  {
    && |partword| == ch
    && forall j :: 0 <= j < ch ==> |partword[j]| == look.Partvals() && DigitsBelow(look.partitions, partword[j])
  }

  ghost predicate SlotOk(look: Look, partword: seq<seq<nat>>, slot: Slot)
    requires look.grouping > 0 && look.begin <= look.end
  {
    slot.j < |partword| && slot.i < look.Partvals()
  }

  ghost predicate Rows(look: Look, ch: nat, rows: seq<seq<int>>)
  {
    |rows| == ch && forall j :: 0 <= j < ch ==> look.end <= |rows[j]|
  }

  lemma PartitionFits(look: Look, i: nat)
    requires look.grouping > 0 && look.begin <= look.end && i < look.Partvals()
    ensures look.At(i) + look.grouping <= look.end
  {
    DivMod(look.end - look.begin, look.grouping);
    MulStep(i, look.Partvals(), look.grouping);
  }

  /** How many vectors of length `dim` the encoder writes for `n` samples: as many as there are in them. */
  function Fill(n: nat, dim: nat): nat
    requires dim > 0
  {
    n / dim
  }

  /** How many the decoder reads for them: it goes on until it has passed the last sample. */
  function Reads(n: nat, dim: nat): nat
    requires dim > 0
  {
    (n + dim - 1) / dim
  }

  /** How many samples those are. */
  function Span(n: nat, dim: nat): nat
    requires dim > 0
  {
    Reads(n, dim) * dim
  }

  lemma FillFits(n: nat, dim: nat)
    requires dim > 0
    ensures Fill(n, dim) * dim <= n
  {
    DivMod(n, dim);
  }

  /** The decoder reads the vectors that were written, and stays inside the partition, exactly when their length
      divides that of the partition. Otherwise it reads one more, which ends outside. */
  lemma ReadsIsFill(n: nat, dim: nat)
    requires dim > 0
    ensures Fill(n, dim) == Reads(n, dim) <==> n % dim == 0
    ensures Span(n, dim) <= n <==> n % dim == 0
    ensures n <= Span(n, dim) < n + dim && Fill(n, dim) <= Reads(n, dim) <= Fill(n, dim) + 1
  {
    var q, r := n / dim, n % dim;
    DivMod(n, dim);
    if r == 0 {
      DivModUnique(n + dim - 1, q, dim, dim - 1);
    } else {
      assert n + dim - 1 == (q + 1) * dim + (r - 1);
      DivModUnique(n + dim - 1, q + 1, dim, r - 1);
    }
  }

  /** Where the decoder stops. */
  lemma ReadsEnough(n: nat, dim: nat, m: nat)
    requires dim > 0
    ensures m * dim < n <==> m < Reads(n, dim)
  {
    DivMod(n + dim - 1, dim);
    if m < Reads(n, dim) {
      MulStep(m, Reads(n, dim), dim);
    } else {
      MulMonotone(Reads(n, dim), m, dim);
    }
  }

  /** A block to be coded: its classes and its samples, channel by channel. */
  ghost predicate Job(look: Look, shelf: Shelf, partword: seq<seq<nat>>, rows: seq<seq<int>>)
  {
    look.Valid(shelf) && Classed(look, partword, |partword|) && Rows(look, |partword|, rows)
  }

  /** One step of the encoder. */
  ghost function RunStep(look: Look, shelf: Shelf, partword: seq<seq<nat>>, run: Run, slot: Slot): (r: Run)
    requires Job(look, shelf, partword, run.rows) && SlotOk(look, partword, slot)
    ensures Job(look, shelf, partword, r.rows) && run.tokens <= r.tokens && (r.exact ==> run.exact)
  {
    match slot
    case Word(i, j) =>
      Run(run.rows,
          run.tokens + [Token(look.groupbook, Horner(look.partitions, WordDigits(partword[j], i, look.wordDim)))],
          run.exact)
    case Part(s, i, j) =>
      var b := look.BookOf(partword[j][i], s);
      BookGood(look, shelf, partword[j][i], s);
      if b < 0 then run
      else
        StageFacts(look, shelf, b);
        PartitionFits(look, i);
        PartStep(look.books[b], b, run, j, look.At(i), Fill(look.grouping, look.books[b].dim))
  }

  /** Code `m` vectors of row `j` from `at` on, with book `b`. */
  ghost function PartStep(c: Book, b: nat, run: Run, j: nat, at: nat, m: nat): (r: Run)
    requires c.Centred() && (exists k :: Used(c, k)) && j < |run.rows| && at + m * c.dim <= |run.rows[j]|
    ensures |r.rows| == |run.rows| && forall k :: 0 <= k < |r.rows| ==> |r.rows[k]| == |run.rows[k]|
    ensures run.tokens <= r.tokens && (r.exact ==> run.exact)
  {
    var done := CodeVectors(c, run.rows[j], at, m);
    Run(run.rows[j := done.row], run.tokens + VectorTokens(b, done.entries), run.exact && done.exact)
  }

  function VectorTokens(b: nat, entries: seq<nat>): (ts: seq<Token>)
    ensures |ts| == |entries|
  {
    seq(|entries|, k requires 0 <= k < |entries| => Token(b, entries[k]))
  }

  ghost predicate SlotsOk(look: Look, partword: seq<seq<nat>>, slots: seq<Slot>)
    requires look.grouping > 0 && look.begin <= look.end
  {
    forall n :: 0 <= n < |slots| ==> SlotOk(look, partword, slots[n])
  }

  /** The encoder's state after a list of steps. */
  ghost function RunOf(look: Look, shelf: Shelf, partword: seq<seq<nat>>, rows: seq<seq<int>>,
                       slots: seq<Slot>): (r: Run)
    requires Job(look, shelf, partword, rows) && SlotsOk(look, partword, slots)
    ensures Job(look, shelf, partword, r.rows)
  {
    if slots == [] then Run(rows, [], true)
    else RunStep(look, shelf, partword, RunOf(look, shelf, partword, rows, slots[..|slots| - 1]), slots[|slots| - 1])
  }

  lemma RunMore(look: Look, shelf: Shelf, partword: seq<seq<nat>>, rows: seq<seq<int>>, slots: seq<Slot>, slot: Slot)
    requires Job(look, shelf, partword, rows)
    requires SlotsOk(look, partword, slots) && SlotOk(look, partword, slot)
    ensures SlotsOk(look, partword, slots + [slot])
    ensures RunOf(look, shelf, partword, rows, slots + [slot])
         == RunStep(look, shelf, partword, RunOf(look, shelf, partword, rows, slots), slot)
  {
    hide RunStep, Job, SlotOk;
    assert (slots + [slot])[..|slots|] == slots;
  }

  /** Later steps only add tokens, and never make up for an inexact one. */
  lemma {:induction false} RunPrefix(look: Look, shelf: Shelf, partword: seq<seq<nat>>, rows: seq<seq<int>>,
                                     slots: seq<Slot>, n: nat)
    requires Job(look, shelf, partword, rows)
    requires SlotsOk(look, partword, slots) && n <= |slots|
    ensures SlotsOk(look, partword, slots[..n])
    ensures var a, b := RunOf(look, shelf, partword, rows, slots[..n]), RunOf(look, shelf, partword, rows, slots);
      a.tokens <= b.tokens && (b.exact ==> a.exact)
  {
    hide RunStep, Job, SlotOk;
    if n == |slots| {
      assert slots[..n] == slots;
    } else {
      var front := slots[..|slots| - 1];
      assert front[..n] == slots[..n];
      RunPrefix(look, shelf, partword, rows, front, n);
    }
  }

  // ---------------------------------------------------------------------------------------------
  // The order of steps
  // ---------------------------------------------------------------------------------------------

  /** The words of channels 0 to `j - 1` at partition `i`. */
  function WordSlots(i: nat, j: nat): seq<Slot>
  {
    if j == 0 then [] else WordSlots(i, j - 1) + [Word(i, j - 1)]
  }

  function PartSlots(s: nat, i: nat, j: nat): seq<Slot>
  {
    if j == 0 then [] else PartSlots(s, i, j - 1) + [Part(s, i, j - 1)]
  }

  /** Partitions `from` to `i - 1`, all channels of one before the next. */
  function GroupSlots(s: nat, from: nat, i: nat, ch: nat): seq<Slot>
    requires from <= i
    decreases i
  {
    if i == from then [] else GroupSlots(s, from, i - 1, ch) + PartSlots(s, i - 1, ch)
  }

  /** Where word `l` starts. */
  function WordStart(l: nat, dim: nat, partvals: nat): (i: nat)
    ensures i <= partvals
  {
    if l * dim < partvals then l * dim else partvals
  }

  lemma WordStartUp(l: nat, dim: nat, partvals: nat)
    ensures WordStart(l, dim, partvals) <= WordStart(l + 1, dim, partvals) <= WordStart(l, dim, partvals) + dim
    ensures WordStart(0, dim, partvals) == 0
  {
    assert (l + 1) * dim == l * dim + dim;
  }

  function WordAndGroup(s: nat, from: nat, to: nat, ch: nat): seq<Slot>
    requires from <= to
  {
    (if s == 0 then WordSlots(from, ch) else []) + GroupSlots(s, from, to, ch)
  }

  /** Stage `s` up to word `l`: in the first stage each word is followed by its partitions. */
  function StageSlots(s: nat, l: nat, dim: nat, partvals: nat, ch: nat): seq<Slot>
    decreases l
  {
    if l == 0 then []
    else
      WordStartUp(l - 1, dim, partvals);
      var from, to := WordStart(l - 1, dim, partvals), WordStart(l, dim, partvals);
      StageSlots(s, l - 1, dim, partvals, ch) + WordAndGroup(s, from, to, ch)
  }

  function Words(dim: nat, partvals: nat): nat
    requires dim > 0
  {
    (partvals + dim - 1) / dim
  }

  function AllSlots(s: nat, dim: nat, partvals: nat, ch: nat): seq<Slot>
    requires dim > 0
    decreases s
  {
    if s == 0 then []
    else AllSlots(s - 1, dim, partvals, ch) + StageSlots(s - 1, Words(dim, partvals), dim, partvals, ch)
  }

  // ---------------------------------------------------------------------------------------------
  // Encoding
  // ---------------------------------------------------------------------------------------------

  ghost predicate Distinct(vecs: seq<array<int>>)
  {
    forall i, j :: 0 <= i < j < |vecs| ==> vecs[i] != vecs[j]
  }

  ghost predicate Holds(vecs: seq<array<int>>, rows: seq<seq<int>>)
    reads vecs
  {
    |vecs| == |rows| && forall j :: 0 <= j < |vecs| ==> vecs[j][..] == rows[j]
  }

  lemma EntryFound(look: Look, shelf: Shelf, b: nat, v: seq<int>)
    requires |look.books| == |shelf.lens| && b < |look.books| && look.StageBookOk(shelf, b) && |v| == look.books[b].dim
    ensures 0 <= Best(look.books[b], v)
  {
    TakenIsVector(look.books[b], v);
  }

  lemma StageFacts(look: Look, shelf: Shelf, b: nat)
    requires |look.books| == |shelf.lens| && b < |look.books| && look.StageBookOk(shelf, b)
    ensures var c := look.books[b];
      c.Centred() && c.dim > 0 && Searchable(c) && (exists i :: Used(c, i))
      && Fill(look.grouping, c.dim) * c.dim <= look.grouping
  {
    FillFits(look.grouping, look.books[b].dim);
  }

  /** Code one vector. */
  method EncodeVector(look: Look, b: nat, vec: array<int>, from: nat, books: seq<EncodeBook>, opb: OggPackBuffer,
                      ghost was: Coded, ghost shelf: Shelf, ghost said: seq<Token>, ghost start: seq<bool>)
    requires |look.books| == |shelf.lens| && b < |look.books| && look.StageBookOk(shelf, b)
    requires shelf.Valid() && Encoders(books, shelf) && from + look.books[b].dim <= vec.Length && vec[..] == was.row
    requires look.books[b].Centred() && exists i :: Used(look.books[b], i)
    requires Gone(shelf, said + VectorTokens(b, was.entries), opb.bits, start)
    modifies opb, vec
    ensures Encoders(books, shelf) && opb.pos == old(opb.pos)
    ensures var done := CodeVector(look.books[b], was, from);
      vec[..] == done.row && Gone(shelf, said + VectorTokens(b, done.entries), opb.bits, start)
  {
    hide Encoders, Gone, Shelf.Valid, Book.Centred, Power, Best, Taken, Minus, Look.StageBookOk, Searchable;
    hide DirectEntry, Used;
    var c := look.books[b];
    StageFacts(look, shelf, b);
    ghost var v, done := vec[from..from + c.dim], said + VectorTokens(b, was.entries);
    NoSearchIfFull(c, v);
    EntryFound(look, shelf, b, v);
    var entry := BestError(c, vec, from);
    assert said + VectorTokens(b, was.entries + [entry]) == done + [Token(b, entry)];
    Put(books, shelf, b, entry, opb, done, start);
    assert CodeVector(c, was, from).entries == was.entries + [entry];
    assert CodeVector(c, was, from).row == vec[..];
  }

  lemma CodeLast(c: Book, row: seq<int>, at: nat, m: nat)
    requires c.Centred() && (exists i :: Used(c, i)) && m > 0 && at + m * c.dim <= |row|
    ensures 0 <= (m - 1) * c.dim && (m - 1) * c.dim + c.dim == m * c.dim
    ensures CodeVectors(c, row, at, m)
         == CodeVector(c, CodeVectors(c, row, at, m - 1), at + (m - 1) * c.dim)
  {
    hide Book.Centred, CodeVector;
    BeforeLast(m, c.dim);
  }

  /** Code the vectors of one partition. */
  method EncodePart(look: Look, b: nat, vec: array<int>, at: nat, books: seq<EncodeBook>, opb: OggPackBuffer,
                    ghost shelf: Shelf, ghost said: seq<Token>, ghost start: seq<bool>)
    requires |look.books| == |shelf.lens| && b < |look.books| && look.StageBookOk(shelf, b)
    requires shelf.Valid() && Encoders(books, shelf) && at + look.grouping <= vec.Length
    requires Gone(shelf, said, opb.bits, start)
    modifies opb, vec
    ensures Encoders(books, shelf) && opb.pos == old(opb.pos) && look.books[b].dim > 0
    ensures look.books[b].Centred() && (exists i :: Used(look.books[b], i))
    ensures at + Fill(look.grouping, look.books[b].dim) * look.books[b].dim <= vec.Length
    ensures var done := CodeVectors(look.books[b], old(vec[..]), at, Fill(look.grouping, look.books[b].dim));
      vec[..] == done.row && Gone(shelf, said + VectorTokens(b, done.entries), opb.bits, start)
  {
    hide Encoders, Gone, Shelf.Valid, Book.Centred, Power, Look.StageBookOk, CodeVector, CodeVectors;
    ghost var row := vec[..];
    var c := look.books[b];
    StageFacts(look, shelf, b);
    var step := Fill(look.grouping, c.dim);
    NoVectors(c, row, at);
    assert said + VectorTokens(b, []) == said;
    var i := 0;
    while i < step
      invariant 0 <= i <= step && Encoders(books, shelf) && opb.pos == old(opb.pos) && i * c.dim <= look.grouping
      invariant vec[..] == CodeVectors(c, row, at, i).row
      invariant Gone(shelf, said + VectorTokens(b, CodeVectors(c, row, at, i).entries), opb.bits, start)
    {
      BeforeLast(i + 1, c.dim);
      MulMonotone(i + 1, step, c.dim);
      CodeLast(c, row, at, i + 1);
      EncodeVector(look, b, vec, at + i * c.dim, books, opb, CodeVectors(c, row, at, i), shelf, said, start);
      i := i + 1;
    }
  }

  /** The encoder has done `slots`: what is left in the vectors and what was written. */
  ghost predicate Encoding(look: Look, shelf: Shelf, partword: seq<seq<nat>>, rows: seq<seq<int>>, slots: seq<Slot>,
                           vecs: seq<array<int>>, opb: OggPackBuffer, start: seq<bool>)
    reads vecs, opb
  {
    && Job(look, shelf, partword, rows) && SlotsOk(look, partword, slots)
    && var run := RunOf(look, shelf, partword, rows, slots);
    && Holds(vecs, run.rows) && Gone(shelf, run.tokens, opb.bits, start)
  }

  /** The classes at partition `i` as a word, in the loop's own steps. */
  method MakeWord(look: Look, classes: seq<nat>, i: nat) returns (val: nat)
    requires look.wordDim > 0 && i < |classes|
    ensures val == Horner(look.partitions, WordDigits(classes, i, look.wordDim))
    ensures look.partitions > 0 && DigitsBelow(look.partitions, classes) ==>
      forall k :: 0 <= k < look.wordDim ==>
        DigitAt(look.partitions, look.wordDim, val, k) == if i + k < |classes| then classes[i + k] else 0
  {
    hide DigitAt;
    ghost var ds := WordDigits(classes, i, look.wordDim);
    val := classes[i];
    assert ds[..1] == [] + [classes[i]] && ds[..1][..0] == [];
    var k := 1;
    while k < look.wordDim
      invariant 1 <= k <= look.wordDim && val == Horner(look.partitions, ds[..k])
    {
      assert ds[..k + 1][..k] == ds[..k];
      val := val * look.partitions;
      if i + k < |classes| {
        val := val + classes[i + k];
      }
      k := k + 1;
    }
    assert ds[..k] == ds;
    if look.partitions > 0 && DigitsBelow(look.partitions, classes) {
      forall k | 0 <= k < look.wordDim
        ensures DigitAt(look.partitions, look.wordDim, val, k) == if i + k < |classes| then classes[i + k] else 0
      {
        ClassInWord(look.partitions, classes, i, look.wordDim, k);
      }
    }
  }

  /** Digit `k` of a word, the highest first, is the class of partition `i + k`, and 0 beyond the last. */
  lemma ClassInWord(p: nat, classes: seq<nat>, i: nat, dim: nat, k: nat)
    requires p > 0 && DigitsBelow(p, classes) && k < dim
    ensures DigitsBelow(p, WordDigits(classes, i, dim)) && Power(p, dim - 1 - k) > 0
    ensures Horner(p, WordDigits(classes, i, dim)) / Power(p, dim - 1 - k) % p
         == DigitAt(p, dim, Horner(p, WordDigits(classes, i, dim)), k)
         == if i + k < |classes| then classes[i + k] else 0
  {
    hide Horner;
    HornerDigit(p, WordDigits(classes, i, dim), k);
  }

  method PutWord(look: Look, i: nat, j: nat, vecs: seq<array<int>>, books: seq<EncodeBook>, opb: OggPackBuffer,
                 partword: seq<seq<nat>>,
                 ghost shelf: Shelf, ghost rows: seq<seq<int>>, ghost slots: seq<Slot>, ghost start: seq<bool>)
    requires Encoders(books, shelf) && Encoding(look, shelf, partword, rows, slots, vecs, opb, start)
    requires look.grouping > 0 && look.begin <= look.end
    requires j < |partword| && i < look.Partvals() == |partword[j]| && look.wordDim > 0
    modifies opb
    ensures Encoders(books, shelf) && opb.pos == old(opb.pos)
    ensures Encoding(look, shelf, partword, rows, slots + [Word(i, j)], vecs, opb, start)
  {
    hide Encoders, Gone, RunOf, Holds, Look.StageBookOk;
    RunMore(look, shelf, partword, rows, slots, Word(i, j));
    var val := MakeWord(look, partword[j], i);
    Put(books, shelf, look.groupbook, val, opb, RunOf(look, shelf, partword, rows, slots).tokens, start);
  }

  method PutPart(look: Look, s: nat, i: nat, j: nat, vecs: seq<array<int>>, books: seq<EncodeBook>, opb: OggPackBuffer,
                 partword: seq<seq<nat>>, ghost shelf: Shelf, ghost rows: seq<seq<int>>, ghost slots: seq<Slot>,
                 ghost start: seq<bool>)
    requires Encoders(books, shelf) && Encoding(look, shelf, partword, rows, slots, vecs, opb, start) && Distinct(vecs)
    requires look.grouping > 0 && look.begin <= look.end && j < |partword| && i < look.Partvals() == |partword[j]|
    modifies opb, vecs
    ensures Encoders(books, shelf) && opb.pos == old(opb.pos)
    ensures Encoding(look, shelf, partword, rows, slots + [Part(s, i, j)], vecs, opb, start)
  {
    hide Encoders, Gone, RunOf, CodeVectors, Look.StageBookOk;
    RunMore(look, shelf, partword, rows, slots, Part(s, i, j));
    ghost var run := RunOf(look, shelf, partword, rows, slots);
    var b := look.BookOf(partword[j][i], s);
    BookGood(look, shelf, partword[j][i], s);
    if b >= 0 {
      PartitionFits(look, i);
      EncodePart(look, b, vecs[j], look.At(i), books, opb, shelf, run.tokens, start);
    }
  }

  /** The words of all channels at partition `i`. */
  method PutWords(look: Look, i: nat, vecs: seq<array<int>>, books: seq<EncodeBook>, opb: OggPackBuffer,
                  partword: seq<seq<nat>>,
                  ghost shelf: Shelf, ghost rows: seq<seq<int>>, ghost slots: seq<Slot>, ghost start: seq<bool>)
    requires Encoders(books, shelf) && Encoding(look, shelf, partword, rows, slots, vecs, opb, start)
    requires look.grouping > 0 && look.begin <= look.end
    requires i < look.Partvals() && look.wordDim > 0
    requires forall j :: 0 <= j < |partword| ==> |partword[j]| == look.Partvals()
    modifies opb
    ensures Encoders(books, shelf) && opb.pos == old(opb.pos)
    ensures Encoding(look, shelf, partword, rows, slots + WordSlots(i, |partword|), vecs, opb, start)
  {
    hide Encoders, Encoding, Look.Partvals;
    assert slots + [] == slots;
    var j := 0;
    while j < |partword|
      invariant 0 <= j <= |partword| && Encoders(books, shelf) && opb.pos == old(opb.pos)
      invariant Encoding(look, shelf, partword, rows, slots + WordSlots(i, j), vecs, opb, start)
    {
      PutWord(look, i, j, vecs, books, opb, partword, shelf, rows, slots + WordSlots(i, j), start);
      assert (slots + WordSlots(i, j)) + [Word(i, j)] == slots + WordSlots(i, j + 1);
      j := j + 1;
    }
  }

  /** Partitions `from` to `to - 1`, all channels of one before the next. */
  method PutGroup(look: Look, s: nat, from: nat, to: nat, vecs: seq<array<int>>, books: seq<EncodeBook>,
                  opb: OggPackBuffer,
                  partword: seq<seq<nat>>, ghost shelf: Shelf, ghost rows: seq<seq<int>>, ghost slots: seq<Slot>,
                  ghost start: seq<bool>)
    requires Encoders(books, shelf) && Encoding(look, shelf, partword, rows, slots, vecs, opb, start) && Distinct(vecs)
    requires look.grouping > 0 && look.begin <= look.end && from <= to <= look.Partvals()
    requires forall j :: 0 <= j < |partword| ==> |partword[j]| == look.Partvals()
    modifies opb, vecs
    ensures Encoders(books, shelf) && opb.pos == old(opb.pos)
    ensures Encoding(look, shelf, partword, rows, slots + GroupSlots(s, from, to, |partword|), vecs, opb, start)
  {
    hide Encoders, Encoding, Distinct, Look.Partvals;
    assert slots + [] == slots;
    var ch := |partword|;
    var i := from;
    while i < to
      invariant from <= i <= to && Encoders(books, shelf) && opb.pos == old(opb.pos)
      invariant Encoding(look, shelf, partword, rows, slots + GroupSlots(s, from, i, ch), vecs, opb, start)
    {
      ghost var before := slots + GroupSlots(s, from, i, ch);
      assert before + [] == before;
      var j := 0;
      while j < ch
        invariant 0 <= j <= ch && Encoders(books, shelf) && opb.pos == old(opb.pos)
        invariant Encoding(look, shelf, partword, rows, before + PartSlots(s, i, j), vecs, opb, start)
      {
        PutPart(look, s, i, j, vecs, books, opb, partword, shelf, rows, before + PartSlots(s, i, j), start);
        assert (before + PartSlots(s, i, j)) + [Part(s, i, j)] == before + PartSlots(s, i, j + 1);
        j := j + 1;
      }
      assert before + PartSlots(s, i, ch) == slots + GroupSlots(s, from, i + 1, ch);
      i := i + 1;
    }
  }

  lemma WordsCover(dim: nat, partvals: nat)
    requires dim > 0
    ensures WordStart(Words(dim, partvals), dim, partvals) == partvals
    ensures forall l: nat :: l < Words(dim, partvals) ==> WordStart(l, dim, partvals) == l * dim < partvals
  {
    var n := Words(dim, partvals);
    DivMod(partvals + dim - 1, dim);
    forall l: nat | l < n
      ensures WordStart(l, dim, partvals) == l * dim < partvals
    {
      MulStep(l, n, dim);
    }
  }

  /** One stage: in the first, each word of partitions is preceded by its phrase words. */
  method PutStage(look: Look, s: nat, vecs: seq<array<int>>, books: seq<EncodeBook>, opb: OggPackBuffer,
                  partword: seq<seq<nat>>, ghost shelf: Shelf, ghost rows: seq<seq<int>>, ghost slots: seq<Slot>,
                  ghost start: seq<bool>)
    requires Encoders(books, shelf) && Encoding(look, shelf, partword, rows, slots, vecs, opb, start) && Distinct(vecs)
    requires look.grouping > 0 && look.begin <= look.end && look.wordDim > 0
    requires forall j :: 0 <= j < |partword| ==> |partword[j]| == look.Partvals()
    modifies opb, vecs
    ensures Encoders(books, shelf) && opb.pos == old(opb.pos)
    ensures Encoding(look, shelf, partword, rows,
                     slots + StageSlots(s, Words(look.wordDim, look.Partvals()), look.wordDim, look.Partvals(),
                                        |partword|), vecs, opb, start)
  {
    hide Encoders, Encoding, Distinct, Look.Partvals, WordStart, Words, StageSlots;
    var partvals, dim, ch := look.Partvals(), look.wordDim, |partword|;
    NoWordsYet(slots, s, dim, partvals, ch);
    WordsCover(dim, partvals);
    WordStartUp(0, dim, partvals);
    var i := 0;
    ghost var l := 0;
    while i < partvals
      invariant 0 <= l <= Words(dim, partvals) && i == WordStart(l, dim, partvals) <= partvals
      invariant Encoders(books, shelf) && opb.pos == old(opb.pos)
      invariant Encoding(look, shelf, partword, rows, slots + StageSlots(s, l, dim, partvals, ch), vecs, opb, start)
      decreases partvals - i
    {
      WordBegins(l, dim, partvals);
      var to := if i + dim < partvals then i + dim else partvals;
      PutWordAndGroup(look, s, i, to, vecs, books, opb, partword, shelf, rows,
                      slots + StageSlots(s, l, dim, partvals, ch), start);
      NextWord(slots, s, l, dim, partvals, ch);
      i, l := to, l + 1;
    }
    AllWords(l, dim, partvals);
  }

  lemma AllWords(l: nat, dim: nat, partvals: nat)
    requires dim > 0 && l <= Words(dim, partvals) && WordStart(l, dim, partvals) == partvals
    ensures l == Words(dim, partvals)
  {
    WordsCover(dim, partvals);
  }

  /** One turn of the stage's loop. */
  method PutWordAndGroup(look: Look, s: nat, i: nat, to: nat, vecs: seq<array<int>>, books: seq<EncodeBook>,
                         opb: OggPackBuffer,
                         partword: seq<seq<nat>>, ghost shelf: Shelf, ghost rows: seq<seq<int>>,
                         ghost slots: seq<Slot>, ghost start: seq<bool>)
    requires Encoders(books, shelf) && Encoding(look, shelf, partword, rows, slots, vecs, opb, start) && Distinct(vecs)
    requires look.grouping > 0 && look.begin <= look.end && look.wordDim > 0
    requires i < to <= look.Partvals() && forall j :: 0 <= j < |partword| ==> |partword[j]| == look.Partvals()
    modifies opb, vecs
    ensures Encoders(books, shelf) && opb.pos == old(opb.pos)
    ensures Encoding(look, shelf, partword, rows, slots + WordAndGroup(s, i, to, |partword|), vecs, opb, start)
  {
    hide Encoders, Encoding, Distinct, Look.Partvals;
    assert slots + [] == slots;
    ghost var words := if s == 0 then WordSlots(i, |partword|) else [];
    if s == 0 {
      PutWords(look, i, vecs, books, opb, partword, shelf, rows, slots, start);
    }
    PutGroup(look, s, i, to, vecs, books, opb, partword, shelf, rows, slots + words, start);
    assert (slots + words) + GroupSlots(s, i, to, |partword|) == slots + WordAndGroup(s, i, to, |partword|);
  }

  lemma NoWordsYet(slots: seq<Slot>, s: nat, dim: nat, partvals: nat, ch: nat)
    ensures slots + StageSlots(s, 0, dim, partvals, ch) == slots
  {
  }

  lemma NextWord(slots: seq<Slot>, s: nat, l: nat, dim: nat, partvals: nat, ch: nat)
    ensures WordStart(l, dim, partvals) <= WordStart(l + 1, dim, partvals)
    ensures (slots + StageSlots(s, l, dim, partvals, ch))
        + WordAndGroup(s, WordStart(l, dim, partvals), WordStart(l + 1, dim, partvals), ch)
         == slots + StageSlots(s, l + 1, dim, partvals, ch)
  {
    hide WordStart, WordSlots, GroupSlots;
    WordStartUp(l, dim, partvals);
  }

  /** A word that starts before the end is one of the words, and the next one starts `dim` on or at the end. */
  lemma WordBegins(l: nat, dim: nat, partvals: nat)
    requires dim > 0 && (WordStart(l, dim, partvals) < partvals || l < Words(dim, partvals))
    ensures var i := WordStart(l, dim, partvals);
      && l < Words(dim, partvals) && i == l * dim < partvals
      && WordStart(l + 1, dim, partvals) == if i + dim < partvals then i + dim else partvals
  {
    WordsCover(dim, partvals);
    assert (l + 1) * dim == l * dim + dim;
    if l >= Words(dim, partvals) {
      MulMonotone(Words(dim, partvals), l, dim);
    }
  }

  /** Code the residue of a block. The vectors keep what no stage accounted for. */
  method Forward(look: Look, vecs: seq<array<int>>, books: seq<EncodeBook>, opb: OggPackBuffer, partword: seq<seq<nat>>,
                 ghost shelf: Shelf)
    returns (ghost rows: seq<seq<int>>)
    requires Encoders(books, shelf) && Distinct(vecs) && |vecs| == |partword|
    requires look.Valid(shelf) && Classed(look, partword, |partword|)
    requires forall j :: 0 <= j < |vecs| ==> look.end <= vecs[j].Length
    modifies opb, vecs
    ensures old(Holds(vecs, rows)) && Job(look, shelf, partword, rows)
    ensures Encoders(books, shelf) && opb.pos == old(opb.pos)
    ensures Encoding(look, shelf, partword, rows, AllSlots(look.stages, look.wordDim, look.Partvals(), |partword|),
                     vecs, opb, old(opb.bits))
  {
    hide Encoders, Encoding, Distinct, StageSlots, Words, Look.Partvals;
    rows := seq(|vecs|, j requires 0 <= j < |vecs| reads vecs => vecs[j][..]);
    ghost var start := opb.bits;
    StartEncoding(look, shelf, partword, rows, vecs, opb, start);
    var s := 0;
    while s < look.stages
      invariant 0 <= s <= look.stages && Encoders(books, shelf) && opb.pos == old(opb.pos)
      invariant Encoding(look, shelf, partword, rows, AllSlots(s, look.wordDim, look.Partvals(), |partword|), vecs,
                         opb, start)
    {
      PutStage(look, s, vecs, books, opb, partword, shelf, rows, AllSlots(s, look.wordDim, look.Partvals(), |partword|),
               start);
      s := s + 1;
    }
  }

  lemma StartEncoding(look: Look, shelf: Shelf, partword: seq<seq<nat>>, rows: seq<seq<int>>, vecs: seq<array<int>>,
                      opb: OggPackBuffer, start: seq<bool>)
    requires Job(look, shelf, partword, rows) && Holds(vecs, rows) && opb.bits == start
    ensures Encoding(look, shelf, partword, rows, [], vecs, opb, start)
  {
    NothingGone(shelf, start);
  }

  // ---------------------------------------------------------------------------------------------
  // Decoding
  // ---------------------------------------------------------------------------------------------

  /** What was added on one side is what was taken off on the other. */
  ghost predicate Balanced(acc: seq<int>, row: seq<int>, acc0: seq<int>, row0: seq<int>)
  {
    && |acc| == |row| == |acc0| == |row0|
    && forall t :: 0 <= t < |acc| ==> acc[t] + row[t] == acc0[t] + row0[t]
  }

  ghost predicate AllBalanced(vals: seq<seq<int>>, rows: seq<seq<int>>, vals0: seq<seq<int>>, rows0: seq<seq<int>>)
  {
    && |vals| == |rows| == |vals0| == |rows0|
    && forall j :: 0 <= j < |vals| ==> Balanced(vals[j], rows[j], vals0[j], rows0[j])
  }

  /** `row` with `t` added in from `from` on. */
  function Plus(row: seq<int>, from: nat, t: seq<int>): (r: seq<int>)
    requires from + |t| <= |row|
    ensures |r| == |row|
  {
    seq(|row|, k requires 0 <= k < |row| => row[k] + if from <= k < from + |t| then t[k - from] else 0)
  }

  /** `row` with the vectors of the entries `es` added in one after the other, from `at` on. */
  ghost function Added(c: Book, row: seq<int>, at: nat, es: seq<nat>): (r: seq<int>)
    requires c.Decodable(|c.valuelist|) && DigitsBelow(|c.valuelist|, es) && at + |es| * c.dim <= |row|
    ensures |r| == |row|
  {
    if es == [] then row
    else
      var m := |es| - 1;
      BeforeLast(|es|, c.dim);
      Plus(Added(c, row, at, es[..m]), at + m * c.dim, c.valuelist[es[m]])
  }

  lemma AddedNext(c: Book, row: seq<int>, at: nat, es: seq<nat>, e: nat)
    requires c.Decodable(|c.valuelist|) && DigitsBelow(|c.valuelist|, es) && e < |c.valuelist|
    requires at + |es| * c.dim + c.dim <= |row|
    ensures DigitsBelow(|c.valuelist|, es + [e]) && |es + [e]| * c.dim == |es| * c.dim + c.dim
    ensures Added(c, row, at, es + [e]) == Plus(Added(c, row, at, es), at + |es| * c.dim, c.valuelist[e])
  {
    BeforeLast(|es| + 1, c.dim);
    assert (es + [e])[..|es|] == es;
  }

  /** Nothing is added outside. */
  lemma {:induction false} AddedElsewhere(c: Book, row: seq<int>, at: nat, es: seq<nat>, t: nat)
    requires c.Decodable(|c.valuelist|) && DigitsBelow(|c.valuelist|, es) && at + |es| * c.dim <= |row| && t < |row|
    requires t < at || at + |es| * c.dim <= t
    ensures Added(c, row, at, es)[t] == row[t]
  {
    if es != [] {
      BeforeLast(|es|, c.dim);
      AddedElsewhere(c, row, at, es[..|es| - 1], t);
    }
  }

  lemma AddBack(acc: seq<int>, row: seq<int>, acc0: seq<int>, row0: seq<int>, from: nat, p: seq<int>)
    requires Balanced(acc, row, acc0, row0) && from + |p| <= |acc|
    ensures Balanced(Plus(acc, from, p), Splice(row, from, Minus(row[from..from + |p|], p)), acc0, row0)
  {
    var row' := Splice(row, from, Minus(row[from..from + |p|], p));
    forall t | 0 <= t < |acc|
      ensures Plus(acc, from, p)[t] + row'[t] == acc0[t] + row0[t]
    {
      assert acc[t] + row[t] == acc0[t] + row0[t];
    }
  }

  /** Adding in the vectors of exact entries gives back what was taken off. */
  lemma {:induction false} AddedBalances(c: Book, row: seq<int>, at: nat, m: nat, acc: seq<int>, acc0: seq<int>,
                                         row0: seq<int>)
    requires c.Centred() && (exists i :: Used(c, i)) && at + m * c.dim <= |row| && Balanced(acc, row, acc0, row0)
    requires c.Decodable(|c.lengthlist|) && c.ListsGrid() && CodeVectors(c, row, at, m).exact
    ensures var es := CodeVectors(c, row, at, m).entries;
      && DigitsBelow(|c.valuelist|, es) && at + |es| * c.dim <= |acc|
      && Balanced(Added(c, acc, at, es), CodeVectors(c, row, at, m).row, acc0, row0)
    decreases m
  {
    hide Book.Centred, CodeVector, CodeVectors, Balanced, Plus, Book.Vector;
    SameLength(acc, row, acc0, row0);
    if m == 0 {
      NoVectors(c, row, at);
    } else {
      CodeLast(c, row, at, m);
      var was, from := CodeVectors(c, row, at, m - 1), at + (m - 1) * c.dim;
      var e := EntryOf(c, was, from);
      AddedBalances(c, row, at, m - 1, acc, acc0, row0);
      AddedNext(c, acc, at, was.entries, e);
      TakenIsVectorHere(c, was, from, e);
      AddBack(Added(c, acc, at, was.entries), was.row, acc0, row0, from, c.valuelist[e]);
    }
  }

  lemma SameLength(acc: seq<int>, row: seq<int>, acc0: seq<int>, row0: seq<int>)
    requires Balanced(acc, row, acc0, row0)
    ensures |acc| == |row|
  {
  }

  /** The entry that codes the vector at `from`. */
  lemma EntryOf(c: Book, was: Coded, from: nat) returns (e: nat)
    requires c.Centred() && (exists i :: Used(c, i)) && from + c.dim <= |was.row|
    ensures var now := CodeVector(c, was, from);
      e < |c.lengthlist| && now.entries == was.entries + [e] && (now.exact ==> was.exact)
  {
    hide Taken, Minus, Best, Power;
    var v := was.row[from..from + c.dim];
    TakenIsVector(c, v);
    e := Best(c, v);
  }

  lemma TakenIsVectorHere(c: Book, was: Coded, from: nat, entry: nat)
    requires c.Centred() && (exists i :: Used(c, i)) && from + c.dim <= |was.row|
    requires CodeVector(c, was, from).exact && entry == CodeVector(c, was, from).entries[|was.entries|]
    ensures var v := was.row[from..from + c.dim];
      |c.Vector(entry)| == c.dim && CodeVector(c, was, from).row == Splice(was.row, from, Minus(v, c.Vector(entry)))
  {
    hide Book.Centred, Best, Taken, Minus, Book.Vector;
  }

  /** `a[i++] += t[j++]` over one vector. */
  method AddVector(a: array<int>, from: nat, t: seq<int>)
    requires from + |t| <= a.Length
    modifies a
    ensures a[..] == Plus(old(a[..]), from, t)
  {
    var j := 0;
    while j < |t|
      invariant 0 <= j <= |t|
      invariant forall k :: 0 <= k < a.Length ==> a[k] == old(a[k]) + if from <= k < from + j then t[k - from] else 0
    {
      a[from + j] := a[from + j] + t[j];
      j := j + 1;
    }
  }

  /** The next vectors are known to be those of `ahead`, then comes `rest`. */
  ghost predicate VectorsComing(shelf: Shelf, b: nat, ahead: seq<nat>, rest: seq<Token>, bits: seq<bool>,
                                tail: seq<bool>)
  {
    Coming(shelf, VectorTokens(b, ahead) + rest, bits, tail)
  }

  lemma NoneComing(shelf: Shelf, b: nat, rest: seq<Token>, bits: seq<bool>, tail: seq<bool>)
    ensures VectorsComing(shelf, b, [], rest, bits, tail) <==> Coming(shelf, rest, bits, tail)
  {
    assert VectorTokens(b, []) + rest == rest;
  }

  /** A book with a vector to come has codewords. */
  lemma ComingIsUsed(shelf: Shelf, b: nat, ahead: seq<nat>, rest: seq<Token>, bits: seq<bool>, tail: seq<bool>)
    requires VectorsComing(shelf, b, ahead, rest, bits, tail) && ahead != []
    ensures !shelf.Empty(b)
  {
    hide Sound, PrefixMatch.Complete, CodeTree.Used;
    assert (VectorTokens(b, ahead) + rest)[0] == Token(b, ahead[0]);
    assert shelf.Has(Token(b, ahead[0]));
    if shelf.Empty(b) {
      BuildTables.NoUsedEntry(shelf.lens[b]);
    }
  }

  /** The codewords of the entries `es` follow one another at the front of `bits`, and then `rest`. */
  ghost predicate HeardAll(shelf: Shelf, b: nat, es: seq<nat>, bits: seq<bool>, rest: seq<bool>)
    decreases |es|, 1
  {
    if es == [] then rest == bits else exists mid :: HeardLast(shelf, b, es, bits, mid, rest)
  }

  /** The last of them stands at the front of `mid`. */
  ghost predicate HeardLast(shelf: Shelf, b: nat, es: seq<nat>, bits: seq<bool>, mid: seq<bool>, rest: seq<bool>)
    requires es != []
    decreases |es|, 0
  {
    HeardAll(shelf, b, es[..|es| - 1], bits, mid) && Heard(shelf, b, es[|es| - 1], mid, rest)
  }

  lemma HeardMore(shelf: Shelf, b: nat, es: seq<nat>, e: nat, bits: seq<bool>, mid: seq<bool>, rest: seq<bool>)
    requires HeardAll(shelf, b, es, bits, mid) && Heard(shelf, b, e, mid, rest)
    ensures HeardAll(shelf, b, es + [e], bits, rest)
  {
    assert (es + [e])[..|es + [e]| - 1] == es;
    assert HeardLast(shelf, b, es + [e], bits, mid, rest);
  }

  lemma NoneHeard(shelf: Shelf, b: nat, bits: seq<bool>)
    ensures HeardAll(shelf, b, [], bits, bits)
  {
  }

  /** All of them were heard, or as many as there were before the packet ran out. */
  ghost predicate HeardUpTo(shelf: Shelf, b: nat, es: seq<nat>, bits: seq<bool>, rest: seq<bool>, ok: bool)
  {
    if ok then HeardAll(shelf, b, es, bits, rest) else rest == [] && exists mid :: HeardAll(shelf, b, es, bits, mid)
  }

  /** Read the entry of one vector. */
  method GetEntry(b: nat, books: seq<DecodeBook>, opb: OggPackBuffer, ghost known: bool, ghost ahead: seq<nat>,
                  ghost rest: seq<Token>, ghost shelf: Shelf, ghost tail: seq<bool>) returns (entry: int)
    requires Decoders(books, shelf) && opb.Valid() && b < |shelf.lens| && !shelf.Empty(b)
    requires known ==> ahead != [] && VectorsComing(shelf, b, ahead, rest, opb.Rest(), tail)
    modifies opb
    ensures Decoders(books, shelf) && opb.Valid() && opb.bits == old(opb.bits)
    ensures -1 <= entry < |shelf.lens[b]| && (entry == -1 ==> opb.Rest() == [])
    ensures entry >= 0 ==> Heard(shelf, b, entry, old(opb.Rest()), opb.Rest())
    ensures known ==> entry == ahead[0] && VectorsComing(shelf, b, ahead[1..], rest, opb.Rest(), tail)
  {
    hide Decoders, Coming, Shelf.Valid, Shelf.Empty, Stopped, Heard;
    ghost var ts := if known then VectorTokens(b, ahead) + rest else [];
    assert known ==> ts[0] == Token(b, ahead[0]) && ts[1..] == VectorTokens(b, ahead[1..]) + rest;
    entry := Get(books, shelf, b, opb, known, ts, tail);
  }

  /** Whether the book has any codeword. */
  method HasEntries(books: seq<DecodeBook>, b: nat, ghost shelf: Shelf) returns (some: bool)
    requires Decoders(books, shelf) && b < |shelf.lens|
    ensures some <==> !shelf.Empty(b)
  {
    hide DecodeTables.Tables, CodeTree.Used;
    some := books[b].usedEntries > 0;
  }

  /** Read vectors until `n` samples are passed, and add them in from `at` on: all that are to come, or as many as
      the packet holds. A book without codewords adds nothing. */
  method DecodePart(c: Book, b: nat, vec: array<int>, at: nat, n: nat, books: seq<DecodeBook>, opb: OggPackBuffer,
                    ghost known: bool, ghost ahead: seq<nat>, ghost rest: seq<Token>, ghost shelf: Shelf,
                    ghost tail: seq<bool>)
      returns (ok: bool, ghost es: seq<nat>)
    requires Decoders(books, shelf) && opb.Valid() && b < |shelf.lens| && c.Decodable(|shelf.lens[b]|)
    requires at <= vec.Length && (shelf.Empty(b) || at + Span(n, c.dim) <= vec.Length)
    requires known ==> |ahead| == Reads(n, c.dim) && VectorsComing(shelf, b, ahead, rest, opb.Rest(), tail)
    modifies opb, vec
    ensures Decoders(books, shelf) && opb.Valid() && opb.bits == old(opb.bits)
    ensures DigitsBelow(|c.valuelist|, es) && |es| <= Reads(n, c.dim) && at + |es| * c.dim <= vec.Length
    ensures vec[..] == Added(c, old(vec[..]), at, es)
    ensures forall k :: 0 <= k < vec.Length && !(at <= k < at + Span(n, c.dim)) ==> vec[k] == old(vec[k])
    ensures if ok then |es| == if shelf.Empty(b) then 0 else Reads(n, c.dim) else opb.Rest() == []
    ensures HeardUpTo(shelf, b, es, old(opb.Rest()), opb.Rest(), ok)
    ensures known ==> ok && es == ahead && Coming(shelf, rest, opb.Rest(), tail)
  {
    hide Decoders, Coming, VectorsComing, Shelf.Valid, Shelf.Empty, Reads, Plus, Added, Heard, HeardAll;
    ghost var was, start := vec[..], opb.Rest();
    es := [];
    assert known ==> ahead[0..] == ahead;
    AddedNone(c, was, at);
    NoneHeard(shelf, b, start);
    ReadsEnough(n, c.dim, 0);
    var some := HasEntries(books, b, shelf);
    if some {
      var i := 0;
      while i < n
        invariant Decoders(books, shelf) && opb.Valid() && opb.bits == old(opb.bits)
        invariant i == |es| * c.dim && |es| <= Reads(n, c.dim) && DigitsBelow(|c.valuelist|, es)
        invariant at + i <= vec.Length && vec[..] == Added(c, was, at, es)
        invariant HeardAll(shelf, b, es, start, opb.Rest())
        invariant known ==> es == ahead[..|es|] && VectorsComing(shelf, b, ahead[|es|..], rest, opb.Rest(), tail)
        decreases n - i
      {
        ReadsEnough(n, c.dim, |es|);
        MulStep(|es|, Reads(n, c.dim), c.dim);
        ghost var mid := opb.Rest();
        var entry := GetEntry(b, books, opb, known, if known then ahead[|es|..] else [], rest, shelf, tail);
        if entry == -1 {
          OnlyInside(c, was, at, es, n);
          return false, es;
        }
        HeardMore(shelf, b, es, entry, start, mid, opb.Rest());
        AddVector(vec, at + i, c.valuelist[entry]);
        AddedNext(c, was, at, es, entry);
        es := es + [entry];
        i := i + c.dim;
      }
      ReadsEnough(n, c.dim, |es|);
    } else if known && ahead != [] {
      ComingIsUsed(shelf, b, ahead, rest, opb.Rest(), tail);
    }
    OnlyInside(c, was, at, es, n);
    NoneComing(shelf, b, rest, opb.Rest(), tail);
    ok := true;
  }

  lemma AddedNone(c: Book, row: seq<int>, at: nat)
    requires c.Decodable(|c.valuelist|) && at <= |row|
    ensures 0 * c.dim == 0 && Added(c, row, at, []) == row
  {
  }

  lemma OnlyInside(c: Book, row: seq<int>, at: nat, es: seq<nat>, n: nat)
    requires c.Decodable(|c.valuelist|) && DigitsBelow(|c.valuelist|, es) && at + |es| * c.dim <= |row|
    requires |es| <= Reads(n, c.dim)
    ensures forall k :: 0 <= k < |row| && !(at <= k < at + Span(n, c.dim)) ==> Added(c, row, at, es)[k] == row[k]
  {
    hide Added, Reads;
    MulMonotone(|es|, Reads(n, c.dim), c.dim);
    forall k | 0 <= k < |row| && !(at <= k < at + Span(n, c.dim))
      ensures Added(c, row, at, es)[k] == row[k]
    {
      AddedElsewhere(c, row, at, es, k);
    }
  }

  lemma NoVectors(c: Book, row: seq<int>, at: nat)
    requires c.Centred() && (exists k :: Used(c, k)) && at <= |row|
    ensures 0 * c.dim == 0 && CodeVectors(c, row, at, 0) == Coded(row, [], true)
  {
  }

  /** What the next step of the encoder wrote stands next in the packet, and it was exact. */
  lemma NextTokens(look: Look, shelf: Shelf, partword: seq<seq<nat>>, rows: seq<seq<int>>, all: seq<Slot>, n: nat)
    requires Job(look, shelf, partword, rows) && SlotsOk(look, partword, all) && n < |all| && look.grouping > 0
    requires look.begin <= look.end
    ensures SlotsOk(look, partword, all[..n]) && SlotsOk(look, partword, all[..n + 1]) && SlotOk(look, partword, all[n])
    ensures var run, next, whole := RunOf(look, shelf, partword, rows, all[..n]),
                                    RunOf(look, shelf, partword, rows, all[..n + 1]),
                                    RunOf(look, shelf, partword, rows, all);
      && next == RunStep(look, shelf, partword, run, all[n])
      && run.tokens <= next.tokens <= whole.tokens && (whole.exact ==> next.exact)
      && whole.tokens[|run.tokens|..] == next.tokens[|run.tokens|..] + whole.tokens[|next.tokens|..]
  {
    hide Job, SlotOk, RunStep, RunOf;
    assert SlotOk(look, partword, all[n]);
    RunPrefix(look, shelf, partword, rows, all, n);
    RunPrefix(look, shelf, partword, rows, all, n + 1);
    assert all[..n + 1] == all[..n] + [all[n]];
    RunMore(look, shelf, partword, rows, all[..n], all[n]);
    SplitTokens(RunOf(look, shelf, partword, rows, all[..n]).tokens,
                RunOf(look, shelf, partword, rows, all[..n + 1]).tokens,
                RunOf(look, shelf, partword, rows, all).tokens);
  }

  lemma SplitTokens(a: seq<Token>, b: seq<Token>, c: seq<Token>)
    requires a <= b <= c
    ensures c[|a|..] == b[|a|..] + c[|b|..]
  {
  }

  /** What a partition step with book `b` relies on. */
  ghost predicate PartOk(look: Look, shelf: Shelf, b: int, row: seq<int>, at: nat)
  {
    && |look.books| == |shelf.lens| && 0 <= b < |look.books| && look.StageBookOk(shelf, b)
    && look.books[b].Centred() && (exists k :: Used(look.books[b], k)) && look.books[b].dim > 0
    && at + Fill(look.grouping, look.books[b].dim) * look.books[b].dim <= |row|
  }

  lemma PartIs(look: Look, shelf: Shelf, partword: seq<seq<nat>>, run: Run, s: nat, i: nat, j: nat)
    requires look.grouping > 0 && look.begin <= look.end
    requires Job(look, shelf, partword, run.rows) && SlotOk(look, partword, Part(s, i, j))
    ensures j < |partword| && i < |partword[j]| == look.Partvals() && |run.rows| == |partword|
    ensures var b, next := look.BookOf(partword[j][i], s), RunStep(look, shelf, partword, run, Part(s, i, j));
      if b < 0 then next == run
      else
        && PartOk(look, shelf, b, run.rows[j], look.At(i))
        && next == PartStep(look.books[b], b, run, j, look.At(i), Fill(look.grouping, look.books[b].dim))
  {
    hide Look.StageBookOk, CodeVectors, Book.Centred, Searchable, PartStep;
    var b := look.BookOf(partword[j][i], s);
    BookGood(look, shelf, partword[j][i], s);
    if b >= 0 {
      PartitionFits(look, i);
      StageFacts(look, shelf, b);
    }
  }

  /** A partition without a book in this stage is passed over; one with a book is what stands next. */
  lemma PartAhead(look: Look, shelf: Shelf, partword: seq<seq<nat>>, rows: seq<seq<int>>, all: seq<Slot>, n: nat,
                  s: nat, i: nat, j: nat)
    requires Job(look, shelf, partword, rows) && SlotsOk(look, partword, all) && n < |all| && all[n] == Part(s, i, j)
    requires look.grouping > 0 && look.begin <= look.end
    ensures SlotsOk(look, partword, all[..n]) && SlotsOk(look, partword, all[..n + 1])
    ensures j < |partword| && i < |partword[j]|
    ensures var run, next, whole := RunOf(look, shelf, partword, rows, all[..n]),
                                    RunOf(look, shelf, partword, rows, all[..n + 1]),
                                    RunOf(look, shelf, partword, rows, all);
      var b := look.BookOf(partword[j][i], s);
      && run.tokens <= next.tokens <= whole.tokens && |run.rows| == |partword|
      && if b < 0 then next == run
         else
           && PartOk(look, shelf, b, run.rows[j], look.At(i))
           && var done := CodeVectors(look.books[b], run.rows[j], look.At(i), Fill(look.grouping, look.books[b].dim));
           && next.rows == run.rows[j := done.row] && (whole.exact ==> done.exact)
           && whole.tokens[|run.tokens|..] == VectorTokens(b, done.entries) + whole.tokens[|next.tokens|..]
  {
    hide RunOf, RunStep, CodeVectors, Look.StageBookOk, Job, SlotOk, Book.Centred;
    NextTokens(look, shelf, partword, rows, all, n);
    PartIs(look, shelf, partword, RunOf(look, shelf, partword, rows, all[..n]), s, i, j);
  }

  /** The steps from number `n` on begin with `chunk`. */
  ghost predicate Ahead(all: seq<Slot>, n: nat, chunk: seq<Slot>)
  {
    n + |chunk| <= |all| && all[n..n + |chunk|] == chunk
  }

  lemma AheadPart(all: seq<Slot>, n: nat, chunk: seq<Slot>, a: seq<Slot>, b: seq<Slot>)
    requires Ahead(all, n, chunk) && a + b <= chunk
    ensures Ahead(all, n, a) && Ahead(all, n + |a|, b)
  {
    assert chunk[..|a| + |b|] == a + b;
    assert chunk[..|a|] == a && chunk[|a|..|a| + |b|] == b;
    assert all[n..n + |a|] == all[n..n + |chunk|][..|a|];
    assert all[n + |a|..n + |a| + |b|] == all[n..n + |chunk|][|a|..|a| + |b|];
  }

  lemma {:induction false} WordSlotsAre(i: nat, ch: nat, j: nat)
    requires j < ch
    ensures |WordSlots(i, ch)| == ch && WordSlots(i, ch)[j] == Word(i, j)
  {
    if j < ch - 1 {
      WordSlotsAre(i, ch - 1, j);
    } else if ch > 1 {
      WordSlotsAre(i, ch - 1, 0);
    }
  }

  lemma {:induction false} PartSlotsAre(s: nat, i: nat, ch: nat, j: nat)
    requires j < ch
    ensures |PartSlots(s, i, ch)| == ch && PartSlots(s, i, ch)[j] == Part(s, i, j)
  {
    if j < ch - 1 {
      PartSlotsAre(s, i, ch - 1, j);
    } else if ch > 1 {
      PartSlotsAre(s, i, ch - 1, 0);
    }
  }

  lemma {:induction false} GroupPrefix(s: nat, from: nat, i: nat, k: nat, ch: nat)
    requires from <= i <= k
    ensures GroupSlots(s, from, i, ch) <= GroupSlots(s, from, k, ch)
    decreases k
  {
    if i < k {
      GroupPrefix(s, from, i, k - 1, ch);
    }
  }

  lemma {:induction false} StagePrefix(s: nat, l: nat, m: nat, dim: nat, partvals: nat, ch: nat)
    requires l <= m
    ensures StageSlots(s, l, dim, partvals, ch) <= StageSlots(s, m, dim, partvals, ch)
    decreases m
  {
    hide WordAndGroup, WordStart;
    if l < m {
      StagePrefix(s, l, m - 1, dim, partvals, ch);
    }
  }

  lemma {:induction false} AllPrefix(s: nat, t: nat, dim: nat, partvals: nat, ch: nat)
    requires dim > 0 && s <= t
    ensures AllSlots(s, dim, partvals, ch) <= AllSlots(t, dim, partvals, ch)
    decreases t
  {
    hide StageSlots, Words;
    if s < t {
      AllPrefix(s, t - 1, dim, partvals, ch);
    }
  }

  lemma WordAhead(look: Look, shelf: Shelf, partword: seq<seq<nat>>, rows: seq<seq<int>>, all: seq<Slot>, n: nat,
                  i: nat, j: nat)
    requires Job(look, shelf, partword, rows) && SlotsOk(look, partword, all) && n < |all| && all[n] == Word(i, j)
    ensures SlotsOk(look, partword, all[..n]) && SlotsOk(look, partword, all[..n + 1]) && j < |partword|
    ensures var run, next, whole := RunOf(look, shelf, partword, rows, all[..n]),
                                    RunOf(look, shelf, partword, rows, all[..n + 1]),
                                    RunOf(look, shelf, partword, rows, all);
      var t := Token(look.groupbook, Horner(look.partitions, WordDigits(partword[j], i, look.wordDim)));
      && run.tokens <= next.tokens <= whole.tokens && next.rows == run.rows
      && whole.tokens[|run.tokens|..] == [t] + whole.tokens[|next.tokens|..]
    ensures DigitsBelow(look.partitions, WordDigits(partword[j], i, look.wordDim)) && look.wordDim > 0
    ensures look.partitions > 0
  {
    hide RunOf, Horner, Look.StageBookOk;
    NextTokens(look, shelf, partword, rows, all, n);
    assert SlotOk(look, partword, all[n]);
    assert DigitsBelow(look.partitions, partword[j]);
  }

  lemma DecodesIt(decodemap: seq<seq<nat>>, p: nat, dim: nat, ds: seq<nat>)
    requires Decodes(decodemap, p, dim) && DigitsBelow(p, ds) && |ds| == dim
    ensures Horner(p, ds) < |decodemap| && decodemap[Horner(p, ds)] == ds
  {
  }

  lemma WordsLength(i: nat, ch: nat)
    ensures |WordSlots(i, ch)| == ch
  {
    if ch > 0 {
      WordSlotsAre(i, ch, 0);
    }
  }

  lemma PartsLength(s: nat, i: nat, ch: nat)
    ensures |PartSlots(s, i, ch)| == ch
  {
    if ch > 0 {
      PartSlotsAre(s, i, ch, 0);
    }
  }

  lemma StageAhead(all: seq<Slot>, n: nat, s: nat, l: nat, m: nat, dim: nat, partvals: nat, ch: nat)
    requires l < m && Ahead(all, n, StageSlots(s, m, dim, partvals, ch))
    ensures WordStart(l, dim, partvals) <= WordStart(l + 1, dim, partvals)
    ensures var group := WordAndGroup(s, WordStart(l, dim, partvals), WordStart(l + 1, dim, partvals), ch);
      && Ahead(all, n + |StageSlots(s, l, dim, partvals, ch)|, group)
      && |StageSlots(s, l + 1, dim, partvals, ch)| == |StageSlots(s, l, dim, partvals, ch)| + |group|
  {
    hide Ahead, WordStart, WordAndGroup;
    WordStartUp(l, dim, partvals);
    StagePrefix(s, l + 1, m, dim, partvals, ch);
    AheadPart(all, n, StageSlots(s, m, dim, partvals, ch), StageSlots(s, l, dim, partvals, ch),
              WordAndGroup(s, WordStart(l, dim, partvals), WordStart(l + 1, dim, partvals), ch));
  }

  lemma NoSlots(look: Look, ch: nat)
    requires look.grouping > 0 && look.begin <= look.end && look.wordDim > 0
    ensures |AllSlots(0, look.wordDim, look.Partvals(), ch)| == 0
  {
  }

  ghost function RowsOf(vecs: seq<array<int>>): (r: seq<seq<int>>)
    ensures |r| == |vecs| && forall j :: 0 <= j < |r| ==> r[j] == vecs[j][..]
    reads vecs
  {
    seq(|vecs|, j requires 0 <= j < |vecs| reads vecs => vecs[j][..])
  }

  /** Every step for a block of `ch` channels. */
  function Schedule(look: Look, ch: nat): seq<Slot>
    requires look.grouping > 0 && look.begin <= look.end && look.wordDim > 0
  {
    AllSlots(look.stages, look.wordDim, look.Partvals(), ch)
  }

  ghost predicate AllSlotsOk(look: Look, partword: seq<seq<nat>>)
  {
    look.grouping > 0 && look.begin <= look.end && look.wordDim > 0
    && SlotsOk(look, partword, Schedule(look, |partword|))
  }

  lemma JobFacts(look: Look, shelf: Shelf, partword: seq<seq<nat>>, rows: seq<seq<int>>)
    requires Job(look, shelf, partword, rows)
    ensures look.grouping > 0 && look.begin <= look.end && look.wordDim > 0 && |look.books| == |shelf.lens|
    ensures shelf.Valid()
    ensures |rows| == |partword| && forall j :: 0 <= j < |partword| ==> |partword[j]| == look.Partvals()
  {
    hide Look.StageBookOk;
  }

  lemma StagesAhead(look: Look, s: nat, ch: nat)
    requires look.grouping > 0 && look.begin <= look.end && look.wordDim > 0 && s < look.stages
    ensures var dim, partvals := look.wordDim, look.Partvals();
      var stage := StageSlots(s, Words(dim, partvals), dim, partvals, ch);
      && Ahead(Schedule(look, ch), |AllSlots(s, dim, partvals, ch)|, stage)
      && |AllSlots(s + 1, dim, partvals, ch)| == |AllSlots(s, dim, partvals, ch)| + |stage|
  {
    hide StageSlots, Words, Look.Partvals;
    var dim, partvals := look.wordDim, look.Partvals();
    AllPrefix(s + 1, look.stages, dim, partvals, ch);
  }

  lemma ScheduleIs(look: Look, ch: nat)
    requires look.grouping > 0 && look.begin <= look.end && look.wordDim > 0
    ensures Schedule(look, ch) == AllSlots(look.stages, look.wordDim, look.Partvals(), ch)
  {
  }

  lemma NoPartitions(look: Look, ch: nat)
    requires look.grouping > 0 && look.begin == look.end && look.wordDim > 0
    ensures Schedule(look, ch) == []
  {
    NothingToDo(look.stages, look.wordDim, ch);
  }

  lemma {:induction false} NothingToDo(s: nat, dim: nat, ch: nat)
    requires dim > 0
    ensures AllSlots(s, dim, 0, ch) == []
  {
    DivModUnique(dim - 1, 0, dim, dim - 1);
    if s > 0 {
      NothingToDo(s - 1, dim, ch);
    }
  }
}
