/** Where a residue's vectors are decoded to, and what a decoder makes of any packet: the steps it goes through, one by
    one, each from what it reads. */
module ResidueLayout {
  import opened Phrases
  import opened Lattice
  import opened PartitionWords
  import opened Residue
  import opened Residue2

  /** Whether a partition is decoded into one channel, or across all of them. */
  datatype Layout = PerChannel | Across(len: nat)
  {
    /** How many vectors the steps go through. */
    function Vectors(vecs: seq<array<int>>): nat
    {
      if PerChannel? then |vecs| else 1
    }

    /** The channels hold these vectors. */
    ghost predicate Holding(vecs: seq<array<int>>, vals: seq<seq<int>>)
      reads vecs
    {
      if PerChannel? then vals == RowsOf(vecs) else |vals| == 1 && |vecs| > 0 && Interleaves(vals[0], RowsOf(vecs), len)
    }

    /** Where in a vector the partition at `at` is decoded to, when there are `ch` channels. */
    function From(ch: nat, at: nat): nat
    {
      if PerChannel? || ch == 0 then at else First(ch, at)
    }

    /** How many of its `n` samples are asked for. */
    function Count(ch: nat, at: nat, n: nat): nat
    {
      if PerChannel? || ch == 0 then n else Places(ch, at, n)
    }

    function Size(vecs: seq<array<int>>, j: nat): nat
      requires j < Vectors(vecs)
    {
      if PerChannel? then vecs[j].Length else len * |vecs|
    }

    /** Place `k` is among those that book `b` reads for partition `i`. */
    predicate Hits(look: Look, ch: nat, i: nat, b: int, k: int)
    {
      && 0 <= b < |look.books| && look.books[b].dim > 0
      && var at := look.At(i);
      From(ch, at) <= k < From(ch, at) + Span(Count(ch, at, look.grouping), look.books[b].dim)
    }

    /** Vector `j` has room for all that book `b` reads for partition `i`. */
    ghost predicate RoomFor(look: Look, shelf: Shelf, vecs: seq<array<int>>, i: nat, b: int, j: nat)
      requires j < Vectors(vecs)
    {
      0 <= b < |look.books| && look.books[b].dim > 0 ==>
        && var from, count := From(|vecs|, look.At(i)), Count(|vecs|, look.At(i), look.grouping);
        && from <= Size(vecs, j)
        && (shelf.Empty(b) || from + Span(count, look.books[b].dim) <= Size(vecs, j))
    }

    /** There is room for whatever the packet may make the decoder read. */
    ghost predicate Fits(look: Look, shelf: Shelf, vecs: seq<array<int>>)
    {
      && look.grouping > 0 && look.begin <= look.end && (Across? ==> |vecs| > 0)
      && forall i, j, class_: nat, s: nat :: 0 <= i < look.Partvals() && 0 <= j < Vectors(vecs) ==>
           RoomFor(look, shelf, vecs, i, look.BookOf(class_, s), j)
    }

    /** No partition is decoded to place `k`. */
    ghost predicate Outside(look: Look, ch: nat, k: int)
      requires look.grouping > 0 && look.begin <= look.end
    {
      forall i, class_: nat, s: nat :: 0 <= i < look.Partvals() ==> !Hits(look, ch, i, look.BookOf(class_, s), k)
    }

    /** The samples outside are as they were. */
    ghost predicate Kept(look: Look, ch: nat, vals: seq<seq<int>>, vals': seq<seq<int>>)
      requires look.grouping > 0 && look.begin <= look.end
    {
      && |vals'| == |vals|
      && forall j :: 0 <= j < |vals| ==> KeptOne(look, ch, vals[j], vals'[j])
    }

    ghost predicate KeptOne(look: Look, ch: nat, val: seq<int>, val': seq<int>)
      requires look.grouping > 0 && look.begin <= look.end
    {
      |val'| == |val| && forall k :: 0 <= k < |val| && Outside(look, ch, k) ==> val'[k] == val[k]
    }

    /** The channels now hold other vectors, the same outside the partitions. */
    ghost predicate Moved(look: Look, vecs: seq<array<int>>, vals: seq<seq<int>>, vals': seq<seq<int>>)
      requires look.grouping > 0 && look.begin <= look.end
      reads vecs
    {
      Holding(vecs, vals') && Kept(look, |vecs|, vals, vals')
    }

    /** Partitions start and end on channel 0. */
    predicate Aligned(look: Look, ch: nat)
    {
      Across? && ch > 0 ==> look.begin % ch == 0 && look.grouping % ch == 0
    }
  }

  lemma KeptSame(layout: Layout, look: Look, ch: nat, vals: seq<seq<int>>)
    requires look.grouping > 0 && look.begin <= look.end
    ensures layout.Kept(look, ch, vals, vals)
  {
  }

  lemma KeptMore(layout: Layout, look: Look, ch: nat, a: seq<seq<int>>, b: seq<seq<int>>, c: seq<seq<int>>)
    requires look.grouping > 0 && look.begin <= look.end
    requires layout.Kept(look, ch, a, b) && layout.Kept(look, ch, b, c)
    ensures layout.Kept(look, ch, a, c)
  {
    hide Layout.Outside;
    forall j | 0 <= j < |a|
      ensures layout.KeptOne(look, ch, a[j], c[j])
    {
      assert layout.KeptOne(look, ch, a[j], b[j]) && layout.KeptOne(look, ch, b[j], c[j]);
    }
  }

  /** What reading vectors `es` of book `c` from `from` on, for `count` samples, does to a vector. */
  ghost predicate Read(c: Book, val: seq<int>, val': seq<int>, from: nat, count: nat, es: seq<nat>)
  {
    && c.Decodable(|c.valuelist|) && DigitsBelow(|c.valuelist|, es) && from + |es| * c.dim <= |val| == |val'|
    && val' == Added(c, val, from, es)
    && forall k :: 0 <= k < |val| && !(from <= k < from + Span(count, c.dim)) ==> val'[k] == val[k]
  }

  // ---------------------------------------------------------------------------------------------
  // Replaying a packet
  // ---------------------------------------------------------------------------------------------

  /** What there is between two steps: the vectors, the bits still to be read, and the entries of the phrase words read
      so far, each under the step that read it. */
  datatype Moment = Moment(vals: seq<seq<int>>, bits: seq<bool>, entries: map<Slot, nat>)

  /** A decoder of `ch` channels at work. */
  datatype Play = Play(layout: Layout, look: Look, shelf: Shelf, ch: nat)
  {
    ghost predicate Set()
    {
      look.partitions > 0 && look.wordDim > 0
    }

    /** The class of partition `i` of vector `j`: its digit of the word read at the word's first partition, the first
        partition's digit highest. */
    function ClassOf(entries: map<Slot, nat>, i: nat, j: nat): nat
      requires look.partitions > 0 && look.wordDim > 0 && Word(i - i % look.wordDim, j) in entries
    {
      DigitAt(look.partitions, look.wordDim, entries[Word(i - i % look.wordDim, j)], i % look.wordDim)
    }

    /** A phrase word is read: the entry heard is one of the words. Or it is not, for want of bits or because there is
        no such word. */
    ghost predicate WordRead(i: nat, j: nat, a: Moment, z: Moment, ok: bool)
    {
      && z.vals == a.vals
      && if ok then
           && Word(i, j) in z.entries && z.entries == a.entries[Word(i, j) := z.entries[Word(i, j)]]
           && z.entries[Word(i, j)] < Power(look.partitions, look.wordDim)
           && Heard(shelf, look.groupbook, z.entries[Word(i, j)], a.bits, z.bits)
         else
           && z.entries == a.entries
           && (z.bits == [] || shelf.Empty(look.groupbook)
               || exists e: nat ::
                    e >= Power(look.partitions, look.wordDim) && Heard(shelf, look.groupbook, e, a.bits, z.bits))
    }

    /** Vectors `es` of book `b` are read for partition `i` and added into vector `j`. */
    ghost predicate VectorsRead(i: nat, j: nat, b: nat, es: seq<nat>, a: Moment, z: Moment, ok: bool)
    {
      && b < |look.books| && j < |a.vals| == |z.vals|
      && Read(look.books[b], a.vals[j], z.vals[j], layout.From(ch, look.At(i)),
              layout.Count(ch, look.At(i), look.grouping), es)
      && HeardUpTo(shelf, b, es, a.bits, z.bits, ok)
      && (ok ==> |es| == if shelf.Empty(b) then 0
                         else Reads(layout.Count(ch, look.At(i), look.grouping), look.books[b].dim))
    }

    /** Partition `i` of vector `j` is read with book `b`, or passed over where there is none. */
    ghost predicate PartRead(i: nat, j: nat, b: int, a: Moment, z: Moment, ok: bool)
    {
      && z.entries == a.entries && |z.vals| == |a.vals|
      && (forall k :: 0 <= k < |a.vals| && k != j ==> z.vals[k] == a.vals[k])
      && if b < 0 then ok && z == a else exists es :: VectorsRead(i, j, b, es, a, z, ok)
    }

    /** One step; `ok` says whether it was finished. */
    ghost predicate Step(slot: Slot, a: Moment, z: Moment, ok: bool)
    {
      && Set()
      && match slot
         case Word(i, j) => WordRead(i, j, a, z, ok)
         case Part(s, i, j) =>
           Word(i - i % look.wordDim, j) in a.entries
           && PartRead(i, j, look.BookOf(ClassOf(a.entries, i, j), s), a, z, ok)
    }

    /** The steps `slots` lead from `a` to `z`. */
    ghost predicate Replay(slots: seq<Slot>, a: Moment, z: Moment)
      decreases |slots|, 1
    {
      if slots == [] then z == a else exists mid :: ReplayLast(slots, a, mid, z)
    }

    ghost predicate ReplayLast(slots: seq<Slot>, a: Moment, mid: Moment, z: Moment)
      requires slots != []
      decreases |slots|, 0
    {
      Replay(slots[..|slots| - 1], a, mid) && Step(slots[|slots| - 1], mid, z, true)
    }

    /** Step number `n` was the one that was not finished. */
    ghost predicate StopsAt(slots: seq<Slot>, n: nat, a: Moment, mid: Moment, z: Moment)
    {
      n < |slots| && Replay(slots[..n], a, mid) && Step(slots[n], mid, z, false)
    }

    /** All steps, or as many as the packet allows. */
    ghost predicate Runs(slots: seq<Slot>, a: Moment, z: Moment, ok: bool)
    {
      if ok then Replay(slots, a, z) else exists n: nat, mid :: StopsAt(slots, n, a, mid, z)
    }
  }

  lemma NothingReplayed(p: Play, a: Moment)
    ensures p.Replay([], a, a)
  {
  }

  lemma ReplayMore(p: Play, slots: seq<Slot>, slot: Slot, a: Moment, mid: Moment, z: Moment)
    requires p.Replay(slots, a, mid) && p.Step(slot, mid, z, true)
    ensures p.Replay(slots + [slot], a, z)
  {
    hide Play.Step;
    assert (slots + [slot])[..|slots|] == slots;
    assert p.ReplayLast(slots + [slot], a, mid, z);
  }

  lemma {:induction false} ReplayThen(p: Play, x: seq<Slot>, y: seq<Slot>, a: Moment, mid: Moment, z: Moment)
    requires p.Replay(x, a, mid) && p.Replay(y, mid, z)
    ensures p.Replay(x + y, a, z)
    decreases |y|
  {
    hide Play.Step;
    if y == [] {
      assert x + y == x;
    } else {
      var front := y[..|y| - 1];
      var m :| p.ReplayLast(y, mid, m, z);
      ReplayThen(p, x, front, a, mid, m);
      ReplayMore(p, x + front, y[|y| - 1], a, m, z);
      assert x + front + [y[|y| - 1]] == x + y;
    }
  }

  lemma RunsThen(p: Play, x: seq<Slot>, y: seq<Slot>, a: Moment, mid: Moment, z: Moment, ok: bool)
    requires p.Replay(x, a, mid) && p.Runs(y, mid, z, ok)
    ensures p.Runs(x + y, a, z, ok)
  {
    hide Play.Step, Play.Replay;
    if ok {
      ReplayThen(p, x, y, a, mid, z);
    } else {
      var n: nat, m :| p.StopsAt(y, n, mid, m, z);
      ReplayThen(p, x, y[..n], a, mid, m);
      assert x + y[..n] == (x + y)[..|x| + n];
      assert p.StopsAt(x + y, |x| + n, a, m, z);
    }
  }

  /** What stops early stops whatever was still to come. */
  lemma StopsEarly(p: Play, x: seq<Slot>, slots: seq<Slot>, a: Moment, z: Moment)
    requires p.Runs(x, a, z, false) && x <= slots
    ensures p.Runs(slots, a, z, false)
  {
    hide Play.Step, Play.Replay;
    var n: nat, m :| p.StopsAt(x, n, a, m, z);
    assert slots[..n] == x[..n];
    assert p.StopsAt(slots, n, a, m, z);
  }

  lemma RunsOne(p: Play, slot: Slot, a: Moment, z: Moment, ok: bool)
    requires p.Step(slot, a, z, ok)
    ensures p.Runs([slot], a, z, ok)
  {
    hide Play.Step;
    NothingReplayed(p, a);
    if ok {
      assert [] + [slot] == [slot];
      ReplayMore(p, [], slot, a, a, z);
    } else {
      assert [slot][..0] == [];
      assert p.StopsAt([slot], 0, a, a, z);
    }
  }
}
