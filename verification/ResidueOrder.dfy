/** The order of a residue's steps: by stage, by phrase word, the words before their partitions, by partition, by
    vector. Both coders go through the same schedule; this says which one it is. */
module ResidueOrder {
  import opened BitMath
  import opened Residue

  function StageOf(x: Slot): nat
  {
    if x.Part? then x.s else 0
  }

  /** Step `x` comes before step `y`. */
  predicate Before(dim: nat, x: Slot, y: Slot)
    requires dim > 0
  {
    if StageOf(x) != StageOf(y) then StageOf(x) < StageOf(y)
    else if x.i / dim != y.i / dim then x.i / dim < y.i / dim
    else if x.Word? != y.Word? then x.Word?
    else if x.i != y.i then x.i < y.i
    else x.j < y.j
  }

  /** Every step comes before all later ones. */
  ghost predicate Sorted(dim: nat, slots: seq<Slot>)
    requires dim > 0
  {
    forall m, n :: 0 <= m < n < |slots| ==> Before(dim, slots[m], slots[n])
  }

  ghost predicate AllBefore(dim: nat, a: seq<Slot>, b: seq<Slot>)
    requires dim > 0
  {
    forall m, n :: 0 <= m < |a| && 0 <= n < |b| ==> Before(dim, a[m], b[n])
  }

  lemma SortedConcat(dim: nat, a: seq<Slot>, b: seq<Slot>)
    requires dim > 0 && Sorted(dim, a) && Sorted(dim, b) && AllBefore(dim, a, b)
    ensures Sorted(dim, a + b)
  {
    hide Before;
  }

  lemma {:induction false} WordsSorted(dim: nat, i: nat, j: nat)
    requires dim > 0
    ensures Sorted(dim, WordSlots(i, j))
    ensures forall m :: 0 <= m < |WordSlots(i, j)| ==> WordSlots(i, j)[m].Word?
    ensures forall m :: 0 <= m < |WordSlots(i, j)| ==> WordSlots(i, j)[m].i == i && WordSlots(i, j)[m].j < j
  {
    if j > 0 {
      WordsSorted(dim, i, j - 1);
      SortedConcat(dim, WordSlots(i, j - 1), [Word(i, j - 1)]);
    }
  }

  lemma {:induction false} PartsSorted(dim: nat, s: nat, i: nat, j: nat)
    requires dim > 0
    ensures Sorted(dim, PartSlots(s, i, j))
    ensures forall m :: 0 <= m < |PartSlots(s, i, j)| ==> PartSlots(s, i, j)[m].Part?
    ensures forall m :: 0 <= m < |PartSlots(s, i, j)| ==>
      PartSlots(s, i, j)[m].s == s && PartSlots(s, i, j)[m].i == i && PartSlots(s, i, j)[m].j < j
  {
    if j > 0 {
      PartsSorted(dim, s, i, j - 1);
      SortedConcat(dim, PartSlots(s, i, j - 1), [Part(s, i, j - 1)]);
    }
  }

  /** Partitions of stage `s` from `from` to `upto - 1`. */
  ghost predicate PartsIn(s: nat, from: nat, upto: nat, x: Slot)
  {
    x.Part? && x.s == s && from <= x.i < upto
  }

  ghost predicate AllPartsIn(s: nat, from: nat, upto: nat, slots: seq<Slot>)
  {
    forall m :: 0 <= m < |slots| ==> PartsIn(s, from, upto, slots[m])
  }

  lemma OneGroupBefore(dim: nat, s: nat, from: nat, i: nat, a: seq<Slot>, b: seq<Slot>)
    requires dim > 0 && AllPartsIn(s, from, i, a) && AllPartsIn(s, i, i + 1, b)
    ensures AllBefore(dim, a, b)
  {
    forall m, n | 0 <= m < |a| && 0 <= n < |b|
      ensures Before(dim, a[m], b[n])
    {
      assert PartsIn(s, from, i, a[m]) && PartsIn(s, i, i + 1, b[n]);
      DivMonotone(a[m].i, b[n].i, dim);
    }
  }

  lemma {:induction false} GroupSorted(dim: nat, s: nat, from: nat, i: nat, ch: nat)
    requires dim > 0 && from <= i
    ensures Sorted(dim, GroupSlots(s, from, i, ch)) && AllPartsIn(s, from, i, GroupSlots(s, from, i, ch))
    decreases i
  {
    hide Before, Sorted;
    if i > from {
      GroupSorted(dim, s, from, i - 1, ch);
      PartsSorted(dim, s, i - 1, ch);
      OneGroupBefore(dim, s, from, i - 1, GroupSlots(s, from, i - 1, ch), PartSlots(s, i - 1, ch));
      SortedConcat(dim, GroupSlots(s, from, i - 1, ch), PartSlots(s, i - 1, ch));
    } else {
      NothingSorted(dim);
    }
  }

  lemma NothingSorted(dim: nat)
    requires dim > 0
    ensures Sorted(dim, [])
  {
  }

  /** Steps of stage `s` at words from `l` to `m - 1`. */
  ghost predicate WordsIn(dim: nat, s: nat, l: nat, m: nat, x: Slot)
    requires dim > 0
  {
    StageOf(x) == s && l <= x.i / dim < m
  }

  ghost predicate AllWordsIn(dim: nat, s: nat, l: nat, m: nat, slots: seq<Slot>)
    requires dim > 0
  {
    forall k :: 0 <= k < |slots| ==> WordsIn(dim, s, l, m, slots[k])
  }

  lemma WordOf(dim: nat, l: nat, i: nat)
    requires dim > 0 && l * dim <= i < l * dim + dim
    ensures i / dim == l
  {
    DivModUnique(i, l, dim, i - l * dim);
  }

  /** A word with its partitions. */
  lemma WordAndGroupSorted(dim: nat, s: nat, l: nat, upto: nat, ch: nat)
    requires dim > 0 && l * dim < upto <= l * dim + dim
    ensures var slots := WordAndGroup(s, l * dim, upto, ch);
      Sorted(dim, slots) && AllWordsIn(dim, s, l, l + 1, slots)
  {
    var from := l * dim;
    var words := if s == 0 then WordSlots(from, ch) else [];
    var group := GroupSlots(s, from, upto, ch);
    WordsSorted(dim, from, ch);
    GroupSorted(dim, s, from, upto, ch);
    WordOf(dim, l, from);
    forall n | 0 <= n < |group|
      ensures WordsIn(dim, s, l, l + 1, group[n]) && group[n].Part?
    {
      assert PartsIn(s, from, upto, group[n]);
      WordOf(dim, l, group[n].i);
    }
    assert AllBefore(dim, words, group);
    SortedConcat(dim, words, group);
  }

  lemma WordsBefore(dim: nat, s: nat, l: nat, a: seq<Slot>, b: seq<Slot>)
    requires dim > 0 && AllWordsIn(dim, s, 0, l, a) && AllWordsIn(dim, s, l, l + 1, b)
    ensures AllBefore(dim, a, b) && AllWordsIn(dim, s, 0, l + 1, a + b)
  {
    forall m, n | 0 <= m < |a| && 0 <= n < |b|
      ensures Before(dim, a[m], b[n])
    {
      assert WordsIn(dim, s, 0, l, a[m]) && WordsIn(dim, s, l, l + 1, b[n]);
    }
    forall k | 0 <= k < |a + b|
      ensures WordsIn(dim, s, 0, l + 1, (a + b)[k])
    {
      if k < |a| {
        assert WordsIn(dim, s, 0, l, a[k]);
      } else {
        assert WordsIn(dim, s, l, l + 1, b[k - |a|]);
      }
    }
  }

  lemma {:induction false} StageSorted(dim: nat, s: nat, l: nat, partvals: nat, ch: nat)
    requires dim > 0 && l <= Words(dim, partvals)
    ensures var slots := StageSlots(s, l, dim, partvals, ch); Sorted(dim, slots) && AllWordsIn(dim, s, 0, l, slots)
    decreases l
  {
    hide Before, Sorted, AllBefore, AllWordsIn, Words, WordAndGroup;
    if l == 0 {
      NothingSorted(dim);
      NothingIn(dim, s, 0, 0);
    } else {
      var front := StageSlots(s, l - 1, dim, partvals, ch);
      StageSorted(dim, s, l - 1, partvals, ch);
      WordBegins(l - 1, dim, partvals);
      WordAndGroupSorted(dim, s, l - 1, WordStart(l, dim, partvals), ch);
      var group := WordAndGroup(s, (l - 1) * dim, WordStart(l, dim, partvals), ch);
      WordsBefore(dim, s, l - 1, front, group);
      SortedConcat(dim, front, group);
    }
  }

  lemma NothingIn(dim: nat, s: nat, l: nat, m: nat)
    requires dim > 0
    ensures AllWordsIn(dim, s, l, m, [])
  {
  }

  ghost predicate StagesBelow(s: nat, slots: seq<Slot>)
  {
    forall k :: 0 <= k < |slots| ==> StageOf(slots[k]) < s
  }

  lemma StageBefore(dim: nat, s: nat, n: nat, a: seq<Slot>, b: seq<Slot>)
    requires dim > 0 && StagesBelow(s, a) && AllWordsIn(dim, s, 0, n, b)
    ensures AllBefore(dim, a, b) && StagesBelow(s + 1, a + b)
  {
    forall k | 0 <= k < |b|
      ensures StageOf(b[k]) == s
    {
      assert WordsIn(dim, s, 0, n, b[k]);
    }
  }

  /** The schedule is in order, with no step twice. */
  lemma {:induction false} ScheduleSorted(dim: nat, s: nat, partvals: nat, ch: nat)
    requires dim > 0
    ensures Sorted(dim, AllSlots(s, dim, partvals, ch)) && StagesBelow(s, AllSlots(s, dim, partvals, ch))
    decreases s
  {
    hide Before, Sorted, AllBefore, AllWordsIn, Words, StageSlots;
    if s == 0 {
      NothingSorted(dim);
    } else {
      var front := AllSlots(s - 1, dim, partvals, ch);
      var stage := StageSlots(s - 1, Words(dim, partvals), dim, partvals, ch);
      ScheduleSorted(dim, s - 1, partvals, ch);
      StageSorted(dim, s - 1, Words(dim, partvals), partvals, ch);
      StageBefore(dim, s - 1, Words(dim, partvals), front, stage);
      SortedConcat(dim, front, stage);
    }
  }

  // ---------------------------------------------------------------------------------------------
  // Nothing is missing
  // ---------------------------------------------------------------------------------------------

  /** The steps that a residue has: in each stage every partition of every vector, and in the first a word for every
      vector at the start of every `dim` partitions. */
  predicate Due(dim: nat, s: nat, partvals: nat, ch: nat, x: Slot)
    requires dim > 0
  {
    x.i < partvals && x.j < ch && StageOf(x) < s && (x.Word? ==> x.i % dim == 0)
  }

  lemma {:induction false} WordsHave(i: nat, ch: nat, x: Slot)
    ensures x in WordSlots(i, ch) <==> x.Word? && x.i == i && x.j < ch
  {
    if ch > 0 {
      WordsHave(i, ch - 1, x);
    }
  }

  lemma {:induction false} PartsHave(s: nat, i: nat, ch: nat, x: Slot)
    ensures x in PartSlots(s, i, ch) <==> x.Part? && x.s == s && x.i == i && x.j < ch
  {
    if ch > 0 {
      PartsHave(s, i, ch - 1, x);
    }
  }

  lemma {:induction false} GroupHas(s: nat, from: nat, i: nat, ch: nat, x: Slot)
    requires from <= i
    ensures x in GroupSlots(s, from, i, ch) <==> x.Part? && x.s == s && from <= x.i < i && x.j < ch
    decreases i
  {
    hide PartSlots;
    if i > from {
      GroupHas(s, from, i - 1, ch, x);
      PartsHave(s, i - 1, ch, x);
      InEither(GroupSlots(s, from, i - 1, ch), PartSlots(s, i - 1, ch), x);
    }
  }

  lemma InEither(a: seq<Slot>, b: seq<Slot>, x: Slot)
    ensures x in a + b <==> x in a || x in b
  {
  }

  /** What stage `s` has up to word `l`. */
  predicate DueInStage(dim: nat, s: nat, upto: nat, ch: nat, x: Slot)
    requires dim > 0
  {
    x.i < upto && x.j < ch && StageOf(x) == s && (x.Word? ==> x.i % dim == 0)
  }

  lemma OnlyStart(dim: nat, l: nat, i: nat)
    requires dim > 0 && l * dim <= i < l * dim + dim
    ensures i % dim == 0 <==> i == l * dim
  {
    DivModUnique(i, l, dim, i - l * dim);
  }

  lemma {:induction false} StageHas(dim: nat, s: nat, l: nat, partvals: nat, ch: nat, x: Slot)
    requires dim > 0 && l <= Words(dim, partvals)
    ensures x in StageSlots(s, l, dim, partvals, ch) <==> DueInStage(dim, s, WordStart(l, dim, partvals), ch, x)
    decreases l
  {
    hide Words, WordSlots, GroupSlots;
    WordStartUp(0, dim, partvals);
    if l > 0 {
      StageHas(dim, s, l - 1, partvals, ch, x);
      WordBegins(l - 1, dim, partvals);
      var from, to := (l - 1) * dim, WordStart(l, dim, partvals);
      WordsHave(from, ch, x);
      GroupHas(s, from, to, ch, x);
      InEither(StageSlots(s, l - 1, dim, partvals, ch), WordAndGroup(s, from, to, ch), x);
      InEither(if s == 0 then WordSlots(from, ch) else [], GroupSlots(s, from, to, ch), x);
      if from <= x.i < to {
        OnlyStart(dim, l - 1, x.i);
      }
    }
  }

  /** The schedule has exactly the steps that are due; being in order, there is no other schedule. */
  lemma {:induction false} ScheduleHas(dim: nat, s: nat, partvals: nat, ch: nat, x: Slot)
    requires dim > 0
    ensures x in AllSlots(s, dim, partvals, ch) <==> Due(dim, s, partvals, ch, x)
    decreases s
  {
    hide Words, StageSlots, WordStart;
    if s > 0 {
      ScheduleHas(dim, s - 1, partvals, ch, x);
      StageHas(dim, s - 1, Words(dim, partvals), partvals, ch, x);
      WordsCover(dim, partvals);
    }
  }

  // ---------------------------------------------------------------------------------------------
  // Where the partitions are
  // ---------------------------------------------------------------------------------------------

  /** Partitions follow one another from the residue's begin on, and leave less than a partition of it. */
  lemma PartitionsTile(look: Look, i: nat)
    requires look.grouping > 0 && look.begin <= look.end
    ensures look.At(0) == look.begin && look.At(i + 1) == look.At(i) + look.grouping
    ensures i < look.Partvals() <==> look.At(i + 1) <= look.end
    ensures 0 <= look.end - look.At(look.Partvals()) < look.grouping
  {
    var n, g := look.Partvals(), look.grouping;
    DivMod(look.end - look.begin, g);
    assert (i + 1) * g == i * g + g;
    if i < n {
      PartitionFits(look, i);
    } else {
      MulMonotone(n, i, g);
    }
  }
}
