/** When residue stages code exactly: what each stage may leave for the next. */
module Cascade {
  import opened BitMath
  import opened PrefixMatch
  import opened Phrases
  import opened Lattice
  import opened PartitionWords
  import opened Residue

  // ---------------------------------------------------------------------------------------------
  // One partition
  // ---------------------------------------------------------------------------------------------

  /** The vector at `from` is within the grid, or not coded by the direct path. */
  ghost predicate CodableAt(c: Book, row: seq<int>, from: nat)
    requires c.Centred()
  {
    from + c.dim <= |row| && var v := row[from..from + c.dim]; Used(c, DirectEntry(c, v, 0)) ==> AllInRange(c, v)
  }

  /** Vector `k` of the partition at `at`. */
  ghost predicate CodableNth(c: Book, row: seq<int>, at: nat, k: nat)
    requires c.Centred()
  {
    CodableAt(c, row, at + k * c.dim)
  }

  /** Coding `m` vectors changes nothing outside them. */
  lemma {:induction false} VectorsElsewhere(c: Book, row: seq<int>, at: nat, m: nat, t: nat)
    requires c.Centred() && (exists i :: Used(c, i)) && at + m * c.dim <= |row| && t < |row|
    requires t < at || at + m * c.dim <= t
    ensures CodeVectors(c, row, at, m).row[t] == row[t]
    decreases m
  {
    hide Book.Centred, Taken, Minus, Best;
    if m > 0 {
      BeforeLast(m, c.dim);
      VectorsElsewhere(c, row, at, m - 1, t);
    }
  }

  /** Vector `m` is coded as it was given. */
  lemma VectorUntouched(c: Book, row: seq<int>, at: nat, m: nat)
    requires c.Centred() && (exists i :: Used(c, i)) && at + m * c.dim + c.dim <= |row|
    ensures var from := at + m * c.dim;
      0 <= from && CodeVectors(c, row, at, m).row[from..from + c.dim] == row[from..from + c.dim]
  {
    hide Book.Centred, CodeVectors;
    BeforeLast(m + 1, c.dim);
    var from := at + m * c.dim;
    forall t | from <= t < from + c.dim
      ensures CodeVectors(c, row, at, m).row[t] == row[t]
    {
      VectorsElsewhere(c, row, at, m, t);
    }
  }

  /** The entries of a partition are exact if and only if each vector coded by the direct path was within
      the grid. */
  lemma {:induction false} VectorsExact(c: Book, row: seq<int>, at: nat, m: nat)
    requires c.Centred() && (exists i :: Used(c, i)) && at + m * c.dim <= |row|
    ensures CodeVectors(c, row, at, m).exact <==> forall k: nat :: k < m ==> CodableNth(c, row, at, k)
    decreases m
  {
    hide Book.Centred, Taken, Minus, Best, DirectEntry, AllInRange, CodableAt;
    if m > 0 {
      BeforeLast(m, c.dim);
      VectorsExact(c, row, at, m - 1);
      VectorUntouched(c, row, at, m - 1);
      var from := at + (m - 1) * c.dim;
      TakenIsVector(c, row[from..from + c.dim]);
      CodableIs(c, row, from);
      assert CodableNth(c, row, at, m - 1) <==> CodableAt(c, row, from);
    }
  }

  lemma CodableIs(c: Book, row: seq<int>, from: nat)
    requires c.Centred() && from + c.dim <= |row|
    ensures var v := row[from..from + c.dim];
      CodableAt(c, row, from) <==> (Used(c, DirectEntry(c, v, 0)) ==> AllInRange(c, v))
  {
  }

  // ---------------------------------------------------------------------------------------------
  // What a stage leaves
  // ---------------------------------------------------------------------------------------------

  /** How far the grid of a book reaches on either side of zero. */
  function Reach(c: Book): int
  {
    c.Middle() * c.del + (c.del - 1) / 2
  }

  /** The `n` samples at `at` are no further than `r` from zero. */
  ghost predicate Small(row: seq<int>, at: nat, n: nat, r: int)
  {
    at + n <= |row| && forall t :: at <= t < at + n ==> -r <= row[t] <= r
  }

  ghost predicate Near(v: seq<int>, r: int)
  {
    forall k :: 0 <= k < |v| ==> -r <= v[k] <= r
  }

  /** Rounding `x` to a step of a grid that reaches `p`, which is `mid` steps, either way. */
  lemma RoundsInside(p: int, mid: int, del: int, x: int)
    requires mid >= 0 && del >= 1 && p == mid * del && -(p + (del - 1) / 2) <= x <= p + (del - 1) / 2
    ensures var w := x + p + del / 2;
      && 0 <= w && 0 <= w / del < 2 * mid + 1
      && -(del / 2) <= x - (w / del * del - p) <= del / 2
  {
    var w := x + p + del / 2;
    DivMod(w, del);
    StepsBelow(mid, del, w / del, w);
  }

  lemma StepsBelow(mid: int, del: int, q: int, w: int)
    requires q * del <= w < 2 * (mid * del) + del && del >= 1
    ensures q < 2 * mid + 1
  {
    assert (2 * mid + 1) * del == 2 * (mid * del) + del;
    if q >= 2 * mid + 1 {
      MulMonotone(2 * mid + 1, q, del);
    }
  }

  /** A sample within reach is in range, and at most half a step is left of it. */
  lemma WithinReach(c: Book, x: int)
    requires c.Centred() && -Reach(c) <= x <= Reach(c)
    ensures InRange(c, x) && -(c.del / 2) <= x - (Step(c, x) * c.del + c.minval) <= c.del / 2
  {
    hide Power;
    OddCount(c);
    assert -c.Middle() * c.del == -(c.Middle() * c.del);
    RoundsInside(c.Middle() * c.del, c.Middle(), c.del, x);
  }

  /** The first sample beyond reach on the upper side is out of range. */
  lemma BeyondReach(c: Book)
    requires c.Centred()
    ensures !InRange(c, Reach(c) + 1)
  {
    hide Power;
    OddCount(c);
    assert c.minval == -(c.Middle() * c.del);
    assert c.quantvals * c.del == 2 * (c.Middle() * c.del) + c.del;
    var w := Reach(c) + 1 - c.minval + c.del / 2;
    DivMod(w, c.del);
    assert w == c.quantvals * c.del;
    DivModUnique(w, c.quantvals, c.del, 0);
  }

  /** A vector within reach is exact; in a full book each of its samples is left with at most half a step. */
  lemma VectorWithin(c: Book, v: seq<int>)
    requires c.Centred() && |v| == c.dim && Near(v, Reach(c))
    ensures AllInRange(c, v)
    ensures Full(c) ==> Near(Minus(v, Taken(c, v)), c.del / 2)
  {
    hide Book.Centred, Reach, InRange, Step, Power;
    OddCount(c);
    forall k | 0 <= k < c.dim
      ensures InRange(c, v[k]) && -(c.del / 2) <= v[k] - (Step(c, v[k]) * c.del + c.minval) <= c.del / 2
    {
      WithinReach(c, v[k]);
    }
    if Full(c) {
      DirectBound(c, v, 0);
    }
  }

  /** So it is with all vectors of a partition. */
  lemma {:induction false} PartWithin(c: Book, row: seq<int>, at: nat, m: nat)
    requires c.Centred() && (exists i :: Used(c, i))
    requires at + m * c.dim <= |row| && Small(row, at, m * c.dim, Reach(c))
    ensures CodeVectors(c, row, at, m).exact
    ensures Full(c) ==> Small(CodeVectors(c, row, at, m).row, at, m * c.dim, c.del / 2)
    decreases m
  {
    hide Book.Centred, Reach, CodeVector, CodeVectors, Full, Small, Near;
    if m == 0 {
      NoVectors(c, row, at);
      NoneSmall(row, at, Reach(c), c.del / 2);
    } else {
      BeforeLast(m, c.dim);
      var n := (m - 1) * c.dim;
      SmallParts(row, at, n, c.dim, Reach(c));
      PartWithin(c, row, at, m - 1);
      VectorUntouched(c, row, at, m - 1);
      var was, v := CodeVectors(c, row, at, m - 1), row[at + n..at + n + c.dim];
      assert was.row[at + n..at + n + c.dim] == v;
      VectorStep(c, was, at, n, v);
      CodeLast(c, row, at, m);
    }
  }

  lemma NoneSmall(row: seq<int>, at: nat, r: int, q: int)
    requires Small(row, at, 0, r)
    ensures Small(row, at, 0, q)
  {
  }

  lemma SmallParts(row: seq<int>, at: nat, n: nat, dim: nat, r: int)
    requires Small(row, at, n + dim, r)
    ensures Small(row, at, n, r) && at + n + dim <= |row|
    ensures Near(row[at + n..at + n + dim], r)
  {
  }

  lemma VectorStep(c: Book, was: Coded, at: nat, n: nat, v: seq<int>)
    requires c.Centred() && (exists i :: Used(c, i)) && at + n + c.dim <= |was.row| && was.exact
    requires v == was.row[at + n..at + n + c.dim] && Near(v, Reach(c))
    requires Full(c) ==> Small(was.row, at, n, c.del / 2)
    ensures var now := CodeVector(c, was, at + n);
      now.exact && (Full(c) ==> Small(now.row, at, n + c.dim, c.del / 2))
  {
    hide Book.Centred, Reach, Taken, Minus, Best, DirectEntry, AllInRange, Full, Small, Near;
    VectorWithin(c, v);
    TakenIsVector(c, v);
    LastSmall(was.row, at, n, c.dim, c.del / 2, Minus(v, Taken(c, v)), Full(c));
  }

  lemma LastSmall(row: seq<int>, at: nat, n: nat, dim: nat, r: int, left: seq<int>, full: bool)
    requires at + n + dim <= |row| && |left| == dim
    requires full ==> Small(row, at, n, r) && Near(left, r)
    ensures full ==> Small(Splice(row, at + n, left), at, n + dim, r)
  {
  }

  // ---------------------------------------------------------------------------------------------
  // Exactness of a run
  // ---------------------------------------------------------------------------------------------

  /** Every vector of the step is codable as the run has left it. */
  ghost predicate StepCodable(look: Look, shelf: Shelf, partword: seq<seq<nat>>, run: Run, slot: Slot)
    requires Job(look, shelf, partword, run.rows) && SlotOk(look, partword, slot)
  {
    match slot
    case Word(i, j) => true
    case Part(s, i, j) =>
      var b := look.BookOf(partword[j][i], s);
      BookGood(look, shelf, partword[j][i], s);
      b < 0 || (StageFacts(look, shelf, b);
        forall k: nat :: k < Fill(look.grouping, look.books[b].dim) ==>
          CodableNth(look.books[b], run.rows[j], look.At(i), k))
  }

  lemma StepExact(look: Look, shelf: Shelf, partword: seq<seq<nat>>, run: Run, slot: Slot)
    requires Job(look, shelf, partword, run.rows) && SlotOk(look, partword, slot)
    ensures RunStep(look, shelf, partword, run, slot).exact
       <==> run.exact && StepCodable(look, shelf, partword, run, slot)
  {
    hide CodeVectors, Look.StageBookOk, CodableNth;
    if slot.Part? {
      var b := look.BookOf(partword[slot.j][slot.i], slot.s);
      BookGood(look, shelf, partword[slot.j][slot.i], slot.s);
      if b >= 0 {
        StageFacts(look, shelf, b);
        PartitionFits(look, slot.i);
        var c := look.books[b];
        VectorsExact(c, run.rows[slot.j], look.At(slot.i), Fill(look.grouping, c.dim));
      }
    }
  }

  /** Step `n` of a run codes only codable vectors. */
  ghost predicate CodableStep(look: Look, shelf: Shelf, partword: seq<seq<nat>>, rows: seq<seq<int>>,
                              slots: seq<Slot>, n: nat)
    requires Job(look, shelf, partword, rows) && SlotsOk(look, partword, slots) && n < |slots|
  {
    StepCodable(look, shelf, partword, RunOf(look, shelf, partword, rows, slots[..n]), slots[n])
  }

  /** A run is exact if and only if every vector its steps code by the direct path is within the grid of
      the book used at that step. */
  lemma {:induction false} RunExact(look: Look, shelf: Shelf, partword: seq<seq<nat>>, rows: seq<seq<int>>,
                                    slots: seq<Slot>)
    requires Job(look, shelf, partword, rows) && SlotsOk(look, partword, slots)
    ensures RunOf(look, shelf, partword, rows, slots).exact
       <==> forall n: nat :: n < |slots| ==> CodableStep(look, shelf, partword, rows, slots, n)
  {
    hide RunStep, Job, SlotOk, StepCodable;
    if slots != [] {
      var front, last := slots[..|slots| - 1], |slots| - 1;
      RunExact(look, shelf, partword, rows, front);
      StepExact(look, shelf, partword, RunOf(look, shelf, partword, rows, front), slots[last]);
      assert CodableStep(look, shelf, partword, rows, slots, last)
        <==> StepCodable(look, shelf, partword, RunOf(look, shelf, partword, rows, front), slots[last]);
      forall n: nat | n < last
        ensures CodableStep(look, shelf, partword, rows, slots, n)
           <==> CodableStep(look, shelf, partword, rows, front, n)
      {
        assert slots[..n] == front[..n];
      }
    }
  }

  // ---------------------------------------------------------------------------------------------
  // The order of stages
  // ---------------------------------------------------------------------------------------------

  /** How many stages partition `i` of channel `j` has been through. */
  function Depth(slots: seq<Slot>, i: nat, j: nat): nat
  {
    if slots == [] then 0
    else
      var last := slots[|slots| - 1];
      if last.Part? && last.i == i && last.j == j then last.s + 1 else Depth(slots[..|slots| - 1], i, j)
  }

  /** The shape of a block's schedule. */
  datatype Plan = Plan(stages: nat, dim: nat, partvals: nat, ch: nat)

  /** A step in its turn: words at word starts, the stages of a partition one after the other. */
  predicate InTurn(plan: Plan, before: seq<Slot>, slot: Slot)
  {
    && plan.dim > 0 && slot.i < plan.partvals && slot.j < plan.ch
    && match slot
       case Word(i, j) => i % plan.dim == 0
       case Part(s, i, j) => s < plan.stages && s == Depth(before, i, j)
  }

  predicate Orderly(plan: Plan, slots: seq<Slot>)
  {
    slots == [] || (Orderly(plan, slots[..|slots| - 1]) && InTurn(plan, slots[..|slots| - 1], slots[|slots| - 1]))
  }

  /** Stage `s` has got as far as channel `j` of partition `i`. */
  predicate Reached(plan: Plan, slots: seq<Slot>, s: nat, i: nat, j: nat)
  {
    && Orderly(plan, slots)
    && forall i', j' :: 0 <= i' < plan.partvals && 0 <= j' < plan.ch ==>
         Depth(slots, i', j') == if i' < i || (i' == i && j' < j) then s + 1 else s
  }

  lemma {:induction false} WordsInTurn(plan: Plan, slots: seq<Slot>, s: nat, i: nat, j: nat)
    requires Reached(plan, slots, s, i, 0) && plan.dim > 0 && i % plan.dim == 0 && i < plan.partvals && j <= plan.ch
    ensures Reached(plan, slots + WordSlots(i, j), s, i, 0)
  {
    if j == 0 {
      assert slots + [] == slots;
    } else {
      WordsInTurn(plan, slots, s, i, j - 1);
      OneMore(slots, WordSlots(i, j - 1), Word(i, j - 1));
    }
  }

  lemma OneMore(slots: seq<Slot>, more: seq<Slot>, slot: Slot)
    ensures var all := slots + (more + [slot]);
      all != [] && all[..|all| - 1] == slots + more && all[|all| - 1] == slot
  {
  }

  lemma {:induction false} PartsInTurn(plan: Plan, slots: seq<Slot>, s: nat, i: nat, j: nat)
    requires Reached(plan, slots, s, i, 0) && plan.dim > 0 && i < plan.partvals && j <= plan.ch && s < plan.stages
    ensures Reached(plan, slots + PartSlots(s, i, j), s, i, j)
  {
    if j == 0 {
      assert slots + [] == slots;
    } else {
      PartsInTurn(plan, slots, s, i, j - 1);
      OneMore(slots, PartSlots(s, i, j - 1), Part(s, i, j - 1));
    }
  }

  lemma {:induction false} GroupInTurn(plan: Plan, slots: seq<Slot>, s: nat, from: nat, i: nat)
    requires Reached(plan, slots, s, from, 0) && plan.dim > 0 && from <= i <= plan.partvals && s < plan.stages
    ensures Reached(plan, slots + GroupSlots(s, from, i, plan.ch), s, i, 0)
    decreases i
  {
    hide Orderly, Depth, PartSlots;
    if i == from {
      assert slots + [] == slots;
    } else {
      GroupInTurn(plan, slots, s, from, i - 1);
      var group := GroupSlots(s, from, i - 1, plan.ch);
      PartsInTurn(plan, slots + group, s, i - 1, plan.ch);
      assert (slots + group) + PartSlots(s, i - 1, plan.ch) == slots + GroupSlots(s, from, i, plan.ch);
    }
  }

  lemma {:induction false} StageInTurn(plan: Plan, slots: seq<Slot>, s: nat, l: nat)
    requires Reached(plan, slots, s, 0, 0) && plan.dim > 0 && s < plan.stages && l <= Words(plan.dim, plan.partvals)
    ensures var i := WordStart(l, plan.dim, plan.partvals);
      Reached(plan, slots + StageSlots(s, l, plan.dim, plan.partvals, plan.ch), s, i, 0)
    decreases l
  {
    hide Reached, WordStart, Words, WordSlots, GroupSlots;
    var dim, partvals, ch := plan.dim, plan.partvals, plan.ch;
    WordStartUp(0, dim, partvals);
    if l == 0 {
      assert slots + [] == slots;
    } else {
      var from, to := WordStart(l - 1, dim, partvals), WordStart(l, dim, partvals);
      var done := slots + StageSlots(s, l - 1, dim, partvals, ch);
      StageInTurn(plan, slots, s, l - 1);
      WordStartUp(l - 1, dim, partvals);
      WordBegins(l - 1, dim, partvals);
      DivModUnique(from, l - 1, dim, 0);
      var words := if s == 0 then WordSlots(from, ch) else [];
      if s == 0 {
        WordsInTurn(plan, done, s, from, ch);
      } else {
        assert done + [] == done;
      }
      GroupInTurn(plan, done + words, s, from, to);
      assert (done + words) + GroupSlots(s, from, to, ch) == slots + StageSlots(s, l, dim, partvals, ch);
    }
  }

  lemma {:induction false} StagesInTurn(plan: Plan, s: nat)
    requires plan.dim > 0 && s <= plan.stages
    ensures Reached(plan, AllSlots(s, plan.dim, plan.partvals, plan.ch), s, 0, 0)
  {
    hide StageSlots, Words;
    if s > 0 {
      StagesInTurn(plan, s - 1);
      StageInTurn(plan, AllSlots(s - 1, plan.dim, plan.partvals, plan.ch), s - 1, Words(plan.dim, plan.partvals));
      WordsCover(plan.dim, plan.partvals);
    }
  }

  ghost function PlanOf(look: Look, ch: nat): Plan
    requires look.grouping > 0 && look.begin <= look.end
  {
    Plan(look.stages, look.wordDim, look.Partvals(), ch)
  }

  lemma {:induction false} OrderlyOk(look: Look, partword: seq<seq<nat>>, slots: seq<Slot>)
    requires look.grouping > 0 && look.begin <= look.end && Orderly(PlanOf(look, |partword|), slots)
    ensures SlotsOk(look, partword, slots)
  {
    hide Look.Partvals;
    if slots != [] {
      OrderlyOk(look, partword, slots[..|slots| - 1]);
    }
  }

  /** A block's schedule takes every step in its turn. */
  lemma ScheduleInTurn(look: Look, partword: seq<seq<nat>>)
    requires look.grouping > 0 && look.begin <= look.end && look.wordDim > 0
    ensures AllSlotsOk(look, partword) && Orderly(PlanOf(look, |partword|), Schedule(look, |partword|))
  {
    hide Orderly, AllSlots, Look.Partvals;
    StagesInTurn(PlanOf(look, |partword|), look.stages);
    OrderlyOk(look, partword, Schedule(look, |partword|));
  }

  // ---------------------------------------------------------------------------------------------
  // Codewords
  // ---------------------------------------------------------------------------------------------

  ghost predicate HasWord(look: Look, shelf: Shelf, classes: seq<nat>, i: nat)
  {
    shelf.Has(Token(look.groupbook, Horner(look.partitions, WordDigits(classes, i, look.wordDim))))
  }

  ghost predicate HasTree(look: Look, shelf: Shelf, class_: nat, s: nat)
  {
    var b := look.BookOf(class_, s);
    b < 0 || (b < |shelf.lens| && b < |shelf.words| && Complete(shelf.lens[b], shelf.words[b]))
  }

  /** The phrase book has a codeword for each group of classes that is written, and the stage books of those
      classes have full trees. */
  ghost predicate Phrased(look: Look, shelf: Shelf, partword: seq<seq<nat>>)
    requires look.grouping > 0 && look.begin <= look.end
  {
    && look.wordDim > 0
    && (forall i, j :: 0 <= i < look.Partvals() && 0 <= j < |partword| && i % look.wordDim == 0 ==>
          HasWord(look, shelf, partword[j], i))
    && (forall i, j, s: nat :: 0 <= j < |partword| && 0 <= i < |partword[j]| && s < look.stages ==>
          HasTree(look, shelf, partword[j][i], s))
  }

  lemma {:induction false} EntriesKnown(look: Look, shelf: Shelf, b: nat, row: seq<int>, at: nat, m: nat)
    requires |look.books| == |shelf.lens| == |shelf.words| && b < |look.books| && look.StageBookOk(shelf, b)
    requires Complete(shelf.lens[b], shelf.words[b]) && (exists i :: Used(look.books[b], i))
    requires look.books[b].Centred() && at + m * look.books[b].dim <= |row|
    ensures Known(shelf, VectorTokens(b, CodeVectors(look.books[b], row, at, m).entries))
    decreases m
  {
    hide Book.Centred, Complete, CodeVector, Look.StageBookOk, Shelf.Has;
    var c := look.books[b];
    if m > 0 {
      BeforeLast(m, c.dim);
      EntriesKnown(look, shelf, b, row, at, m - 1);
      EntryKnown(look, shelf, b, CodeVectors(c, row, at, m - 1), at + (m - 1) * c.dim);
    }
  }

  lemma EntryKnown(look: Look, shelf: Shelf, b: nat, was: Coded, from: nat)
    requires |look.books| == |shelf.lens| == |shelf.words| && b < |look.books| && look.StageBookOk(shelf, b)
    requires Complete(shelf.lens[b], shelf.words[b]) && (exists i :: Used(look.books[b], i))
    requires look.books[b].Centred() && from + look.books[b].dim <= |was.row|
    requires Known(shelf, VectorTokens(b, was.entries))
    ensures Known(shelf, VectorTokens(b, CodeVector(look.books[b], was, from).entries))
  {
    hide Book.Centred, Complete, Taken, Minus, Best, Power;
    var c := look.books[b];
    var v := was.row[from..from + c.dim];
    TakenIsVector(c, v);
    assert VectorTokens(b, was.entries + [Best(c, v)]) == VectorTokens(b, was.entries) + [Token(b, Best(c, v))];
  }

  lemma KnownConcat(shelf: Shelf, a: seq<Token>, b: seq<Token>)
    requires Known(shelf, a) && Known(shelf, b)
    ensures Known(shelf, a + b)
  {
  }

  lemma StepKnown(look: Look, shelf: Shelf, partword: seq<seq<nat>>, run: Run, before: seq<Slot>, slot: Slot)
    requires Job(look, shelf, partword, run.rows) && SlotOk(look, partword, slot) && Phrased(look, shelf, partword)
    requires InTurn(PlanOf(look, |partword|), before, slot) && Known(shelf, run.tokens)
    ensures Known(shelf, RunStep(look, shelf, partword, run, slot).tokens)
  {
    hide CodeVectors, Look.StageBookOk, Complete, Known, Horner, Depth;
    match slot {
      case Word(i, j) =>
        assert HasWord(look, shelf, partword[j], i);
        OneKnown(shelf, Token(look.groupbook, Horner(look.partitions, WordDigits(partword[j], i, look.wordDim))));
        KnownConcat(shelf, run.tokens,
                    [Token(look.groupbook, Horner(look.partitions, WordDigits(partword[j], i, look.wordDim)))]);
      case Part(s, i, j) =>
        var b := look.BookOf(partword[j][i], s);
        BookGood(look, shelf, partword[j][i], s);
        if b >= 0 {
          assert HasTree(look, shelf, partword[j][i], s);
          StageFacts(look, shelf, b);
          PartitionFits(look, i);
          var c := look.books[b];
          EntriesKnown(look, shelf, b, run.rows[j], look.At(i), Fill(look.grouping, c.dim));
          KnownConcat(shelf, run.tokens, VectorTokens(b,
            CodeVectors(c, run.rows[j], look.At(i), Fill(look.grouping, c.dim)).entries));
        }
    }
  }

  lemma OneKnown(shelf: Shelf, t: Token)
    requires shelf.Has(t)
    ensures Known(shelf, [t])
  {
  }

  /** Everything the encoder writes can be decoded. */
  lemma {:induction false} TokensKnown(look: Look, shelf: Shelf, partword: seq<seq<nat>>, rows: seq<seq<int>>,
                                       slots: seq<Slot>)
    requires Job(look, shelf, partword, rows) && SlotsOk(look, partword, slots)
    requires Phrased(look, shelf, partword) && Orderly(PlanOf(look, |partword|), slots)
    ensures Known(shelf, RunOf(look, shelf, partword, rows, slots).tokens)
  {
    hide RunStep, Job, SlotOk, InTurn, Phrased, PlanOf;
    JobFacts(look, shelf, partword, rows);
    if slots != [] {
      var front, last := slots[..|slots| - 1], |slots| - 1;
      assert SlotOk(look, partword, slots[last]);
      TokensKnown(look, shelf, partword, rows, front);
      StepKnown(look, shelf, partword, RunOf(look, shelf, partword, rows, front), front, slots[last]);
    }
  }

  // ---------------------------------------------------------------------------------------------
  // A sufficient condition on the samples
  // ---------------------------------------------------------------------------------------------

  /** The largest magnitude among the samples of a partition. */
  function Peak(row: seq<int>, at: nat, n: nat): (r: nat)
    decreases n
  {
    if n == 0 || |row| <= at then 0
    else
      var rest := Peak(row, at + 1, n - 1);
      if Abs(row[at]) > rest then Abs(row[at]) else rest
  }

  lemma {:induction false} PeakBounds(row: seq<int>, at: nat, n: nat)
    requires at + n <= |row|
    ensures Small(row, at, n, Peak(row, at, n))
    decreases n
  {
    if n > 0 {
      PeakBounds(row, at + 1, n - 1);
    }
  }

  /** How far from zero the samples of a class can be after `s` stages, when they were `r` at first: half a
      step of the last book that coded them. */
  function Bound(look: Look, class_: nat, s: nat, r: nat): int
    decreases s
  {
    if s == 0 then r
    else
      var b := look.BookOf(class_, s - 1);
      if 0 <= b < |look.books| then look.books[b].del / 2 else Bound(look, class_, s - 1, r)
  }

  ghost predicate FullAt(look: Look, class_: nat, t: nat)
  {
    var b := look.BookOf(class_, t);
    0 <= b < |look.books| ==> Full(look.books[b])
  }

  /** The books before stage `s` are full. */
  ghost predicate Dense(look: Look, class_: nat, s: nat)
  {
    forall t: nat :: t < s ==> FullAt(look, class_, t)
  }

  /** The book of stage `s` reaches all that the stages before it may leave. */
  ghost predicate CoversAt(look: Look, class_: nat, s: nat, r: nat)
  {
    var b := look.BookOf(class_, s);
    0 <= b < |look.books| ==> Dense(look, class_, s) && Bound(look, class_, s, r) <= Reach(look.books[b])
  }

  /** The first grid of a class reaches samples up to `r`, and each later one half a step of the one before. */
  ghost predicate Covers(look: Look, class_: nat, r: nat)
  {
    forall s: nat :: s < look.stages ==> CoversAt(look, class_, s, r)
  }

  /** So it is for every partition of the block. */
  ghost predicate Covered(look: Look, partword: seq<seq<nat>>, rows: seq<seq<int>>)
    requires |rows| == |partword|
  {
    forall j, i :: 0 <= j < |partword| && 0 <= i < |partword[j]| ==>
      Covers(look, partword[j][i], Peak(rows[j], look.At(i), look.grouping))
  }

  /** What is left of partition `i` after `d` stages. */
  ghost predicate LeftSmall(look: Look, class_: nat, row: seq<int>, i: nat, d: nat, r: nat)
  {
    Dense(look, class_, d) ==> Small(row, look.At(i), look.grouping, Bound(look, class_, d, r))
  }

  /** A stage without a book leaves what there was. */
  lemma NothingTaken(look: Look, class_: nat, row: seq<int>, i: nat, s: nat, r: nat)
    requires look.BookOf(class_, s) < 0 && LeftSmall(look, class_, row, i, s, r)
    ensures LeftSmall(look, class_, row, i, s + 1, r)
  {
    hide Full, Small;
  }

  /** A stage with a book is exact, and leaves at most half a step of it. */
  lemma PartLeaves(look: Look, class_: nat, row: seq<int>, i: nat, s: nat, r: nat, c: Book, m: nat)
    requires 0 <= look.BookOf(class_, s) < |look.books| && c == look.books[look.BookOf(class_, s)]
    requires c.Centred() && (exists k :: Used(c, k)) && m * c.dim == look.grouping
    requires look.At(i) + look.grouping <= |row|
    requires s < look.stages && Covers(look, class_, r) && LeftSmall(look, class_, row, i, s, r)
    ensures var done := CodeVectors(c, row, look.At(i), m);
      done.exact && LeftSmall(look, class_, done.row, i, s + 1, r)
  {
    hide CodeVectors, Full, Small, Reach, Book.Centred;
    assert CoversAt(look, class_, s, r);
    Smaller(row, look.At(i), look.grouping, Bound(look, class_, s, r), Reach(c));
    PartWithin(c, row, look.At(i), m);
    if Dense(look, class_, s + 1) {
      assert FullAt(look, class_, s);
    }
  }

  lemma Smaller(row: seq<int>, at: nat, n: nat, r: int, q: int)
    requires Small(row, at, n, r) && r <= q
    ensures Small(row, at, n, q)
  {
  }

  /** Every partition has been left small by the stages it has been through. */
  ghost predicate AllSmall(look: Look, partword: seq<seq<nat>>, rows0: seq<seq<int>>, rows: seq<seq<int>>,
                           slots: seq<Slot>)
    requires |rows0| == |rows| == |partword|
  {
    forall j, i :: 0 <= j < |partword| && 0 <= i < |partword[j]| ==>
      LeftSmall(look, partword[j][i], rows[j], i, Depth(slots, i, j), Peak(rows0[j], look.At(i), look.grouping))
  }

  lemma StartsSmall(look: Look, shelf: Shelf, partword: seq<seq<nat>>, rows: seq<seq<int>>)
    requires Job(look, shelf, partword, rows)
    ensures |rows| == |partword| && AllSmall(look, partword, rows, rows, [])
  {
    hide Look.StageBookOk, Small;
    forall j, i | 0 <= j < |partword| && 0 <= i < |partword[j]|
      ensures LeftSmall(look, partword[j][i], rows[j], i, 0, Peak(rows[j], look.At(i), look.grouping))
    {
      PartitionFits(look, i);
      PeakBounds(rows[j], look.At(i), look.grouping);
    }
  }

  /** Coding one partition leaves the others alone. */
  lemma OthersSmall(look: Look, class_: nat, c: Book, row: seq<int>, i0: nat, m: nat, i: nat, d: nat, r: nat)
    requires c.Centred() && (exists k :: Used(c, k)) && m * c.dim == look.grouping && i != i0
    requires look.At(i0) + look.grouping <= |row| && LeftSmall(look, class_, row, i, d, r)
    ensures LeftSmall(look, class_, CodeVectors(c, row, look.At(i0), m).row, i, d, r)
  {
    hide CodeVectors, Book.Centred, Dense, Bound;
    Apart(i0, i, look.grouping);
    if Dense(look, class_, d) {
      forall t | look.At(i) <= t < look.At(i) + look.grouping
        ensures CodeVectors(c, row, look.At(i0), m).row[t] == row[t]
      {
        VectorsElsewhere(c, row, look.At(i0), m, t);
      }
    }
  }

  lemma Apart(i: nat, k: nat, n: nat)
    requires i != k
    ensures i * n + n <= k * n || k * n + n <= i * n
  {
    if i < k {
      MulStep(i, k, n);
    } else {
      MulStep(k, i, n);
    }
  }

  lemma DepthMore(front: seq<Slot>, slot: Slot, i: nat, j: nat)
    ensures Depth(front + [slot], i, j)
         == if slot.Part? && slot.i == i && slot.j == j then slot.s + 1 else Depth(front, i, j)
  {
    assert (front + [slot])[..|front|] == front;
  }

  lemma StageTiles(look: Look, class_: nat, s: nat)
    requires look.Tiled() && 0 <= look.BookOf(class_, s) < |look.books|
    ensures var c := look.books[look.BookOf(class_, s)];
      c.dim > 0 && Fill(look.grouping, c.dim) * c.dim == look.grouping
  {
    var c := look.books[look.partbooks[class_][s]];
    assert Tiles(c, look.grouping);
    DivMod(look.grouping, c.dim);
  }

  /** What a step does to one partition. */
  lemma StepSmall(look: Look, shelf: Shelf, partword: seq<seq<nat>>, run: Run, front: seq<Slot>, slot: Slot,
                  i: nat, j: nat, r: nat)
    requires Job(look, shelf, partword, run.rows) && SlotOk(look, partword, slot) && look.Tiled()
    requires InTurn(PlanOf(look, |partword|), front, slot) && j < |partword| && i < |partword[j]|
    requires Covers(look, partword[j][i], r)
    requires LeftSmall(look, partword[j][i], run.rows[j], i, Depth(front, i, j), r)
    ensures var next := RunStep(look, shelf, partword, run, slot);
      && LeftSmall(look, partword[j][i], next.rows[j], i, Depth(front + [slot], i, j), r)
      && (slot.Part? && slot.i == i && slot.j == j && run.exact ==> next.exact)
  {
    hide CodeVectors, Look.StageBookOk, LeftSmall, Covers, Depth;
    DepthMore(front, slot, i, j);
    if slot.Part? {
      var b := look.BookOf(partword[slot.j][slot.i], slot.s);
      BookGood(look, shelf, partword[slot.j][slot.i], slot.s);
      if b >= 0 {
        StageFacts(look, shelf, b);
        StageTiles(look, partword[slot.j][slot.i], slot.s);
        PartitionFits(look, slot.i);
        var c := look.books[b];
        if slot.i == i && slot.j == j {
          PartLeaves(look, partword[j][i], run.rows[j], i, slot.s, r, c, Fill(look.grouping, c.dim));
        } else if slot.j == j {
          OthersSmall(look, partword[j][i], c, run.rows[j], slot.i, Fill(look.grouping, c.dim), i, Depth(front, i, j),
                      r);
        }
      } else if slot.i == i && slot.j == j {
        NothingTaken(look, partword[j][i], run.rows[j], i, slot.s, r);
      }
    }
  }

  /** If every grid reaches what may come to it, a run is exact, and every partition is left small by the
      stages it has been through. */
  lemma {:induction false} RunCovered(look: Look, shelf: Shelf, partword: seq<seq<nat>>, rows: seq<seq<int>>,
                                      slots: seq<Slot>)
    requires Job(look, shelf, partword, rows) && SlotsOk(look, partword, slots) && |rows| == |partword|
    requires look.Tiled() && Covered(look, partword, rows) && Orderly(PlanOf(look, |partword|), slots)
    ensures var run := RunOf(look, shelf, partword, rows, slots);
      run.exact && |run.rows| == |partword| && AllSmall(look, partword, rows, run.rows, slots)
  {
    hide RunStep, Job, SlotOk, InTurn, PlanOf, LeftSmall, Covers, Depth, Peak;
    JobFacts(look, shelf, partword, rows);
    if slots == [] {
      StartsSmall(look, shelf, partword, rows);
    } else {
      var front, slot := slots[..|slots| - 1], slots[|slots| - 1];
      assert SlotOk(look, partword, slots[|slots| - 1]);
      RunCovered(look, shelf, partword, rows, front);
      assert slots == front + [slot];
      var run := RunOf(look, shelf, partword, rows, front);
      StepStays(look, shelf, partword, rows, run, front, slot);
      forall j, i | 0 <= j < |partword| && 0 <= i < |partword[j]|
        ensures LeftSmall(look, partword[j][i], RunStep(look, shelf, partword, run, slot).rows[j], i,
                          Depth(slots, i, j), Peak(rows[j], look.At(i), look.grouping))
      {
        StepSmall(look, shelf, partword, run, front, slot, i, j, Peak(rows[j], look.At(i), look.grouping));
      }
    }
  }

  lemma StepStays(look: Look, shelf: Shelf, partword: seq<seq<nat>>, rows: seq<seq<int>>, run: Run,
                  front: seq<Slot>, slot: Slot)
    requires Job(look, shelf, partword, run.rows) && SlotOk(look, partword, slot) && run.exact && look.Tiled()
    requires InTurn(PlanOf(look, |partword|), front, slot) && |rows| == |run.rows| == |partword|
    requires Covered(look, partword, rows) && AllSmall(look, partword, rows, run.rows, front)
    ensures RunStep(look, shelf, partword, run, slot).exact
    ensures |RunStep(look, shelf, partword, run, slot).rows| == |partword|
  {
    hide LeftSmall, Covers, Depth, Peak, Look.StageBookOk, CodeVectors;
    if slot.Part? {
      var i, j := slot.i, slot.j;
      StepSmall(look, shelf, partword, run, front, slot, i, j, Peak(rows[j], look.At(i), look.grouping));
    }
  }

  /** A block whose samples the grids reach is coded exactly; where all books are full, every sample of a
      partition is left with at most half a step of the last book that coded it. */
  lemma ScheduleCovered(look: Look, shelf: Shelf, partword: seq<seq<nat>>, rows: seq<seq<int>>)
    requires Job(look, shelf, partword, rows) && |rows| == |partword| && Covered(look, partword, rows) && look.Tiled()
    requires look.grouping > 0 && look.begin <= look.end && look.wordDim > 0
    ensures AllSlotsOk(look, partword)
    ensures var run := RunOf(look, shelf, partword, rows, Schedule(look, |partword|));
      run.exact && |run.rows| == |partword|
      && forall j, i :: 0 <= j < |partword| && 0 <= i < |partword[j]| ==>
           LeftSmall(look, partword[j][i], run.rows[j], i, look.stages,
                     Peak(rows[j], look.At(i), look.grouping))
  {
    hide Job, Orderly, LeftSmall, Covers, Depth, Peak, AllSlots, RunOf, Look.Partvals;
    JobFacts(look, shelf, partword, rows);
    ScheduleInTurn(look, partword);
    StagesInTurn(PlanOf(look, |partword|), look.stages);
    ScheduleIs(look, |partword|);
    RunCovered(look, shelf, partword, rows, Schedule(look, |partword|));
  }
}
