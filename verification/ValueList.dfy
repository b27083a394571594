/** The vectors of a codebook's entries, as the decoder lists them (section 3.3 of the Vorbis I specification). */
module ValueList {
  import opened BitMath
  import opened CodeTree
  import opened SharedBook
  import opened PointerSort
  import opened BuildTables
  import opened QuantVals
  import Lattice
  import StaticBook

  /** Quantised values with a minimum and a step, which are whole numbers here: listed vector by vector, or
      shared by all components, which count through them. In a sequence each component is added to the one before. */
  datatype Quantised = Quantised(dim: nat, explicit: bool, sequencep: bool, quantvals: nat, minval: int, del: int,
                                 quantlist: seq<int>)
  {
    /** The values suffice for `entries` vectors. */
    ghost predicate Serves(entries: nat)
    {
      if explicit then |quantlist| == entries * dim
      else |quantlist| == quantvals && (entries > 0 ==> quantvals > 0)
    }

    function Place(entries: nat, j: nat, k: nat): (i: nat)
      requires Serves(entries) && j < entries && k < dim
      ensures i < |quantlist|
    {
      if explicit then
        MulStep(j, entries, dim);
        j * dim + k
      else
        Lattice.Digit(j, quantvals, k)
    }

    /** Component `k` of entry `j`. */
    function Value(entries: nat, j: nat, k: nat): int
      requires Serves(entries) && j < entries && k < dim
      decreases k
    {
      Abs(quantlist[Place(entries, j, k)]) * del + minval
      + if sequencep && k > 0 then Value(entries, j, k - 1) else 0
    }

    function Vector(entries: nat, j: nat): (v: seq<int>)
      requires Serves(entries) && j < entries
      ensures |v| == dim
    {
      seq(dim, k requires 0 <= k < dim => Value(entries, j, k))
    }

    function Vectors(entries: nat): (vs: seq<seq<int>>)
      requires Serves(entries)
      ensures |vs| == entries && forall j :: 0 <= j < entries ==> |vs[j]| == dim
    {
      seq(entries, j requires 0 <= j < entries => Vector(entries, j))
    }
  }

  /** Where a component comes from: its own place in an explicit list, or the one that the entry number counts to by a
      divisor that grows with the component. Its value is the quantised size times the step, and the minimum, on top of
      the component before it in a sequence, and by itself otherwise. */
  lemma ValueFrom(q: Quantised, entries: nat, j: nat, k: nat)
    requires q.Serves(entries) && j < entries && k < q.dim
    ensures !q.explicit ==> q.quantvals > 0 && Lattice.Power(q.quantvals, k) > 0
    ensures var place := if q.explicit then j * q.dim + k else (j / Lattice.Power(q.quantvals, k)) % q.quantvals;
      && 0 <= place < |q.quantlist|
      && Abs(q.quantlist[place]) * q.del + q.minval
         == q.Value(entries, j, k) - if q.sequencep && k > 0 then q.Value(entries, j, k - 1) else 0
  {
    hide Lattice.Digit, Lattice.Power;
    if q.explicit {
      MulStep(j, entries, q.dim);
    } else {
      NextDivisor(q.quantvals, j, k, Lattice.Power(q.quantvals, k));
    }
  }

  /** The quantised sizes of the components up to `k`, added up. */
  ghost function SizeSum(q: Quantised, entries: nat, j: nat, k: nat): int
    requires q.Serves(entries) && j < entries && k < q.dim
    decreases k
  {
    Abs(q.quantlist[q.Place(entries, j, k)]) + if k == 0 then 0 else SizeSum(q, entries, j, k - 1)
  }

  /** A sequence runs on: each component is the step times all sizes up to it, and as many minimums. */
  lemma {:induction false} SequenceRuns(q: Quantised, entries: nat, j: nat, k: nat)
    requires q.Serves(entries) && j < entries && k < q.dim && q.sequencep
    ensures q.Value(entries, j, k) == SizeSum(q, entries, j, k) * q.del + (k + 1) * q.minval
    decreases k
  {
    hide Quantised.Serves;
    if k > 0 {
      SequenceRuns(q, entries, j, k - 1);
      var size, before := Abs(q.quantlist[q.Place(entries, j, k)]), SizeSum(q, entries, j, k - 1);
      assert (size + before) * q.del == size * q.del + before * q.del;
      assert (k + 1) * q.minval == k * q.minval + q.minval;
    }
  }

  lemma NextDivisor(q: nat, j: nat, k: nat, indexdiv: nat)
    requires q > 0 && indexdiv == Lattice.Power(q, k)
    ensures indexdiv > 0 && (j / indexdiv) % q == Lattice.Digit(j, q, k) && indexdiv * q == Lattice.Power(q, k + 1)
  {
    Lattice.DigitIsQuotient(j, q, k);
  }

  lemma FirstDivisor(q: nat)
    ensures Lattice.Power(q, 0) == 1
  {
  }

  /** One vector: its values in the list, or those that a divisor counts through, and the last component. */
  method ListVector(q: Quantised, entries: nat, j: nat) returns (v: seq<int>)
    requires q.Serves(entries) && j < entries
    ensures v == q.Vector(entries, j)
  {
    hide Lattice.Digit, Lattice.Power;
    v := [];
    var last, indexdiv := 0, 1;
    FirstDivisor(q.quantvals);
    for k := 0 to q.dim
      invariant |v| == k && forall i :: 0 <= i < k ==> v[i] == q.Value(entries, j, i)
      invariant last == if q.sequencep && k > 0 then q.Value(entries, j, k - 1) else 0
      invariant q.explicit || indexdiv == Lattice.Power(q.quantvals, k)
    {
      var index;
      if q.explicit {
        MulStep(j, entries, q.dim);
        index := j * q.dim + k;
      } else {
        NextDivisor(q.quantvals, j, k, indexdiv);
        index := (j / indexdiv) % q.quantvals;
        indexdiv := indexdiv * q.quantvals;
      }
      assert index == q.Place(entries, j, k);
      var val := Abs(q.quantlist[index]) * q.del + q.minval + last;
      if q.sequencep {
        last := val;
      }
      v := v + [val];
    }
  }

  /** The vectors of the used entries, each at the sorted place of its codeword. */
  method Unquantize(lens: seq<nat>, q: Quantised, sparsemap: array<nat>, ghost codep: seq<nat>)
      returns (r: array<seq<int>>)
    requires q.Serves(|lens|) && sparsemap.Length == Used(lens) && Permutes(codep, sparsemap[..])
    ensures fresh(r) && Spread(lens, sparsemap[..], r[..], q.Vectors(|lens|), |lens|)
  {
    hide Permutes, Spread, Quantised.Vector, Quantised.Serves;
    ghost var place, vectors := sparsemap[..], q.Vectors(|lens|);
    r := new seq<int>[sparsemap.Length](i => []);
    var count := 0;
    SpreadStart(lens, place, r[..], vectors);
    for j := 0 to |lens|
      invariant count == Used(lens[..j]) && sparsemap[..] == place
      invariant fresh(r) && r.Length == |place| && Spread(lens, place, r[..], vectors, j)
    {
      UsedStep(lens, j);
      ghost var was := r[..];
      SpreadStep(lens, codep, place, was, vectors, j);
      if lens[j] > 0 {
        var v := ListVector(q, |lens|, j);
        r[sparsemap[count]] := v;
        assert r[..] == was[place[count] := vectors[j]];
        count := count + 1;
      }
    }
  }

  /** What the list holds at a sorted place is the vector of the entry whose number stands there. */
  lemma ListedByEntry<T>(lens: seq<nat>, order: seq<nat>, place: seq<nat>, list: seq<T>, vectors: seq<T>,
                         index: seq<nat>, p: nat)
    requires Sorting(lens, order, place, index) && |vectors| == |lens| && p < |place|
    requires Spread(lens, place, list, vectors, |lens|)
    ensures |index| == |list| == |place| && index[p] < |lens| && lens[index[p]] > 0 && list[p] == vectors[index[p]]
  {
    assert lens[..|lens|] == lens;
    var e := EntryExists(lens, |lens|, order[p]);
    assert IsEntry(lens, order[p], e) && place[order[p]] == p;
  }

  /** The decoder lists the very grid that the encoder searches, when the values are those of the grid. */
  lemma GridIsListed(q: Quantised, c: Lattice.Book)
    requires c.Centred() && q.Serves(c.entries) && !q.explicit && !q.sequencep && q.dim == c.dim
    requires q.quantvals == c.quantvals && q.minval == c.minval && q.del == c.del
    requires |q.quantlist| == |c.quantlist|
    requires forall m :: 0 <= m < |c.quantlist| ==> Abs(q.quantlist[m]) == c.quantlist[m]
    requires c.valuelist == q.Vectors(c.entries)
    ensures c.ListsGrid()
  {
    hide Lattice.Digit, Lattice.Power;
    forall i | 0 <= i < c.entries
      ensures c.valuelist[i] == c.Vector(i)
    {
      forall k | 0 <= k < c.dim
        ensures q.Value(c.entries, i, k) == c.Value(i, k)
      {
      }
    }
  }

  /** What a book of the setup header holds, with the minimum and the step that its floats stand for. */
  function QuantisedOf(s: StaticBook.Book, minval: int, del: int): Quantised
    requires s.mapping.Mapping?
  {
    var m := s.mapping;
    Quantised(s.dim, m.explicit, m.qSequencep, |m.quantlist|, minval, del, m.quantlist)
  }

  /** A book that the header reader accepts has values for all its vectors. */
  lemma AcceptedServes(s: StaticBook.Book, minval: int, del: int)
    requires StaticBook.Readable(s) && s.mapping.Mapping? && s.dim >= 1
    ensures QuantisedOf(s, minval, del).Serves(|s.lengthlist|)
  {
    hide StaticBook.ValuesFit, Lattice.Power;
    if !s.mapping.explicit && |s.lengthlist| > 0 {
      RootPositive(|s.lengthlist|, s.dim);
    }
  }

  lemma RootPositive(entries: nat, dim: nat)
    requires entries > 0 && dim >= 1
    ensures Root(entries, dim) > 0
  {
    OneToPower(dim);
  }

  lemma {:induction false} OneToPower(dim: nat)
    ensures Lattice.Power(1, dim) == 1
  {
    if dim > 0 {
      OneToPower(dim - 1);
    }
  }
}
